/**
 Everything a protected group owes the network.  Which payloads make a group follows from the calls
 alone; its packets are one for each payload and each parity index, no more and no fewer, and any
 size of them that reach a receiver give back all its payloads.
 */
module FecComplete {
  import opened Bytes
  import opened ErasureCode
  import opened FecGroups
  import opened FecDelivery
  import opened FecRuns
  import opened FecSending
  import FecEviction

  // ---------------------------------------------------------------- the calls of a group

  /** A payload sent while protection is on. */
  predicate Guarded(c: Call)
  {
    c.Call? && c.fecR != 0
  }

  /** The protected payloads, in order. */
  function Payloads(calls: seq<Call>): seq<Payload>
  {
    if calls == [] then []
    else
      var init, last := calls[..|calls| - 1], calls[|calls| - 1];
      if Guarded(last) then Payloads(init) + [last.payload] else Payloads(init)
  }

  predicate NoTimer(calls: seq<Call>)
  {
    forall i :: 0 <= i < |calls| ==> calls[i].Call?
  }

  /** No group is open after the calls. */
  ghost predicate Idle(calls: seq<Call>)
    requires CallsOk(calls)
  {
    EncoderAfter(calls).blocks == []
  }

  /** The number of the next group: they are numbered in turn, with 16 bits. */
  ghost function NextId(calls: seq<Call>): u16
    requires CallsOk(calls)
  {
    ((GroupsOpened(calls) + 1) % 0x1_0000) as u16
  }

  /** The settings the first payload of a group finds: 1 to 16 payloads, up to 8 parities. */
  predicate Sets(c: Call, n: byte, r: byte)
  {
    && Guarded(c)
    && n as int == (if c.fecN == 0 then 1 else if c.fecN > 16 then 16 else c.fecN)
    && r as int == (if c.fecR > 8 then 8 else c.fecR)
  }

  /** After pre no group is open, and the calls of mid, none the timer, start one with these settings. */
  ghost predicate Starts(pre: seq<Call>, mid: seq<Call>, n: byte, r: byte)
  {
    CallsOk(pre) && CallsOk(mid) && Idle(pre) && NoTimer(mid) && mid != [] && Sets(mid[0], n, r)
  }

  // ---------------------------------------------------------------- the packets of a group

  /** The packets that belong to groups. */
  function Shielded(ws: seq<Wire>): seq<Wire>
  {
    if ws == [] then []
    else
      var init, last := ws[..|ws| - 1], ws[|ws| - 1];
      if last.h.r != 0 then Shielded(init) + [last] else Shielded(init)
  }

  lemma {:induction false} ShieldedAppend(a: seq<Wire>, b: seq<Wire>)
    ensures Shielded(a + b) == Shielded(a) + Shielded(b)
    decreases |b|
  {
    if b == [] {
      assert a + b == a;
    } else {
      ShieldedAppend(a, b[..|b| - 1]);
      assert (a + b)[..|a + b| - 1] == a + b[..|b| - 1];
    }
  }

  lemma {:induction false} ShieldedAll(ws: seq<Wire>)
    requires forall i :: 0 <= i < |ws| ==> ws[i].h.r != 0
    ensures Shielded(ws) == ws
    decreases |ws|
  {
    if ws != [] {
      ShieldedAll(ws[..|ws| - 1]);
      assert ws == ws[..|ws| - 1] + [ws[|ws| - 1]];
    }
  }

  predicate FitsGroup(ps: seq<Payload>, n: byte, r: byte)
  {
    |ps| <= n as int <= 16 && 0 < r as int <= 8 && Framable(ps)
  }

  function DataPacket(id: u16, n: byte, r: byte, ps: seq<Payload>, i: nat): Wire
    requires FitsGroup(ps, n, r) && i < |ps|
  {
    Wire(Header(id, i, n, r), ps[i])
  }

  function DataPackets(id: u16, n: byte, r: byte, ps: seq<Payload>): (ws: seq<Wire>)
    requires FitsGroup(ps, n, r)
    ensures |ws| == |ps|
  {
    seq(|ps|, i requires 0 <= i < |ps| => DataPacket(id, n, r, ps, i))
  }

  /** Packet k of a group of the payloads ps: payload k under the announced n, or the block encoded from all of them. */
  ghost function PacketOf(id: u16, n: byte, r: byte, ps: seq<Payload>, k: nat): Wire
    requires FitsGroup(ps, n, r) && ps != [] && k < |ps| + r as nat
  {
    if k < |ps| then Wire(Header(id, k, n, r), ps[k])
    else Wire(Header(id, k, |ps|, r), Encoded(Frames(ps), |ps|, BLOCK, k))
  }

  /** One packet for each index, in order. */
  ghost function GroupPackets(id: u16, n: byte, r: byte, ps: seq<Payload>): (ws: seq<Wire>)
    requires FitsGroup(ps, n, r) && ps != []
    ensures |ws| == |ps| + r as nat
  {
    seq(|ps| + r as nat, k requires 0 <= k < |ps| + r as nat => PacketOf(id, n, r, ps, k))
  }

  // ---------------------------------------------------------------- while the group fills

  lemma {:induction false} NumbersInTurn(calls: seq<Call>)
    requires CallsOk(calls)
    ensures EncoderAfter(calls).group as int == GroupsOpened(calls) % 0x1_0000
    decreases |calls|
  {
    if calls != [] {
      var init, last := calls[..|calls| - 1], calls[|calls| - 1];
      NumbersInTurn(init);
      StepNumber(EncoderAfter(init), last, GroupsOpened(init));
      hide Stepped, Opens;
    }
  }

  lemma {:induction false} StepNumber(e: Encoder, c: Call, started: nat)
    requires EncoderOk(e) && CallOk(c) && e.group as int == started % 0x1_0000
    ensures Stepped(e, c).e.group as int == (started + if Opens(e, c) then 1 else 0) % 0x1_0000
  {
    hide Framed, ParityPackets;
  }

  /** The encoder as a guarded call of the group finds it, once the settings are made. */
  ghost predicate Ready(pre: seq<Call>, init: seq<Call>, c: Call, id: u16, n: byte, r: byte)
    requires CallsOk(pre) && CallsOk(pre + init)
  {
    && Guarded(c) && FitsGroup(Payloads(init), n, r)
    && Opened(EncoderAfter(pre + init), c.fecN, c.fecR) == Encoder(id, n, r, Frames(Payloads(init)))
    && Shielded(Emitted(pre + init)) == Shielded(Emitted(pre)) + DataPackets(id, n, r, Payloads(init))
  }

  lemma {:induction false} AddsPacket(e: Encoder, c: Call, id: u16, n: byte, r: byte, ps: seq<Payload>)
    requires EncoderOk(e) && CallOk(c) && Guarded(c) && FitsGroup(ps, n, r) && |ps| < n as int
    requires Opened(e, c.fecN, c.fecR) == Encoder(id, n, r, Frames(ps))
    ensures var out, more := Stepped(e, c), ps + [c.payload];
            && FitsGroup(more, n, r) && Framable([c.payload])
            && (|more| < n as int ==>
                  && out.e == Encoder(id, n, r, Frames(more))
                  && out.ws == [Wire(Header(id, |ps|, n, r), c.payload)])
            && (|more| == n as int ==>
                  && out.e == Encoder(id, n, r, [])
                  && out.ws == [Wire(Header(id, |ps|, n, r), c.payload)]
                               + ParityPackets(Encoder(id, n, r, Frames(more))))
  {
    hide Framed, ParityPackets, Opened;
    assert Frames(ps + [c.payload]) == Frames(ps) + [Framed(c.payload)];
  }

  lemma {:induction false} PassesBy(e: Encoder, c: Call)
    requires EncoderOk(e) && CallOk(c) && c.Call? && !Guarded(c)
    ensures Stepped(e, c).e == e && Shielded(Stepped(e, c).ws) == []
    ensures Stepped(e, c).ws == [Wire(Header(0, 0, 1, 0), c.payload)]
  {
    var ws := [Wire(Header(0, 0, 1, 0), c.payload)];
    assert ws[..0] == [];
    assert Shielded(ws[..0]) == [];
  }

  lemma {:induction false} OpensFirst(pre: seq<Call>, c: Call, n: byte, r: byte)
    requires CallsOk(pre) && Idle(pre) && Sets(c, n, r)
    ensures pre + [] == pre && Ready(pre, [], c, NextId(pre), n, r)
  {
    NumbersInTurn(pre);
    assert pre + [] == pre;
    hide EncoderAfter, Emitted, GroupsOpened;
    assert DataPackets(NextId(pre), n, r, []) == [];
  }

  lemma {:induction false} OneMoreData(id: u16, n: byte, r: byte, ps: seq<Payload>, p: Payload)
    requires FitsGroup(ps, n, r) && FitsGroup(ps + [p], n, r)
    ensures DataPackets(id, n, r, ps) + [Wire(Header(id, |ps|, n, r), p)] == DataPackets(id, n, r, ps + [p])
  {
  }

  lemma {:induction false} ShieldedOne(w: Wire)
    ensures Shielded([w]) == if w.h.r != 0 then [w] else []
  {
    assert [w][..0] == [];
    assert Shielded([w][..0]) == [];
  }

  lemma {:induction false} PayloadsSnoc(calls: seq<Call>, c: Call)
    ensures Payloads(calls + [c]) == if Guarded(c) then Payloads(calls) + [c.payload] else Payloads(calls)
  {
    assert (calls + [c])[..|calls|] == calls;
  }

  /** A guarded call that leaves the group open leaves it ready for the next one. */
  lemma {:induction false} ReadyAfterData(pre: seq<Call>, init: seq<Call>, d: Call, c: Call, id: u16, n: byte, r: byte)
    requires CallsOk(pre) && CallsOk(pre + init) && CallOk(d) && c.Call? && Guarded(c) && CallsOk(pre + (init + [d]))
    requires Ready(pre, init, d, id, n, r) && |Payloads(init)| + 1 < n as int
    ensures Ready(pre, init + [d], c, id, n, r)
  {
    hide *;
    ReadyMeans(pre, init, d, id, n, r);
    var ps := Payloads(init);
    PayloadsSnoc(init, d);
    CallsSnoc(pre + init, d);
    assert pre + init + [d] == pre + (init + [d]);
    AddsPacket(EncoderAfter(pre + init), d, id, n, r, ps);
    PartlyFull(id, n, r, ps + [d.payload]);
    OpenedStays(Encoder(id, n, r, Frames(ps + [d.payload])), c);
    ShieldedAppend(Emitted(pre + init), [Wire(Header(id, |ps|, n, r), d.payload)]);
    ShieldedOne(Wire(Header(id, |ps|, n, r), d.payload));
    OneMoreData(id, n, r, ps, d.payload);
    assert Shielded(Emitted(pre)) + DataPackets(id, n, r, ps) + [Wire(Header(id, |ps|, n, r), d.payload)]
        == Shielded(Emitted(pre)) + (DataPackets(id, n, r, ps) + [Wire(Header(id, |ps|, n, r), d.payload)]);
    ReadyIf(pre, init + [d], c, id, n, r);
  }

  lemma {:induction false} PartlyFull(id: u16, n: byte, r: byte, ps: seq<Payload>)
    requires FitsGroup(ps, n, r) && 0 < |ps| < n as int
    ensures forall i :: 0 <= i < |ps| ==> |ps[i]| <= BLOCK - 2
    ensures EncoderOk(Encoder(id, n, r, Frames(ps))) && Frames(ps) != []
  {
  }

  lemma {:induction false} ReadyMeans(pre: seq<Call>, init: seq<Call>, c: Call, id: u16, n: byte, r: byte)
    requires CallsOk(pre) && CallsOk(pre + init) && Ready(pre, init, c, id, n, r)
    ensures Guarded(c) && c.Call? && r != 0 && FitsGroup(Payloads(init), n, r) && EncoderOk(EncoderAfter(pre + init))
    ensures forall i :: 0 <= i < |Payloads(init)| ==> |Payloads(init)[i]| <= BLOCK - 2
    ensures Opened(EncoderAfter(pre + init), c.fecN, c.fecR) == Encoder(id, n, r, Frames(Payloads(init)))
    ensures Shielded(Emitted(pre + init)) == Shielded(Emitted(pre)) + DataPackets(id, n, r, Payloads(init))
  {
    hide EncoderAfter, Emitted, Opened, Shielded, Payloads;
  }

  lemma {:induction false} ReadyIf(pre: seq<Call>, init: seq<Call>, c: Call, id: u16, n: byte, r: byte)
    requires CallsOk(pre) && CallsOk(pre + init) && Guarded(c) && c.Call? && FitsGroup(Payloads(init), n, r)
    requires EncoderOk(EncoderAfter(pre + init))
    requires forall i :: 0 <= i < |Payloads(init)| ==> |Payloads(init)[i]| <= BLOCK - 2
    requires Opened(EncoderAfter(pre + init), c.fecN, c.fecR) == Encoder(id, n, r, Frames(Payloads(init)))
    requires Shielded(Emitted(pre + init)) == Shielded(Emitted(pre)) + DataPackets(id, n, r, Payloads(init))
    ensures Ready(pre, init, c, id, n, r)
  {
    hide EncoderAfter, Emitted, Opened, Shielded, Payloads;
  }

  lemma {:induction false} OpenedStays(e: Encoder, c: Call)
    requires EncoderOk(e) && c.Call? && e.blocks != []
    ensures Opened(e, c.fecN, c.fecR) == e
  {
  }

  /** An unprotected call changes nothing for the group. */
  lemma {:induction false} ReadyAfterPlain(pre: seq<Call>, init: seq<Call>, d: Call, c: Call, id: u16, n: byte, r: byte)
    requires CallsOk(pre) && CallsOk(pre + init) && CallOk(d) && CallsOk(pre + (init + [d]))
    requires d.Call? && !Guarded(d) && Ready(pre, init, c, id, n, r)
    ensures Ready(pre, init + [d], c, id, n, r)
  {
    hide *;
    ReadyMeans(pre, init, c, id, n, r);
    PayloadsSnoc(init, d);
    CallsSnoc(pre + init, d);
    assert pre + init + [d] == pre + (init + [d]);
    PassesBy(EncoderAfter(pre + init), d);
    ShieldedAppend(Emitted(pre + init), Stepped(EncoderAfter(pre + init), d).ws);
    assert Shielded(Emitted(pre + init)) + [] == Shielded(Emitted(pre + init));
    ReadyIf(pre, init + [d], c, id, n, r);
  }

  lemma {:induction false} SplitStarts(pre: seq<Call>, init: seq<Call>, d: Call, c: Call, n: byte, r: byte)
    requires Starts(pre, init + [d] + [c], n, r) && Guarded(c)
    ensures CallsOk(pre) && CallsOk(pre + init) && CallOk(d) && d.Call? && c.Call? && CallOk(c)
    ensures CallsOk(pre + (init + [d]))
    ensures Guarded(d) ==> Starts(pre, init + [d], n, r)
    ensures !Guarded(d) ==> Starts(pre, init + [c], n, r)
  {
    var mid := init + [d] + [c];
    assert mid[|init|] == d && mid[|init| + 1] == c;
    assert forall i :: 0 <= i < |init| ==> mid[i] == init[i];
    hide CallOk, Idle;
  }

  /** Until it is full the group has sent its payloads and nothing else, whatever came in between unprotected. */
  lemma {:induction false} Fills(pre: seq<Call>, init: seq<Call>, c: Call, n: byte, r: byte)
    requires Starts(pre, init + [c], n, r) && Guarded(c) && |Payloads(init)| < n as int
    ensures CallsOk(pre + init) && Ready(pre, init, c, NextId(pre), n, r)
    decreases |init|
  {
    hide *;
    if init == [] {
      FirstOf(pre, c, n, r);
      OpensFirst(pre, c, n, r);
    } else {
      var less, d := init[..|init| - 1], init[|init| - 1];
      assert init == less + [d];
      SplitStarts(pre, less, d, c, n, r);
      PayloadsSnoc(less, d);
      if Guarded(d) {
        Fills(pre, less, d, n, r);
        ReadyAfterData(pre, less, d, c, NextId(pre), n, r);
      } else {
        Fills(pre, less, c, n, r);
        ReadyAfterPlain(pre, less, d, c, NextId(pre), n, r);
      }
    }
  }

  lemma {:induction false} FirstOf(pre: seq<Call>, c: Call, n: byte, r: byte)
    requires Starts(pre, [] + [c], n, r)
    ensures CallsOk(pre) && Idle(pre) && Sets(c, n, r) && CallsOk(pre + []) && pre + [] == pre
  {
    assert pre + [] == pre && [] + [c] == [c];
    hide Idle, Sets;
  }

  lemma {:induction false} StartsOk(pre: seq<Call>, mid: seq<Call>, n: byte, r: byte)
    requires Starts(pre, mid, n, r)
    ensures CallsOk(pre) && CallsOk(pre + mid) && CallsOk(mid) && mid != []
  {
    hide CallOk, Idle;
  }

  lemma {:induction false} ParitiesAre(id: u16, n: byte, r: byte, ps: seq<Payload>)
    requires FitsGroup(ps, n, r) && ps != []
    ensures forall i :: 0 <= i < |ps| ==> |ps[i]| <= BLOCK - 2
    ensures var e := Encoder(id, n, r, Frames(ps));
            Shielded(ParityPackets(e)) == ParityPackets(e)
            && DataPackets(id, n, r, ps) + ParityPackets(e) == GroupPackets(id, n, r, ps)
  {
    var e := Encoder(id, n, r, Frames(ps));
    hide Encoded, Frames;
    ShieldedAll(ParityPackets(e));
  }

  /**
   A group that gets its n-th payload has then sent exactly one packet for each payload and each
   parity index, and no group is open.
   */
  lemma {:induction false} FullGroupSent(pre: seq<Call>, mid: seq<Call>, n: byte, r: byte)
    requires Starts(pre, mid, n, r) && Guarded(mid[|mid| - 1]) && |Payloads(mid)| == n as int
    ensures CallsOk(pre + mid) && Idle(pre + mid) && FitsGroup(Payloads(mid), n, r) && Payloads(mid) != []
    ensures Shielded(Emitted(pre + mid))
         == Shielded(Emitted(pre)) + GroupPackets(NextId(pre), n, r, Payloads(mid))
  {
    hide *;
    StartsOk(pre, mid, n, r);
    var init, c := mid[..|mid| - 1], mid[|mid| - 1];
    var id := NextId(pre);
    assert mid == init + [c];
    PayloadsSnoc(init, c);
    Fills(pre, init, c, n, r);
    ReadyMeans(pre, init, c, id, n, r);
    var ps := Payloads(init);
    LastOk(pre, init, c);
    CallsSnoc(pre + init, c);
    assert pre + init + [c] == pre + mid;
    AddsPacket(EncoderAfter(pre + init), c, id, n, r, ps);
    var w := Wire(Header(id, |ps|, n, r), c.payload);
    var all := ps + [c.payload];
    ParitiesAre(id, n, r, all);
    var parities := ParityPackets(Encoder(id, n, r, Frames(all)));
    ShieldedAppend(Emitted(pre + init), [w] + parities);
    ShieldedAppend([w], parities);
    ShieldedOne(w);
    OneMoreData(id, n, r, ps, c.payload);
    Regroup(Shielded(Emitted(pre)), DataPackets(id, n, r, ps), [w], parities);
    IdleIf(pre + mid);
  }

  lemma {:induction false} Regroup<T>(a: seq<T>, b: seq<T>, c: seq<T>, d: seq<T>)
    ensures a + b + (c + d) == a + (b + c + d)
  {
  }

  lemma {:induction false} IdleIf(calls: seq<Call>)
    requires CallsOk(calls) && EncoderAfter(calls).blocks == []
    ensures Idle(calls)
  {
    hide EncoderAfter;
  }

  lemma {:induction false} LastOk(pre: seq<Call>, init: seq<Call>, c: Call)
    requires CallsOk(pre + (init + [c]))
    ensures CallOk(c)
  {
    assert (pre + (init + [c]))[|pre| + |init|] == c;
    hide CallOk;
  }

  lemma {:induction false} StartsAgain(pre: seq<Call>, mid: seq<Call>, n: byte, r: byte)
    requires Starts(pre, mid, n, r)
    ensures mid != [] && Guarded(mid[0]) && mid[0].Call? && Starts(pre, mid + [mid[0]], n, r)
  {
    hide CallOk, Idle;
  }

  lemma {:induction false} TimerSends(e: Encoder, c: Call, id: u16, n: byte, r: byte, ps: seq<Payload>)
    requires EncoderOk(e) && c.Call? && FitsGroup(ps, n, r) && ps != []
    requires forall i :: 0 <= i < |ps| ==> |ps[i]| <= BLOCK - 2
    requires Opened(e, c.fecN, c.fecR) == Encoder(id, n, r, Frames(ps))
    ensures CallOk(Expire) && Stepped(e, Expire).e.blocks == []
    ensures Stepped(e, Expire).ws == ParityPackets(Encoder(id, n, r, Frames(ps)))
  {
    assert e == Encoder(id, n, r, Frames(ps));
    hide Frames, ParityPackets;
  }

  /** A group that the timer closes has sent exactly one packet for each payload it got and each parity. */
  lemma {:induction false} ClosedGroupSent(pre: seq<Call>, mid: seq<Call>, n: byte, r: byte)
    requires Starts(pre, mid, n, r) && |Payloads(mid)| < n as int
    ensures CallsOk(pre + mid + [Expire]) && Idle(pre + mid + [Expire])
    ensures FitsGroup(Payloads(mid), n, r) && Payloads(mid) != []
    ensures Shielded(Emitted(pre + mid + [Expire]))
         == Shielded(Emitted(pre)) + GroupPackets(NextId(pre), n, r, Payloads(mid))
  {
    hide *;
    StartsOk(pre, mid, n, r);
    StartsAgain(pre, mid, n, r);
    SomePayload(pre, mid, n, r);
    var c, id, ps := mid[0], NextId(pre), Payloads(mid);
    Fills(pre, mid, c, n, r);
    ReadyMeans(pre, mid, c, id, n, r);
    TimerSends(EncoderAfter(pre + mid), c, id, n, r, ps);
    CallsSnoc(pre + mid, Expire);
    ParitiesAre(id, n, r, ps);
    var parities := ParityPackets(Encoder(id, n, r, Frames(ps)));
    ShieldedAppend(Emitted(pre + mid), parities);
    assert Shielded(Emitted(pre)) + DataPackets(id, n, r, ps) + parities
        == Shielded(Emitted(pre)) + (DataPackets(id, n, r, ps) + parities);
    IdleIf(pre + mid + [Expire]);
  }

  lemma {:induction false} SomePayload(pre: seq<Call>, mid: seq<Call>, n: byte, r: byte)
    requires Starts(pre, mid, n, r)
    ensures Payloads(mid) != []
  {
    assert Guarded(mid[0]) && mid != [];
    hide Idle, Guarded, CallOk;
    HasPayload(mid);
  }

  lemma {:induction false} HasPayload(calls: seq<Call>)
    requires calls != [] && Guarded(calls[0])
    ensures Payloads(calls) != []
    decreases |calls|
  {
    if |calls| > 1 {
      HasPayload(calls[..|calls| - 1]);
    }
  }

  // ---------------------------------------------------------------- each packet exactly once

  predicate IsCopy(w: Wire, id: u16, k: nat)
  {
    w.h.r != 0 && w.h.group == id && w.h.index as int == k
  }

  /** How often packet k of the group was sent. */
  function Copies(ws: seq<Wire>, id: u16, k: nat): nat
  {
    if ws == [] then 0
    else Copies(ws[..|ws| - 1], id, k) + (if IsCopy(ws[|ws| - 1], id, k) then 1 else 0)
  }

  lemma {:induction false} CopiesAppend(a: seq<Wire>, b: seq<Wire>, id: u16, k: nat)
    ensures Copies(a + b, id, k) == Copies(a, id, k) + Copies(b, id, k)
    decreases |b|
  {
    hide IsCopy;
    if b == [] {
      assert a + b == a;
    } else {
      CopiesAppend(a, b[..|b| - 1], id, k);
      assert (a + b)[..|a + b| - 1] == a + b[..|b| - 1];
    }
  }

  lemma {:induction false} CopiesShielded(ws: seq<Wire>, id: u16, k: nat)
    ensures Copies(Shielded(ws), id, k) == Copies(ws, id, k)
    decreases |ws|
  {
    if ws != [] {
      var init, last := ws[..|ws| - 1], ws[|ws| - 1];
      CopiesShielded(init, id, k);
      if last.h.r != 0 {
        assert (Shielded(init) + [last])[..|Shielded(init)|] == Shielded(init);
      }
    }
  }

  lemma {:induction false} NoCopies(ws: seq<Wire>, id: u16, k: nat)
    requires forall i :: 0 <= i < |ws| ==> !IsCopy(ws[i], id, k)
    ensures Copies(ws, id, k) == 0
    decreases |ws|
  {
    hide IsCopy;
    if ws != [] {
      NoCopies(ws[..|ws| - 1], id, k);
    }
  }

  /** Packets whose position is their index. */
  lemma {:induction false} OneCopyUpto(ws: seq<Wire>, id: u16, m: nat, k: nat)
    requires m <= |ws| && forall i :: 0 <= i < |ws| ==> IsCopy(ws[i], id, i)
    ensures Copies(ws[..m], id, k) == if k < m then 1 else 0
    decreases m
  {
    if m == 0 {
      assert ws[..m] == [];
    } else {
      OneCopyUpto(ws, id, m - 1, k);
      assert ws[..m][..m - 1] == ws[..m - 1] && ws[..m][m - 1] == ws[m - 1];
    }
  }

  lemma {:induction false} GroupCopies(id: u16, n: byte, r: byte, ps: seq<Payload>, k: nat)
    requires FitsGroup(ps, n, r) && ps != []
    ensures Copies(GroupPackets(id, n, r, ps), id, k) == if k < |ps| + r as nat then 1 else 0
  {
    var ws := GroupPackets(id, n, r, ps);
    hide Encoded, Frames, Framable;
    assert forall i :: 0 <= i < |ws| ==> ws[i] == PacketOf(id, n, r, ps, i);
    assert ws[..|ws|] == ws;
    OneCopyUpto(ws, id, |ws|, k);
  }

  // ---------------------------------------------------------------- the numbers of other groups

  predicate NumberedIn(w: Wire, lo: nat, hi: nat)
  {
    w.h.r != 0 ==> exists j :: lo < j <= hi && w.h.group as int == j % 0x1_0000
  }

  predicate AllNumbered(ws: seq<Wire>, lo: nat, hi: nat)
  {
    forall i :: 0 <= i < |ws| ==> NumberedIn(ws[i], lo, hi)
  }

  lemma {:induction false} NumberedMore(ws: seq<Wire>, more: seq<Wire>, lo: nat, hi: nat, hi': nat)
    requires AllNumbered(ws, lo, hi) && AllNumbered(more, lo, hi') && hi <= hi'
    ensures AllNumbered(ws + more, lo, hi')
  {
    forall i | 0 <= i < |ws + more|
      ensures NumberedIn((ws + more)[i], lo, hi')
    {
      if i < |ws| {
        assert NumberedIn(ws[i], lo, hi);
      } else {
        assert NumberedIn(more[i - |ws|], lo, hi');
      }
    }
  }

  /** What one call sends bears the number of the group then open. */
  lemma {:induction false} StepNumbers(e: Encoder, c: Call, lo: nat, started: nat)
    requires EncoderOk(e) && CallOk(c) && e.group as int == started % 0x1_0000 && lo <= started
    requires e.blocks != [] ==> lo < started
    ensures var out, started' := Stepped(e, c), started + (if Opens(e, c) then 1 else 0);
            AllNumbered(out.ws, lo, started') && (out.e.blocks != [] ==> lo < started')
  {
    var out, started' := Stepped(e, c), started + (if Opens(e, c) then 1 else 0);
    hide Framed, Encoded;
    forall i | 0 <= i < |out.ws|
      ensures NumberedIn(out.ws[i], lo, started')
    {
      if out.ws[i].h.r != 0 {
        assert lo < started' <= started' && out.ws[i].h.group as int == started' % 0x1_0000;
      }
    }
  }

  /** What is sent after no group was open bears new numbers. */
  lemma {:induction false} NumbersFrom(pre: seq<Call>, more: seq<Call>) returns (tail: seq<Wire>)
    requires CallsOk(pre) && CallsOk(pre + more) && Idle(pre)
    ensures Emitted(pre + more) == Emitted(pre) + tail
    ensures AllNumbered(tail, GroupsOpened(pre), GroupsOpened(pre + more))
    ensures GroupsOpened(pre) <= GroupsOpened(pre + more)
    ensures EncoderAfter(pre + more).blocks != [] ==> GroupsOpened(pre) < GroupsOpened(pre + more)
    decreases |more|
  {
    hide *;
    if more == [] {
      NothingMore(pre);
      assert pre + more == pre;
      tail := [];
    } else {
      var init, c := more[..|more| - 1], more[|more| - 1];
      assert pre + more == pre + init + [c] && more == init + [c];
      SplitOk(pre, init, c);
      var less := NumbersFrom(pre, init);
      CallsSnoc(pre + init, c);
      NumbersInTurn(pre + init);
      StepNumbers(EncoderAfter(pre + init), c, GroupsOpened(pre), GroupsOpened(pre + init));
      var out := Stepped(EncoderAfter(pre + init), c);
      NumberedMore(less, out.ws, GroupsOpened(pre), GroupsOpened(pre + init), GroupsOpened(pre + more));
      tail := less + out.ws;
      assert Emitted(pre) + less + out.ws == Emitted(pre) + tail;
    }
  }

  lemma {:induction false} SplitOk(pre: seq<Call>, init: seq<Call>, c: Call)
    requires CallsOk(pre + (init + [c]))
    ensures CallsOk(pre + init) && CallOk(c) && CallsOk(pre + init + [c])
  {
    hide CallOk;
    assert pre + (init + [c]) == pre + init + [c];
    LastOk(pre, init, c);
    assert forall i :: 0 <= i < |pre + init| ==> (pre + init)[i] == (pre + (init + [c]))[i];
  }

  lemma {:induction false} NothingMore(pre: seq<Call>)
    requires CallsOk(pre) && Idle(pre)
    ensures pre + [] == pre && Emitted(pre) == Emitted(pre) + []
    ensures AllNumbered([], GroupsOpened(pre), GroupsOpened(pre)) && EncoderAfter(pre).blocks == []
  {
    hide Emitted, EncoderAfter, GroupsOpened;
  }

  lemma {:induction false} OpensOne(pre: seq<Call>, mid: seq<Call>, n: byte, r: byte)
    requires Starts(pre, mid, n, r)
    ensures CallsOk(pre + mid) && GroupsOpened(pre) < GroupsOpened(pre + mid)
    decreases |mid|
  {
    hide *;
    StartsOk(pre, mid, n, r);
    var init, c := mid[..|mid| - 1], mid[|mid| - 1];
    assert pre + mid == pre + init + [c] && mid == init + [c];
    SplitOk(pre, init, c);
    CallsSnoc(pre + init, c);
    if init == [] {
      assert pre + init == pre;
      OpensHere(pre, mid, n, r);
    } else {
      ShorterStarts(pre, init, c, n, r);
      OpensOne(pre, init, n, r);
    }
  }

  lemma {:induction false} OpensHere(pre: seq<Call>, mid: seq<Call>, n: byte, r: byte)
    requires Starts(pre, mid, n, r)
    ensures Opens(EncoderAfter(pre), mid[0])
  {
    hide EncoderAfter, CallOk;
  }

  lemma {:induction false} ShorterStarts(pre: seq<Call>, init: seq<Call>, c: Call, n: byte, r: byte)
    requires Starts(pre, init + [c], n, r) && init != []
    ensures Starts(pre, init, n, r)
  {
    assert forall i :: 0 <= i < |init| ==> (init + [c])[i] == init[i];
    hide Idle, CallOk, Sets;
  }

  /** body makes one whole group of the payloads ps: the last of n of them, or the timer after fewer, ends it. */
  ghost predicate MakesGroup(pre: seq<Call>, body: seq<Call>, n: byte, r: byte, ps: seq<Payload>)
  {
    body != [] && ps == Payloads(body)
    && if body[|body| - 1].Expire? then Starts(pre, body[..|body| - 1], n, r) && |ps| < n as int
       else Starts(pre, body, n, r) && Guarded(body[|body| - 1]) && |ps| == n as int
  }

  lemma {:induction false} GroupSent(pre: seq<Call>, body: seq<Call>, n: byte, r: byte, ps: seq<Payload>)
    requires MakesGroup(pre, body, n, r, ps)
    ensures CallsOk(pre) && CallsOk(pre + body) && Idle(pre + body) && FitsGroup(ps, n, r) && ps != []
    ensures Shielded(Emitted(pre + body)) == Shielded(Emitted(pre)) + GroupPackets(NextId(pre), n, r, ps)
    ensures GroupsOpened(pre) < GroupsOpened(pre + body)
  {
    var mid := body[..|body| - 1];
    if body[|body| - 1].Expire? {
      assert body == mid + [Expire];
      assert pre + mid + [Expire] == pre + body;
      hide *;
      PayloadsSnoc(mid, Expire);
      NotGuarded();
      StartsOk(pre, mid, n, r);
      ClosedGroupSent(pre, mid, n, r);
      OpensOne(pre, mid, n, r);
      ExpireOkay();
      CallsSnoc(pre + mid, Expire);
    } else {
      hide *;
      StartsOk(pre, body, n, r);
      FullGroupSent(pre, body, n, r);
      OpensOne(pre, body, n, r);
    }
  }

  lemma {:induction false} NotGuarded()
    ensures !Guarded(Expire)
  {
  }

  lemma {:induction false} ExpireOkay()
    ensures CallOk(Expire)
  {
  }

  lemma {:induction false} OtherNumbers(ws: seq<Wire>, lo: nat, hi: nat, g: nat, id: u16, k: nat)
    requires AllNumbered(ws, lo, hi) && hi <= 0x1_0000 && 1 <= g <= 0x1_0000 && id as int == g % 0x1_0000
    requires g <= lo || hi < g
    ensures Copies(ws, id, k) == 0
  {
    hide Copies;
    forall i | 0 <= i < |ws|
      ensures !IsCopy(ws[i], id, k)
    {
      assert NumberedIn(ws[i], lo, hi);
    }
    NoCopies(ws, id, k);
  }

  lemma {:induction false} ShieldedMember(ws: seq<Wire>, w: Wire)
    requires w in Shielded(ws)
    ensures w in ws
    decreases |ws|
  {
    if ws != [] {
      assert ws == ws[..|ws| - 1] + [ws[|ws| - 1]];
      if w != ws[|ws| - 1] || ws[|ws| - 1].h.r == 0 {
        ShieldedMember(ws[..|ws| - 1], w);
      }
    }
  }

  lemma {:induction false} PacketListed(id: u16, n: byte, r: byte, ps: seq<Payload>, k: nat)
    requires FitsGroup(ps, n, r) && ps != [] && k < |ps| + r as nat
    ensures PacketOf(id, n, r, ps, k) in GroupPackets(id, n, r, ps)
  {
    assert GroupPackets(id, n, r, ps)[k] == PacketOf(id, n, r, ps, k);
    hide PacketOf;
  }

  lemma {:induction false} StartIdle(calls: seq<Call>)
    ensures CallsOk([]) && Idle([]) && [] + calls == calls && GroupsOpened([]) == 0 && Emitted([]) == []
  {
  }

  lemma {:induction false} IdOfNext(pre: seq<Call>)
    requires CallsOk(pre)
    ensures NextId(pre) as int == (GroupsOpened(pre) + 1) % 0x1_0000
  {
    hide GroupsOpened;
  }

  /**
   In any run that does not use a group number twice, each index of a group made by the calls was sent
   exactly once, with the payload or the block encoded from all payloads, and no index beyond.
   */
  lemma {:induction false} EachPacketOnce(pre: seq<Call>, body: seq<Call>, post: seq<Call>, n: byte, r: byte,
                                          ps: seq<Payload>, k: nat)
    requires CallsOk(pre + body + post) && GroupsOpened(pre + body + post) <= 0x1_0000
    requires MakesGroup(pre, body, n, r, ps)
    ensures CallsOk(pre) && FitsGroup(ps, n, r) && ps != []
    ensures Copies(Emitted(pre + body + post), NextId(pre), k) == if k < |ps| + r as nat then 1 else 0
    ensures k < |ps| + r as nat ==> PacketOf(NextId(pre), n, r, ps, k) in Emitted(pre + body + post)
  {
    hide *;
    var calls := pre + body + post;
    GroupSent(pre, body, n, r, ps);
    StartIdle(pre);
    IdOfNext(pre);
    var id, g := NextId(pre), GroupsOpened(pre) + 1;
    var before := NumbersFrom([], pre);
    assert Emitted([]) + before == before;
    var tail := NumbersFrom(pre + body, post);
    OtherNumbers(before, 0, GroupsOpened(pre), g, id, k);
    OtherNumbers(tail, GroupsOpened(pre + body), GroupsOpened(calls), g, id, k);
    CopiesAppend(Emitted(pre + body), tail, id, k);
    CopiesShielded(Emitted(pre + body), id, k);
    CopiesShielded(Emitted(pre), id, k);
    CopiesAppend(Shielded(Emitted(pre)), GroupPackets(id, n, r, ps), id, k);
    GroupCopies(id, n, r, ps, k);
    if k < |ps| + r as nat {
      PacketListed(id, n, r, ps, k);
      var w := PacketOf(id, n, r, ps, k);
      assert w in Shielded(Emitted(pre + body));
      ShieldedMember(Emitted(pre + body), w);
      assert w in Emitted(pre + body) + tail;
    }
  }

  // ---------------------------------------------------------------- both ends

  lemma {:induction false} SentGenuine(log: Log, ws: seq<Wire>, w: Wire)
    requires LogOk(log) && AllSentAuthentic(log, ws) && w in ws
    ensures Authentic(log, w)
  {
    hide Authentic;
  }

  /** The genuine packets of a group tell everything about it. */
  lemma {:induction false} GroupKnown(log: Log, ws: seq<Wire>, id: u16, n: byte, r: byte, ps: seq<Payload>)
    requires LogOk(log) && AllSentAuthentic(log, ws) && FitsGroup(ps, n, r) && ps != []
    requires forall k: nat :: k < |ps| + r as nat ==> PacketOf(id, n, r, ps, k) in ws
    ensures id in log.groups && log.groups[id] == Group(n as nat, |ps|, r as nat, ps)
  {
    GenuinePart(log, ws, id, n, r, ps, |ps|);
    var g := log.groups[id];
    assert GroupOk(g);
    assert g.size == |ps| && g.r == r as nat by {
      SizeKnown(log, ws, id, n, r, ps);
    }
    forall k | 0 <= k < |ps|
      ensures k < |g.payloads| && g.payloads[k] == ps[k] && g.n == n as nat
    {
      GenuinePart(log, ws, id, n, r, ps, k);
      hide Encoded, Frames;
    }
    assert g.payloads == ps;
  }

  lemma {:induction false} GenuinePart(log: Log, ws: seq<Wire>, id: u16, n: byte, r: byte, ps: seq<Payload>, k: nat)
    requires LogOk(log) && AllSentAuthentic(log, ws) && FitsGroup(ps, n, r) && ps != [] && k < |ps| + r as nat
    requires PacketOf(id, n, r, ps, k) in ws
    ensures id in log.groups && GroupOk(log.groups[id]) && IsPacket(log.groups[id], PacketOf(id, n, r, ps, k))
  {
    SentGenuine(log, ws, PacketOf(id, n, r, ps, k));
    hide Encoded, Frames, AllSentAuthentic, IsPacket, GroupOk;
  }

  lemma {:induction false} SizeKnown(log: Log, ws: seq<Wire>, id: u16, n: byte, r: byte, ps: seq<Payload>)
    requires LogOk(log) && AllSentAuthentic(log, ws) && FitsGroup(ps, n, r) && ps != []
    requires PacketOf(id, n, r, ps, 0) in ws && PacketOf(id, n, r, ps, |ps|) in ws
    ensures id in log.groups && log.groups[id].size == |ps| && log.groups[id].r == r as nat
  {
    GenuinePart(log, ws, id, n, r, ps, 0);
    GenuinePart(log, ws, id, n, r, ps, |ps|);
    hide Encoded, Frames, IsBlock, AllSentAuthentic;
  }

  /** The group the calls make is the one the receiver's theorems speak of. */
  lemma {:induction false} GroupInLog(pre: seq<Call>, body: seq<Call>, post: seq<Call>, n: byte, r: byte,
                                      ps: seq<Payload>)
    requires CallsOk(pre + body + post) && GroupsOpened(pre + body + post) <= NUMBERS
    requires MakesGroup(pre, body, n, r, ps)
    ensures CallsOk(pre)
    ensures var s := SendAll(pre + body + post);
            && LogOk(s.log) && AllSentAuthentic(s.log, s.ws) && s.ws == Emitted(pre + body + post)
            && NextId(pre) in s.log.groups && s.log.groups[NextId(pre)] == Group(n as nat, |ps|, r as nat, ps)
  {
    var calls := pre + body + post;
    var s := SendAll(calls);
    GroupSent(pre, body, n, r, ps);
    assert LogOk(s.log) && AllSentAuthentic(s.log, s.ws) && s.ws == Emitted(calls);
    assert GroupsOpened(calls) <= 0x1_0000;
    hide *;
    forall k: nat | k < |ps| + r as nat
      ensures PacketOf(NextId(pre), n, r, ps, k) in s.ws
    {
      EachPacketOnce(pre, body, post, n, r, ps, k);
    }
    GroupKnown(s.log, s.ws, NextId(pre), n, r, ps);
  }

  /** Every payload of the group has come out at the far end, under its number and index. */
  predicate AllUp(ups: seq<Up>, id: u16, ps: seq<Payload>)
  {
    forall i :: 0 <= i < |ps| ==> Of(id, i, ps[i]) in ups
  }

  lemma {:induction false} ServedIsUp(id: u16, n: nat, r: nat, ps: seq<Payload>, ups: seq<Up>)
    requires AllServed(Group(n, |ps|, r, ps), id, ups)
    ensures AllUp(ups, id, ps)
  {
    forall i | 0 <= i < |ps|
      ensures Of(id, i, ps[i]) in ups
    {
      assert Served(Group(n, |ps|, r, ps), id, i, ups);
    }
  }

  /**
   Both ends: of a group that got its n payloads, any n different packets that reach a receiver while
   the group holds its slot make all n payloads come out, whatever else the network does.
   */
  lemma {:induction false} FullGroupDelivered(pre: seq<Call>, body: seq<Call>, post: seq<Call>, n: byte, r: byte,
                                              ps: seq<Payload>, arrivals: seq<Arrival>, from: nat, xs: set<nat>)
    requires CallsOk(pre + body + post) && GroupsOpened(pre + body + post) <= NUMBERS && Timely(pre + body + post)
    requires MakesGroup(pre, body, n, r, ps) && |ps| == n as int && CallsOk(pre)
    requires Network(Emitted(pre + body + post), arrivals) && Sized(arrivals)
    requires from < |arrivals| && HeldSince(arrivals, from, NextId(pre)) && n as int <= |xs|
    requires forall x :: x in xs ==> exists k :: from <= k < |arrivals| && IsArrival(arrivals[k], NextId(pre), x)
    ensures AllUp(After(arrivals).ups, NextId(pre), ps)
  {
    hide *;
    var calls := pre + body + post;
    var s := SendAll(calls);
    GroupInLog(pre, body, post, n, r, ps);
    SentSoundly(calls);
    NetworkAuthentic(s.log, s.ws, arrivals);
    GroupComplete(s.log, arrivals, from, NextId(pre), xs);
    ServedIsUp(NextId(pre), n as nat, r as nat, ps, After(arrivals).ups);
  }

  /** The same of a group the timer closed, when the last of as many packets as it has payloads is a new parity. */
  lemma {:induction false} ClosedGroupDelivered(pre: seq<Call>, body: seq<Call>, post: seq<Call>, n: byte, r: byte,
                                                ps: seq<Payload>, arrivals: seq<Arrival>, from: nat, last: nat,
                                                x: nat, xs: set<nat>)
    requires CallsOk(pre + body + post) && GroupsOpened(pre + body + post) <= NUMBERS && Timely(pre + body + post)
    requires MakesGroup(pre, body, n, r, ps) && CallsOk(pre)
    requires Network(Emitted(pre + body + post), arrivals) && Sized(arrivals)
    requires from <= last < |arrivals| && HeldSince(arrivals, from, NextId(pre)) && |ps| <= x && |ps| <= |xs|
    requires IsArrival(arrivals[last], NextId(pre), x)
    requires forall j :: 0 <= j < last ==> !IsArrival(arrivals[j], NextId(pre), x)
    requires forall y :: y in xs ==> exists j :: from <= j <= last && IsArrival(arrivals[j], NextId(pre), y)
    ensures AllUp(After(arrivals).ups, NextId(pre), ps)
  {
    hide *;
    var calls := pre + body + post;
    var s := SendAll(calls);
    GroupInLog(pre, body, post, n, r, ps);
    SentSoundly(calls);
    NetworkAuthentic(s.log, s.ws, arrivals);
    ShortGroupComplete(s.log, arrivals, from, NextId(pre), last, x, xs);
    ServedIsUp(NextId(pre), n as nat, r as nat, ps, After(arrivals).ups);
  }

  lemma {:induction false} GenuineHeard(log: Log, a: Arrival, id: u16, x: nat)
    requires LogOk(log) && Authentic(log, a.w) && IsArrival(a, id, x)
    ensures FecEviction.HeardOf(a, id) && a.w.h.index as int < a.w.h.n as int + a.w.h.r as int
  {
    hide Encoded, Frames;
    assert GroupOk(log.groups[id]);
  }

  lemma {:induction false} ArrivalGenuine(log: Log, arrivals: seq<Arrival>, k: nat)
    requires LogOk(log) && AllAuthentic(log, arrivals) && k < |arrivals|
    ensures Authentic(log, arrivals[k].w)
  {
    hide Authentic;
  }

  lemma {:induction false} HeldThroughout(arrivals: seq<Arrival>, from: nat, id: u16)
    requires Sized(arrivals) && from < |arrivals| && FecEviction.NeverCrowded(arrivals, from, id)
    requires FecEviction.HeardOf(arrivals[from], id)
    requires arrivals[from].w.h.index as int < arrivals[from].w.h.n as int + arrivals[from].w.h.r as int
    requires forall k :: 0 <= k < |arrivals| ==> arrivals[k].now < NEVER
    ensures HeldSince(arrivals, from, id)
  {
    hide Held, After, FecEviction.HeardOf, FecEviction.NeverCrowded;
    forall m | from < m <= |arrivals|
      ensures Held(After(arrivals[..m]).slots, id)
    {
      FecEviction.HeldUnlessCrowded(arrivals, from, id, m);
    }
  }

  /**
   Both ends, in terms of the network alone: of a group that got its n payloads, any n different
   packets make all n payloads come out, unless between the first of them and the last a packet of
   another group arrives while two further groups have been heard of no earlier than this one.
   */
  lemma {:induction false} DeliveredUnlessCrowded(pre: seq<Call>, body: seq<Call>, post: seq<Call>, n: byte, r: byte,
                                                  ps: seq<Payload>, arrivals: seq<Arrival>, from: nat, xs: set<nat>)
    requires CallsOk(pre + body + post) && GroupsOpened(pre + body + post) <= NUMBERS && Timely(pre + body + post)
    requires MakesGroup(pre, body, n, r, ps) && |ps| == n as int && CallsOk(pre)
    requires Network(Emitted(pre + body + post), arrivals) && Sized(arrivals)
    requires forall k :: 0 <= k < |arrivals| ==> arrivals[k].now < NEVER
    requires from < |arrivals| && FecEviction.NeverCrowded(arrivals, from, NextId(pre)) && n as int <= |xs|
    requires exists x :: IsArrival(arrivals[from], NextId(pre), x)
    requires forall x :: x in xs ==> exists k :: from <= k < |arrivals| && IsArrival(arrivals[k], NextId(pre), x)
    ensures AllUp(After(arrivals).ups, NextId(pre), ps)
  {
    hide *;
    var calls, id := pre + body + post, NextId(pre);
    var s := SendAll(calls);
    GroupInLog(pre, body, post, n, r, ps);
    NetworkAuthentic(s.log, s.ws, arrivals);
    ArrivalGenuine(s.log, arrivals, from);
    var x :| IsArrival(arrivals[from], id, x);
    GenuineHeard(s.log, arrivals[from], id, x);
    HeldThroughout(arrivals, from, id);
    FullGroupDelivered(pre, body, post, n, r, ps, arrivals, from, xs);
  }
}
