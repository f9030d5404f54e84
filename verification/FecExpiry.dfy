/**
 Groups the 10 ms timer closes early.  Their parities are computed over size packets and say so in
 their headers, while their data packets still say n.  A data packet that brings the slot to n
 packets then starts recovery with the wrong size.  This file proves exactly when that can happen;
 FecCorruption proves what it does.
 */
module FecExpiry {
  import opened Bytes
  import opened Counting
  import opened Gf256
  import opened ErasureCode
  import opened FecGroups
  import opened FecDelivery
  import opened FecRuns
  import opened FecSending

  // ---------------------------------------------------------------- recovery with the wrong size

  /** Taking w starts recovery with a size that is not the group's while something is missing. */
  ghost predicate Misreads(s: Slot, w: Wire, size: nat)
  {
    && w.h.index !in s.indices && !s.decoded && |s.indices| + 1 >= w.h.n && w.h.n != size
    && exists i: nat :: i < w.h.n && i !in s.indices + [w.h.index]
  }

  /** The last arrival does that to the slot it goes to. */
  ghost predicate MisreadAt(log: Log, arrivals: seq<Arrival>)
    requires Sized(arrivals)
  {
    arrivals != [] &&
    var a := arrivals[|arrivals| - 1];
    var (at, s) := Located(After(arrivals[..|arrivals| - 1]).slots, a.w.h.group, a.now);
    a.w.h.r != 0 && a.w.h.group in log.groups && at >= 0 && Misreads(s, a.w, log.groups[a.w.h.group].size)
  }

  predicate AllNeverEarly(log: Log)
  {
    forall id :: id in log.groups ==> NeverEarly(log.groups[id].n, log.groups[id].size, log.groups[id].r)
  }

  lemma {:induction false} NeverEarlySound(log: Log)
    requires AllNeverEarly(log)
    ensures LogSound(log)
  {
  }

  lemma {:induction false} RightTake(g: Group, s: Slot, w: Wire)
    requires GroupOk(g) && NeverEarly(g.n, g.size, g.r) && SlotTrue(g, s) && IsPacket(g, w) && WireOk(w)
    ensures !Misreads(s, w, g.size)
  {
    assert Protected(w.h);
    hide SlotTrue, IsPacket, NeverEarly, Stored;
    if w.h.index !in s.indices && !s.decoded && |s.indices| + 1 >= w.h.n {
      RightSize(g, s, w);
      assert StoredIn(s, w).indices == s.indices + [w.h.index];
    }
  }

  lemma {:induction false} RightStep(log: Log, t: Tracker, w: Wire, now: nat)
    requires LogOk(log) && AllNeverEarly(log) && Consistent(log, t) && Authentic(log, w) && w.h.r != 0
    ensures w.h.group in log.groups && !Misreads(Located(t.slots, w.h.group, now).1, w, log.groups[w.h.group].size)
  {
    AuthenticSized(log, w);
    LocatedKept(log, t, w.h.group, now);
    hide Located, SlotTrue, IsPacket, Misreads, Consistent, WireOk, SlotServed;
    RightTake(log.groups[w.h.group], Located(t.slots, w.h.group, now).1, w);
  }

  lemma {:induction false} MisreadMeans(log: Log, arrivals: seq<Arrival>)
    requires Sized(arrivals) && MisreadAt(log, arrivals)
    ensures arrivals != []
    ensures var t, a := After(arrivals[..|arrivals| - 1]), arrivals[|arrivals| - 1];
            && a.w.h.r != 0 && a.w.h.group in log.groups
            && Misreads(Located(t.slots, a.w.h.group, a.now).1, a.w, log.groups[a.w.h.group].size)
  {
    hide Misreads, Located, After;
  }

  /** It never happens while no group's data packets can be early. */
  lemma {:induction false} NeverMisread(log: Log, arrivals: seq<Arrival>)
    requires LogOk(log) && AllNeverEarly(log) && AllAuthentic(log, arrivals) && Sized(arrivals)
    ensures !MisreadAt(log, arrivals)
  {
    NeverEarlySound(log);
    hide *;
    if MisreadAt(log, arrivals) {
      MisreadMeans(log, arrivals);
      RunSnoc(log, arrivals);
      var a := arrivals[|arrivals| - 1];
      RightStep(log, After(arrivals[..|arrivals| - 1]), a.w, a.now);
    }
  }

  // ---------------------------------------------------------------- an order in which it happens

  /** A closed group of which more than n packets exist, n of them with a gap in the data. */
  predicate Early(g: Group)
  {
    GroupOk(g) && |g.payloads| == g.size && g.size < g.n < g.size + g.r && g.n < 2 * g.size
  }

  /** The block the order below leaves out: the last data block or the first parity. */
  predicate Gap(g: Group, z: nat)
  {
    Early(g) && (z == g.size - 1 || z == g.size) && g.n - z < g.size
  }

  /** First the parities from z + 1 to n, too few to start anything, then the data below z. */
  function NumberAt(g: Group, z: nat, k: nat): (i: nat)
    requires Gap(g, z) && k < g.n
    ensures i <= g.n && i != z
  {
    if k < g.n - z then z + 1 + k else k - (g.n - z)
  }

  ghost function PacketOf(g: Group, id: u16, i: nat): (w: Wire)
    requires GroupOk(g) && |g.payloads| == g.size && i < g.size + g.r
    ensures IsPacket(g, w) && w.h.group == id && w.h.index == i && w.h.r == g.r
    ensures w.h.n == if i < g.size then g.n else g.size
  {
    if i < g.size then Wire(Header(id, i, g.n, g.r), g.payloads[i])
    else Wire(Header(id, i, g.size, g.r), Encoded(Frames(g.payloads), g.size, BLOCK, i))
  }

  ghost function BadOrder(g: Group, id: u16, z: nat, m: nat): (arrivals: seq<Arrival>)
    requires Gap(g, z) && m <= g.n
    ensures |arrivals| == m
  {
    seq(m, k requires 0 <= k < m => Arrival(PacketOf(g, id, NumberAt(g, z, k)), 0))
  }

  function OnlyGroup(g: Group, id: u16): Log
  {
    Log(map[id := g], {})
  }

  lemma {:induction false} BadOrderGenuine(g: Group, id: u16, z: nat, m: nat)
    requires Gap(g, z) && m <= g.n
    ensures LogOk(OnlyGroup(g, id)) && Sized(BadOrder(g, id, z, m))
    ensures AllAuthentic(OnlyGroup(g, id), BadOrder(g, id, z, m))
  {
    var log, arrivals := OnlyGroup(g, id), BadOrder(g, id, z, m);
    hide IsPacket, PacketOf, WireOk, Framable;
    forall k | 0 <= k < m
      ensures Authentic(log, arrivals[k].w) && WireOk(arrivals[k].w)
    {
      assert arrivals[k].w == PacketOf(g, id, NumberAt(g, z, k));
      AuthenticSized(log, arrivals[k].w);
    }
  }

  /** Only the first slot is used, by the group. */
  predicate InFirst(slots: seq<Slot>, id: u16)
  {
    && SlotsOk(slots) && slots[1] == Fresh(0) && slots[2] == Fresh(0) && !slots[0].decoded
    && (slots[0].indices == [] || slots[0].group == id)
  }

  lemma {:induction false} FirstLocated(slots: seq<Slot>, id: u16)
    requires InFirst(slots, id)
    ensures var (at, s) := Located(slots, id, 0);
            && at == 0 && s.group == id && !s.decoded && SlotOk(s)
            && s.indices == slots[0].indices && s.blocks == slots[0].blocks
  {
    assert FindSlot(slots, id, 3) == -1;
    assert FindSlot(slots, id, 2) == -1;
    assert FindSlot(slots, id, 1) == -1;
    LocatedOk(slots, id, 0);
    if slots[0].indices == [] {
      assert PickSlot(slots, 0, -1, NEVER) == 0;
    }
  }

  /** A packet that is stored and starts nothing. */
  lemma {:induction false} FirstStores(slots: seq<Slot>, w: Wire)
    requires InFirst(slots, w.h.group) && WireOk(w)
    requires Protected(w.h) && w.h.index < w.h.n + w.h.r && w.h.index !in slots[0].indices
    requires |slots[0].indices| + 1 < w.h.n
    ensures var out := FecGroups.Receive(slots, w, 0).slots;
            && InFirst(out, w.h.group) && out[0].indices == slots[0].indices + [w.h.index]
            && out[0].blocks == slots[0].blocks + [Stored(w.h, w.body)]
            && FecGroups.Receive(slots, w, 0).ups == Direct(w.h, w.body)
  {
    FirstLocated(slots, w.h.group);
    ReceiveKeepsOk(slots, w, 0);
    var s := Located(slots, w.h.group, 0).1;
    TakeStores(s, w);
    hide Take, Located, SlotOk, Stored;
  }

  lemma {:induction false} TakeStores(s: Slot, w: Wire)
    requires SlotOk(s) && WireOk(w) && Protected(w.h) && w.h.index < w.h.n + w.h.r && w.h.index !in s.indices
    requires !s.decoded && |s.indices| + 1 < w.h.n
    ensures var s' := Take(s, w).0;
            && s'.group == s.group && s'.indices == s.indices + [w.h.index] && !s'.decoded
            && s'.blocks == s.blocks + [Stored(w.h, w.body)] && Take(s, w).1 == Direct(w.h, w.body)
  {
    hide Stored, Direct, Recovered;
  }

  /** The first slot holds the first m packets of the bad order. */
  ghost predicate HoldsFirst(g: Group, id: u16, z: nat, m: nat, slots: seq<Slot>)
    requires Gap(g, z) && m <= g.n
  {
    && InFirst(slots, id) && |slots[0].indices| == m && BlocksTrue(g, slots[0])
    && forall k :: 0 <= k < m ==> slots[0].indices[k] == NumberAt(g, z, k)
  }

  lemma {:induction false} HoldsNext(g: Group, id: u16, z: nat, m: nat, slots: seq<Slot>)
    requires Gap(g, z) && m + 1 < g.n && HoldsFirst(g, id, z, m, slots)
    ensures var w := PacketOf(g, id, NumberAt(g, z, m));
            WireOk(w) && HoldsFirst(g, id, z, m + 1, FecGroups.Receive(slots, w, 0).slots)
  {
    var w := PacketOf(g, id, NumberAt(g, z, m));
    PacketShape(g, w);
    PacketSized(g, w);
    hide InFirst, IsPacket, WireOk, PacketOf, FecGroups.Receive, Framable, BlocksTrue, Stored;
    FirstStores(slots, w);
    StoreKeepsTrue(g, slots[0], w);
    SameParts(g, StoredIn(slots[0], w), FecGroups.Receive(slots, w, 0).slots[0]);
  }

  lemma {:induction false} SameParts(g: Group, s: Slot, s': Slot)
    requires GroupOk(g) && BlocksTrue(g, s) && s'.indices == s.indices && s'.blocks == s.blocks
    ensures BlocksTrue(g, s')
  {
    hide IsBlock;
  }

  lemma {:induction false} PacketSized(g: Group, w: Wire)
    requires GroupOk(g) && IsPacket(g, w)
    ensures WireOk(w)
  {
    hide Encoded;
  }

  /** The state after m packets of the bad order. */
  lemma {:induction false} BadRun(g: Group, id: u16, z: nat, m: nat)
    requires Gap(g, z) && m < g.n
    ensures Sized(BadOrder(g, id, z, m)) && HoldsFirst(g, id, z, m, After(BadOrder(g, id, z, m)).slots)
    decreases m
  {
    hide *;
    BadOrderGenuine(g, id, z, m);
    if m == 0 {
      NothingHeld(g, id, z);
    } else {
      BadRun(g, id, z, m - 1);
      BadOrderSnoc(g, id, z, m);
      AfterSnoc(BadOrder(g, id, z, m));
      HoldsNext(g, id, z, m - 1, After(BadOrder(g, id, z, m - 1)).slots);
    }
  }

  lemma {:induction false} NothingHeld(g: Group, id: u16, z: nat)
    requires Gap(g, z)
    ensures HoldsFirst(g, id, z, 0, After(BadOrder(g, id, z, 0)).slots)
  {
    assert BadOrder(g, id, z, 0) == [];
    assert After([]) == Empty();
  }

  lemma {:induction false} BadOrderSnoc(g: Group, id: u16, z: nat, m: nat)
    requires Gap(g, z) && 0 < m <= g.n
    ensures var order := BadOrder(g, id, z, m);
            |order| == m && order[..m - 1] == BadOrder(g, id, z, m - 1)
            && order[m - 1] == Arrival(PacketOf(g, id, NumberAt(g, z, m - 1)), 0)
  {
    hide PacketOf, NumberAt;
  }

  /** The last data packet of the bad order starts recovery with n, and number z is missing. */
  lemma {:induction false} LastMisreads(g: Group, id: u16, z: nat, slots: seq<Slot>)
    requires Gap(g, z) && HoldsFirst(g, id, z, g.n - 1, slots)
    ensures NumberAt(g, z, g.n - 1) == z - 1
    ensures var (at, s) := Located(slots, id, 0);
            at == 0 && Misreads(s, PacketOf(g, id, z - 1), g.size)
  {
    FirstLocated(slots, id);
    var s := Located(slots, id, 0).1;
    hide Located, InFirst, IsPacket, SlotOk;
    assert z !in s.indices + [z - 1];
  }

  lemma {:induction false} BadOrderMisreads(g: Group, id: u16, z: nat)
    requires Gap(g, z)
    ensures Sized(BadOrder(g, id, z, g.n)) && MisreadAt(OnlyGroup(g, id), BadOrder(g, id, z, g.n))
  {
    hide *;
    GapSizes(g, z);
    BadOrderGenuine(g, id, z, g.n);
    BadRun(g, id, z, g.n - 1);
    BadOrderSnoc(g, id, z, g.n);
    LastMisreads(g, id, z, After(BadOrder(g, id, z, g.n - 1)).slots);
    LastIsMisread(g, id, z, BadOrder(g, id, z, g.n));
  }

  lemma {:induction false} GapSizes(g: Group, z: nat)
    requires Gap(g, z)
    ensures GroupOk(g) && |g.payloads| == g.size && 0 < z <= g.size < g.n <= MAX_N && g.n < g.size + g.r
  {
  }

  lemma {:induction false} LastIsMisread(g: Group, id: u16, z: nat, arrivals: seq<Arrival>)
    requires Gap(g, z) && arrivals != [] && Sized(arrivals)
    requires arrivals[|arrivals| - 1] == Arrival(PacketOf(g, id, z - 1), 0)
    requires var (at, s) := Located(After(arrivals[..|arrivals| - 1]).slots, id, 0);
             at == 0 && Misreads(s, PacketOf(g, id, z - 1), g.size)
    ensures MisreadAt(OnlyGroup(g, id), arrivals)
  {
    hide Located, After, Misreads, IsPacket, WireOk;
  }

  /**
   For every group the sender has closed: some genuine arrivals make recovery run with the wrong
   size exactly when its data packets can be early.
   */
  lemma {:induction false} MisreadExactly(g: Group, id: u16)
    requires GroupOk(g) && |g.payloads| == g.size
    ensures (exists arrivals :: Sized(arrivals) && LogOk(OnlyGroup(g, id))
                                && AllAuthentic(OnlyGroup(g, id), arrivals) && MisreadAt(OnlyGroup(g, id), arrivals))
       <==> !NeverEarly(g.n, g.size, g.r)
  {
    var log := OnlyGroup(g, id);
    assert LogOk(log);
    if NeverEarly(g.n, g.size, g.r) {
      assert AllNeverEarly(log);
      hide MisreadAt, Authentic, WireOk;
      forall arrivals | Sized(arrivals) && AllAuthentic(log, arrivals)
        ensures !MisreadAt(log, arrivals)
      {
        NeverMisread(log, arrivals);
      }
    } else {
      var z := g.size;
      BadOrderGenuine(g, id, z, g.n);
      BadOrderMisreads(g, id, z);
      hide MisreadAt, Authentic, WireOk, BadOrder;
      assert Sized(BadOrder(g, id, z, g.n)) && AllAuthentic(log, BadOrder(g, id, z, g.n))
          && MisreadAt(log, BadOrder(g, id, z, g.n));
    }
  }

  // ---------------------------------------------------------------- settings that are always sound

  /** With one parity per group, as a tunnel starts, every size is sound. */
  lemma {:induction false} OneParityIsSound(n: nat, size: nat)
    requires size <= n
    ensures SoundSize(n, size, 1)
  {
  }

  lemma {:induction false} OneParityEncoder(calls: seq<Call>)
    requires CallsOk(calls) && forall i :: 0 <= i < |calls| && calls[i].Call? ==> calls[i].fecR <= 1
    ensures EncoderAfter(calls).blocks != [] ==> EncoderAfter(calls).r == 1
    decreases |calls|
  {
    if calls != [] {
      OneParityEncoder(calls[..|calls| - 1]);
      hide Framed, ParityPackets;
    }
  }

  /** So while no call asks for more than one parity the timer may close groups at any time. */
  lemma {:induction false} OneParityIsTimely(calls: seq<Call>)
    requires CallsOk(calls) && forall i :: 0 <= i < |calls| && calls[i].Call? ==> calls[i].fecR <= 1
    ensures Timely(calls)
    decreases |calls|
  {
    if calls != [] {
      OneParityIsTimely(calls[..|calls| - 1]);
      OneParityEncoder(calls[..|calls| - 1]);
      hide Timely, EncoderAfter;
      OneParityCloses(EncoderAfter(calls[..|calls| - 1]), calls[|calls| - 1]);
    }
  }

  lemma {:induction false} OneParityCloses(e: Encoder, c: Call)
    requires EncoderOk(e) && (e.blocks != [] ==> e.r == 1)
    ensures ClosesSoundly(e, c)
  {
    if Closes(e, c) {
      OneParityIsSound(e.n, |e.blocks|);
    }
  }
}
