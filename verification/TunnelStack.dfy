/**
 A connected tunnel as one stack: the datagrams of the control block go through the group encoder
 onto the wire, and what the group tracker hands up goes into the control block.  The wire loses,
 repeats and reorders packets of both kinds.
 */
module TunnelStack {
  import opened Bytes
  import opened KcpSpec
  import opened KcpMessages
  import opened KcpWorld
  import opened KcpTunnel
  import opened KcpOctets
  import opened FecGroups
  import opened FecRuns
  import opened FecSending
  import opened FecTunnel
  import FecComplete
  import opened GfTables
  import KcpBlock
  import KcpRefine

  // ---------------------------------------------------------------- several events at one side

  ghost function StepAll(w: World, evs: seq<Event>): (w': World)
    requires Configured(w)
    ensures Configured(w')
  {
    if evs == [] then w
    else
      var v := StepAll(w, evs[..|evs| - 1]);
      StepAConfigured(true, v, evs[|evs| - 1]);
      StepA(true, v, evs[|evs| - 1])
  }

  lemma {:induction false} StepAllSnoc(w: World, evs: seq<Event>, e: Event)
    requires Configured(w)
    ensures StepAll(w, evs + [e]) == StepA(true, StepAll(w, evs), e)
  {
    assert (evs + [e])[..|evs|] == evs;
    hide StepA;
  }

  lemma {:induction false} NoSteps(w: World)
    requires Configured(w)
    ensures StepAll(w, []) == w
  {
  }

  function Tagged(atA: bool, evs: seq<Event>): (acts: seq<Action>)
    ensures |acts| == |evs|
  {
    seq(|evs|, i requires 0 <= i < |evs| => Action(atA, evs[i]))
  }

  lemma {:induction false} RunTagged(w: World, acts: seq<Action>, atA: bool, evs: seq<Event>)
    requires Configured(w)
    ensures var v := Run(true, w, acts);
            Run(true, w, acts + Tagged(atA, evs)) == if atA then StepAll(v, evs) else Mirror(StepAll(Mirror(v), evs))
    decreases |evs|
  {
    hide StepA;
    if evs == [] {
      assert acts + Tagged(atA, []) == acts;
    } else {
      var init, last := evs[..|evs| - 1], evs[|evs| - 1];
      RunTagged(w, acts, atA, init);
      var before := acts + Tagged(atA, init);
      assert acts + Tagged(atA, evs) == before + [Action(atA, last)];
      assert (before + [Action(atA, last)])[..|before|] == before;
    }
  }

  // ---------------------------------------------------------------- what the wire carries

  lemma {:induction false} ParitySized(e: Encoder)
    requires 0 < |e.blocks| <= MAX_N && e.r <= MAX_R && Blocks(e.blocks)
    ensures forall w :: w in ParityPackets(e) ==> WireOk(w)
  {
    forall w | w in ParityPackets(e)
      ensures WireOk(w)
    {
      var i :| 0 <= i < |ParityPackets(e)| && ParityPackets(e)[i] == w;
      var size := |e.blocks|;
      var body := ErasureCode.Encoded(e.blocks, size, BLOCK, size + i);
      assert w == Wire(Header(e.group, size + i, size, e.r), body);
    }
  }

  lemma {:induction false} OutputSized(e: Encoder, c: Call)
    requires EncoderOk(e) && CallOk(c)
    ensures forall w :: w in Stepped(e, c).ws ==> WireOk(w)
  {
    hide ParityPackets, Framed;
    if c.Expire? {
      if Closes(e, c) {
        ParitySized(e);
      }
    } else if c.fecR != 0 {
      var o := Opened(e, c.fecN, c.fecR);
      var full := o.(blocks := o.blocks + [Framed(c.payload)]);
      if |full.blocks| >= full.n {
        ParitySized(full);
      }
    }
  }

  lemma {:induction false} EmittedSized(calls: seq<Call>)
    requires CallsOk(calls)
    ensures forall w :: w in Emitted(calls) ==> WireOk(w)
    decreases |calls|
  {
    if calls != [] {
      var init, last := calls[..|calls| - 1], calls[|calls| - 1];
      hide Stepped, WireOk;
      EmittedSized(init);
      OutputSized(EncoderAfter(init), last);
    }
  }

  lemma {:induction false} PayloadsSnoc(calls: seq<Call>, c: Call)
    ensures Payloads(calls + [c]) == Payloads(calls) + (if c.Call? then [c.payload] else [])
  {
    assert (calls + [c])[..|calls|] == calls;
  }

  lemma {:induction false} ExpireSnoc(calls: seq<Call>)
    requires CallsOk(calls)
    ensures CallsOk(calls + [Call.Expire])
    ensures EncoderAfter(calls + [Call.Expire]) == FecGroups.Expired(EncoderAfter(calls)).e
    ensures Emitted(calls + [Call.Expire]) == Emitted(calls) + FecGroups.Expired(EncoderAfter(calls)).ws
    ensures Payloads(calls + [Call.Expire]) == Payloads(calls)
  {
    hide EncoderAfter, Emitted, Payloads, FecGroups.Expired;
    CallsSnoc(calls, Call.Expire);
    PayloadsSnoc(calls, Call.Expire);
  }

  lemma {:induction false} InitOk(calls: seq<Call>)
    requires CallsOk(calls) && calls != []
    ensures CallsOk(calls[..|calls| - 1]) && CallOk(calls[|calls| - 1])
    ensures calls[..|calls| - 1] + [calls[|calls| - 1]] == calls
  {
    hide CallOk;
  }

  /** No group number is used twice, and the timer closes no group at an unsound size. */
  ghost predicate Recoverable(calls: seq<Call>)
  {
    CallsOk(calls) && GroupsOpened(calls) <= NUMBERS && Timely(calls)
  }

  /** The payloads of the calls, without the turns of the timer. */
  function Payloads(calls: seq<Call>): seq<Payload>
  {
    if calls == [] then []
    else
      var last := calls[|calls| - 1];
      Payloads(calls[..|calls| - 1]) + (if last.Call? then [last.payload] else [])
  }

  lemma {:induction false} CalledIsPayload(calls: seq<Call>, p: Payload)
    requires Called(calls, p)
    ensures p in Payloads(calls)
    decreases |calls|
  {
    var k :| 0 <= k < |calls| && calls[k].Call? && calls[k].payload == p;
    if k < |calls| - 1 {
      assert calls[..|calls| - 1][k] == calls[k];
      CalledIsPayload(calls[..|calls| - 1], p);
    }
  }

  /** From number k on, every call sends a payload, without protection. */
  predicate Bare(calls: seq<Call>, k: nat)
  {
    forall i :: k <= i < |calls| ==> calls[i].Call? && calls[i].fecR == 0
  }

  /** The header of a packet sent without protection. */
  const BARE := Header(0, 0, 1, 0)

  /** Only datagrams of the far side are handed up. */
  lemma {:induction false} UpIsDatagram(datagrams: seq<seq<byte>>, calls: seq<Call>, arrivals: seq<Arrival>, i: nat)
    requires Recoverable(calls) && Payloads(calls) <= datagrams
    requires forall k :: 0 <= k < |arrivals| ==> arrivals[k].w in Emitted(calls)
    requires Sized(arrivals) && i < |After(arrivals).ups|
    ensures exists j :: 0 <= j < |datagrams| && datagrams[j] == After(arrivals).ups[i].payload
  {
    hide After, Emitted, CallsOk;
    EndToEnd(calls, arrivals);
    var p := After(arrivals).ups[i].payload;
    CalledIsPayload(calls, p);
    var j :| 0 <= j < |Payloads(calls)| && Payloads(calls)[j] == p;
    assert datagrams[j] == p;
  }

  lemma {:induction false} BareIsPlain(slots: seq<Slot>, w: Wire, now: nat)
    requires SlotsOk(slots) && WireOk(w) && w.h == BARE
    ensures FecGroups.Receive(slots, w, now).ups == [Plain(w.body)]
  {
  }

  /** The control block after ikcp_input of every payload handed up, in order. */
  ghost function Accepted(k: Kcb, ups: seq<Up>): (k': Kcb)
    requires ValidConfig(k.cfg)
    ensures k'.cfg == k.cfg
  {
    if ups == [] then k
    else
      var init := Accepted(k, ups[..|ups| - 1]);
      KcpBlock.InputDataConfig(init, ups[|ups| - 1].payload);
      KcpBlock.InputData(init, ups[|ups| - 1].payload).0
  }

  lemma {:induction false} AcceptedNext(k: Kcb, ups: seq<Up>, from: nat, i: nat)
    requires ValidConfig(k.cfg) && from <= i < |ups|
    ensures ValidConfig(Accepted(k, ups[from..i]).cfg)
    ensures Accepted(k, ups[from..i + 1]) == KcpBlock.InputData(Accepted(k, ups[from..i]), ups[i].payload).0
  {
    hide KcpBlock.InputData;
    assert ups[from..i + 1][..i - from] == ups[from..i] && ups[from..i + 1][i - from] == ups[i];
  }

  lemma {:induction false} AcceptedNone(k: Kcb, ups: seq<Up>, from: nat)
    requires ValidConfig(k.cfg) && from <= |ups|
    ensures Accepted(k, ups[from..from]) == k && ups[from..|ups|] == ups[from..]
  {
  }

  lemma {:induction false} AcceptedOne(k: Kcb, up: Up)
    requires ValidConfig(k.cfg)
    ensures Accepted(k, [up]) == KcpBlock.InputData(k, up.payload).0
  {
    assert [up][..0] == [];
    hide KcpBlock.InputData;
  }

  /** Of the events only an arrival reaches the tracker, and all it hands up then goes into the block. */
  ghost predicate Feeds(e: StackEvent, wire: seq<Wire>, v: World, v': World, was: seq<Arrival>, arrivals: seq<Arrival>)
    requires Configured(v) && Sized(was) && Sized(arrivals)
  {
    if e.Arrive? && e.index < |wire| then
      && arrivals == was + [Arrival(wire[e.index], e.now)]
      && After(was).ups <= After(arrivals).ups
      && v' == v.(a := Accepted(v.a, After(arrivals).ups[|After(was).ups|..]))
    else arrivals == was
  }

  // ---------------------------------------------------------------- one side

  /** The other side as a value: its station, the octets of its datagrams and its calls of the output callback. */
  datatype Remote = Remote(station: Station, datagrams: seq<seq<byte>>, calls: seq<Call>)

  ghost predicate Genuine(far: Remote)
  {
    && Carried(far.datagrams, far.station.net, far.station.k.cfg)
    && CallsOk(far.calls) && Payloads(far.calls) <= far.datagrams
  }

  class Side {
    const app: Endpoint
    const enc: GroupSender
    const dec: GroupReceiver
    // the calls of the output callback and the packets that have arrived
    ghost var calls: seq<Call>
    ghost var arrivals: seq<Arrival>

    /** The callback has been called for the first datagrams, once each. */
    ghost predicate Sending(datagrams: seq<seq<byte>>)
      reads `calls, enc, enc.t.exp, enc.t.log
    {
      && enc.Valid() && CallsOk(calls) && Payloads(calls) <= datagrams
      && enc.Enc() == EncoderAfter(calls) && enc.wire == Emitted(calls)
    }

    ghost predicate Receiving()
      reads `arrivals, dec, dec.t.exp, dec.t.log
    {
      dec.Valid() && Sized(arrivals) && dec.slots == After(arrivals).slots && dec.ups == After(arrivals).ups
    }

    ghost predicate Valid()
      reads this, app, app.block, app.block.out, enc, enc.t.exp, enc.t.log, dec, dec.t.exp, dec.t.log
    {
      && app.block.out.data !in {enc.t.exp, enc.t.log, dec.t.exp, dec.t.log}
      && app.Valid() && app.block.cfg.mtu <= MTU
      && Payloads(calls) == app.block.sent && Sending(app.block.sent) && Receiving()
    }

    ghost function Self(): Remote
      reads this, app, app.block
    {
      Remote(app.Self(), app.block.sent, calls)
    }

    /** Everything that arrived was sent by the far side. */
    ghost predicate Hears(far: seq<Call>)
      requires CallsOk(far)
      reads this
    {
      forall k :: 0 <= k < |arrivals| ==> arrivals[k].w in Emitted(far)
    }

    constructor (a: Endpoint, t: Tables)
      requires t.Ready() && a.Valid() && a.block.sent == [] && a.block.out.data !in {t.exp, t.log}
      requires a.block.cfg.mtu <= MTU
      ensures Valid() && app == a && enc.t == t && dec.t == t && fresh(enc) && fresh(dec) && calls == []
              && arrivals == []
    {
      app := a;
      enc := new GroupSender(t);
      dec := new GroupReceiver(t);
      calls, arrivals := [], [];
    }

    method SendMessage(msg: Msg, ghost far: Station)
      requires Valid() && Configured(app.View(far))
      modifies app, app.block
      ensures Valid() && app.View(far) == StepA(true, old(app.View(far)), Event.SendMessage(msg))
    {
      hide StepA, Sending, Receiving, Endpoint.Valid;
      app.SendMessage(msg, far);
    }

    method Receive(len: int, ghost far: Station)
      requires Valid() && Configured(app.View(far))
      modifies app, app.block
      ensures Valid() && app.View(far) == StepA(true, old(app.View(far)), Event.Receive(len))
    {
      hide StepA, Sending, Receiving, Endpoint.Valid;
      app.Receive(len, far);
    }

    /** Hand the datagrams the block has just emitted to the group encoder. */
    method Protect(from: nat, fecN: byte, fecR: byte)
      requires from == |Payloads(calls)| && app.Valid() && app.block.cfg.mtu <= MTU && Sending(app.block.sent)
      modifies this`calls, enc
      ensures Sending(app.block.sent) && Payloads(calls) == app.block.sent && old(calls) <= calls
      ensures fecR == 0 ==> Bare(calls, |old(calls)|)
    {
      hide EncoderAfter, Emitted, Payloads, KcpBlock.Kcp.Valid, Carried, GroupSender.Valid;
      var i := from;
      while i < |app.block.sent|
        invariant i == |Payloads(calls)| <= |app.block.sent| && Sending(app.block.sent) && old(calls) <= calls
        invariant fecR == 0 ==> Bare(calls, |old(calls)|)
      {
        var payload := app.block.sent[i];
        CarriedSizes(app.block.sent, app.net, app.block.cfg, i);
        CallsSnoc(calls, Call(fecN, fecR, payload));
        PayloadsSnoc(calls, Call(fecN, fecR, payload));
        enc.Output(fecN, fecR, payload);
        calls := calls + [Call(fecN, fecR, payload)];
        i := i + 1;
      }
    }

    method Tick(now: nat, fecN: byte, fecR: byte, ghost far: Station)
      requires Valid() && Configured(app.View(far))
      modifies this`calls, enc, app, app.block, app.block.out, app.block.out.data
      ensures Valid() && old(calls) <= calls && app.View(far) == StepA(true, old(app.View(far)), Event.Tick(now))
      ensures fecR == 0 ==> Bare(calls, |old(calls)|)
    {
      hide Bare, StepA, EncoderAfter, Emitted, Receiving, Endpoint.Valid;
      var before := |app.block.sent|;
      app.Tick(now, far);
      Protect(before, fecN, fecR);
    }

    method Flush(fecN: byte, fecR: byte, ghost far: Station)
      requires Valid() && Configured(app.View(far))
      modifies this`calls, enc, app, app.block, app.block.out, app.block.out.data
      ensures Valid() && old(calls) <= calls && app.View(far) == StepA(true, old(app.View(far)), Event.FlushNow)
      ensures fecR == 0 ==> Bare(calls, |old(calls)|)
    {
      hide Bare, StepA, EncoderAfter, Emitted, Receiving, Endpoint.Valid;
      var before := |app.block.sent|;
      app.Flush(far);
      Protect(before, fecN, fecR);
    }

    /** The timer closes the open group, if there is one. */
    method CloseGroup()
      requires Sending(app.block.sent)
      modifies this`calls, enc
      ensures Sending(app.block.sent) && old(calls) <= calls && Payloads(calls) == old(Payloads(calls))
    {
      hide EncoderAfter, Emitted, Payloads, GroupSender.Valid, FecGroups.Expired, CallsOk, CallOk, EncoderOk;
      ExpireSnoc(calls);
      enc.Expire();
      calls := calls + [Call.Expire];
    }

    /** A packet goes to the group tracker. */
    method Track(w: Wire, now: nat, wall: nat)
      requires Receiving() && WireOk(w)
      modifies this`arrivals, dec
      ensures Receiving() && arrivals == old(arrivals) + [Arrival(w, now)] && old(dec.ups) <= dec.ups
      ensures w.h == BARE ==> dec.ups == old(dec.ups) + [Plain(w.body)]
    {
      if w.h == BARE {
        BareIsPlain(dec.slots, w, now);
      }
      AfterOneMore(arrivals, Arrival(w, now));
      hide GroupReceiver.Valid, FecGroups.Receive, Tally, After, Sized, WireOk, SlotsOk;
      dec.Receive(w, now, wall);
      arrivals := arrivals + [Arrival(w, now)];
    }

    /** One payload handed up goes to the block; one that is a datagram of the far side delivers it. */
    method Pass(payload: Payload, ghost far: Remote, ghost evs: seq<Event>, ghost w: World)
      returns (ghost evs': seq<Event>)
      requires app.Valid() && Configured(app.View(far.station)) && Genuine(far) && Configured(w)
      modifies app.block
      ensures app.Valid() && Configured(app.View(far.station))
      ensures app.block.sent == old(app.block.sent) && app.block.cfg == old(app.block.cfg)
      ensures old(app.View(far.station)) == StepAll(w, evs) && payload in far.datagrams ==>
                app.View(far.station) == StepAll(w, evs')
      ensures app.View(far.station)
           == old(app.View(far.station)).(a := KcpBlock.InputData(old(app.block.Abs()), payload).0)
    {
      hide StepA, Carried, KcpBlock.InputData, KcpBlock.Kcp.Valid, KcpBlock.Kcp.OutOk;
      evs' := evs;
      if payload in far.datagrams {
        ghost var j :| 0 <= j < |far.datagrams| && far.datagrams[j] == payload;
        OctetsDelivered(app.View(far.station), far.datagrams, j);
        StepAllSnoc(w, evs, Event.Deliver(j));
        evs' := evs + [Event.Deliver(j)];
      }
      app.Accept(payload, far.station);
    }

    /** What the tracker has handed up since position from goes to the block, in order. */
    method PassAll(from: nat, ghost far: Remote) returns (ghost evs: seq<Event>)
      requires app.Valid() && Configured(app.View(far.station)) && Genuine(far) && from <= |dec.ups|
      modifies app.block
      ensures app.Valid() && Configured(app.View(far.station))
      ensures app.block.sent == old(app.block.sent) && app.block.cfg == old(app.block.cfg)
      ensures (forall i :: from <= i < |dec.ups| ==> dec.ups[i].payload in far.datagrams) ==>
                app.View(far.station) == StepAll(old(app.View(far.station)), evs)
      ensures app.View(far.station)
           == old(app.View(far.station)).(a := Accepted(old(app.View(far.station)).a, dec.ups[from..]))
    {
      hide StepA, Carried, Endpoint.Valid, StepAll, KcpBlock.InputData, Accepted;
      ghost var w := app.View(far.station);
      AcceptedNone(w.a, dec.ups, from);
      ghost var genuine := forall i :: from <= i < |dec.ups| ==> dec.ups[i].payload in far.datagrams;
      evs := [];
      assert w == StepAll(w, []) by {
        NoSteps(w);
      }
      for i := from to |dec.ups|
        invariant app.Valid() && Configured(app.View(far.station))
        invariant app.block.sent == old(app.block.sent) && app.block.cfg == old(app.block.cfg)
        invariant genuine ==> app.View(far.station) == StepAll(w, evs)
        invariant app.View(far.station) == w.(a := Accepted(w.a, dec.ups[from..i]))
      {
        AcceptedNext(w.a, dec.ups, from, i);
        evs := Pass(dec.ups[i].payload, far, evs, w);
      }
    }

    /** A packet arrives from the wire of the far side. */
    method Arrive(w: Wire, now: nat, wall: nat, ghost far: Remote) returns (ghost evs: seq<Event>)
      requires Valid() && Configured(app.View(far.station)) && Genuine(far) && Hears(far.calls)
               && w in Emitted(far.calls)
      modifies this`arrivals, dec, app.block
      ensures Valid() && Hears(far.calls) && Configured(app.View(far.station))
      ensures Recoverable(far.calls) ==> app.View(far.station) == StepAll(old(app.View(far.station)), evs)
      ensures calls == old(calls) && arrivals == old(arrivals) + [Arrival(w, now)] && old(dec.ups) <= dec.ups
      ensures app.View(far.station)
           == old(app.View(far.station)).(a := Accepted(old(app.View(far.station)).a, dec.ups[|old(dec.ups)|..]))
      ensures w.h == BARE ==>
                app.View(far.station)
                == old(app.View(far.station)).(a := KcpBlock.InputData(old(app.View(far.station)).a, w.body).0)
    {
      hide StepA, Emitted, EncoderAfter, After, Carried, Endpoint.Valid, StepAll, CallsOk, Payloads, WireOk, Accepted,
           KcpBlock.InputData;
      EmittedSized(far.calls);
      AcceptedOne(app.View(far.station).a, Plain(w.body));
      var before := |dec.ups|;
      Track(w, now, wall);
      if Recoverable(far.calls) {
        forall i | 0 <= i < |dec.ups|
          ensures dec.ups[i].payload in far.datagrams
        {
          UpIsDatagram(far.datagrams, far.calls, arrivals, i);
        }
      }
      evs := PassAll(before, far);
    }

    method CloseOnly()
      requires Valid()
      modifies this`calls, enc
      ensures Valid() && old(calls) <= calls
    {
      hide Sending, Receiving, Endpoint.Valid;
      CloseGroup();
    }

    /** Packet i of the wire arrives, if there is one. */
    method TakeFrom(wire: seq<Wire>, i: nat, now: nat, wall: nat, ghost far: Remote) returns (ghost evs: seq<Event>)
      requires Valid() && Configured(app.View(far.station)) && Genuine(far) && Hears(far.calls)
               && wire == Emitted(far.calls)
      modifies this`arrivals, dec, app.block
      ensures Valid() && Hears(far.calls) && calls == old(calls) && Configured(app.View(far.station))
      ensures Recoverable(far.calls) ==> app.View(far.station) == StepAll(old(app.View(far.station)), evs)
      ensures Sized(old(arrivals)) && Sized(arrivals)
      ensures var e := StackEvent.Arrive(i, now, wall);
              && Does(e, wire, old(app.View(far.station)), app.View(far.station))
              && Feeds(e, wire, old(app.View(far.station)), app.View(far.station), old(arrivals), arrivals)
    {
      ValidArrivals(this);
      hide *;
      ghost var w, was := app.View(far.station), arrivals;
      evs := [];
      NoSteps(w);
      if i < |wire| {
        evs := Arrive(wire[i], now, wall, far);
        ValidArrivals(this);
        FeedsArrival(wire, i, now, wall, w, app.View(far.station), was, arrivals);
        DoesArrival(wire, i, now, wall, w, app.View(far.station));
      } else {
        FeedsNothing(StackEvent.Arrive(i, now, wall), wire, w, w, arrivals);
        DoesArrival(wire, i, now, wall, w, w);
      }
    }

    /** An event of the block: a call of the application or of the clock. */
    method DoOwn(e: StackEvent, ghost wire: seq<Wire>, ghost far: Remote) returns (ghost evs: seq<Event>)
      requires Valid() && Configured(app.View(far.station)) && !e.Arrive? && !e.Expire? && Sized(arrivals)
      modifies this`calls, enc, app, app.block, app.block.out, app.block.out.data
      ensures Valid() && old(calls) <= calls && Configured(app.View(far.station))
      ensures app.View(far.station) == StepAll(old(app.View(far.station)), evs)
      ensures Does(e, wire, old(app.View(far.station)), app.View(far.station))
      ensures Feeds(e, wire, old(app.View(far.station)), app.View(far.station), arrivals, arrivals)
      ensures Unprotected(e) ==> Bare(calls, |old(calls)|)
    {
      hide *;
      SameIsBare(calls);
      ProtectedBy(e);
      ghost var w := app.View(far.station);
      match e {
        case SendMessage(msg) =>
          SendMessage(msg, far.station);
          evs := OwnStep(e, Event.SendMessage(msg), wire, w, app.View(far.station), arrivals);
        case Tick(now, fecN, fecR) =>
          Tick(now, fecN, fecR, far.station);
          evs := OwnStep(e, Event.Tick(now), wire, w, app.View(far.station), arrivals);
        case FlushNow(fecN, fecR) =>
          Flush(fecN, fecR, far.station);
          evs := OwnStep(e, Event.FlushNow, wire, w, app.View(far.station), arrivals);
        case Receive(len) =>
          Receive(len, far.station);
          evs := OwnStep(e, Event.Receive(len), wire, w, app.View(far.station), arrivals);
      }
    }

    method Do(e: StackEvent, wire: seq<Wire>, ghost far: Remote) returns (ghost evs: seq<Event>)
      requires Valid() && Configured(app.View(far.station)) && Genuine(far) && Hears(far.calls)
               && wire == Emitted(far.calls)
      modifies this`calls, this`arrivals, enc, dec, app, app.block, app.block.out, app.block.out.data
      ensures Valid() && Hears(far.calls) && old(calls) <= calls && Configured(app.View(far.station))
      ensures Recoverable(far.calls) ==> app.View(far.station) == StepAll(old(app.View(far.station)), evs)
      ensures Does(e, wire, old(app.View(far.station)), app.View(far.station))
      ensures Feeds(e, wire, old(app.View(far.station)), app.View(far.station), old(arrivals), arrivals)
      ensures Unprotected(e) ==> Bare(calls, |old(calls)|)
    {
      hide *;
      ghost var w := app.View(far.station);
      ValidArrivals(this);
      GenuineCalls(far);
      HearsMeans(this, far.calls);
      match e {
        case Arrive(i, now, wall) =>
          SameIsBare(calls);
          evs := TakeFrom(wire, i, now, wall, far);
        case Expire =>
          CloseOnly();
          HearsMeans(this, far.calls);
          evs := [];
          NoSteps(w);
          ClosesOnly(wire, w, app.View(far.station), arrivals);
          ProtectedBy(e);
        case _ =>
          evs := DoOwn(e, wire, far);
          HearsMeans(this, far.calls);
      }
    }
  }

  // ---------------------------------------------------------------- both sides

  /** Any packet put on the wire so far may arrive, any number of times. */
  datatype StackEvent =
    | SendMessage(msg: Msg)
    | Tick(now: nat, fecN: byte, fecR: byte)
    | FlushNow(fecN: byte, fecR: byte)
    | Expire
    | Arrive(index: nat, now: nat, wall: nat)
    | Receive(len: int)

  datatype StackAction = StackAction(atA: bool, event: StackEvent)

  /** The event puts nothing on the wire that is part of a group. */
  predicate Unprotected(e: StackEvent)
  {
    match e
    case Tick(_, _, fecR) => fecR == 0
    case FlushNow(_, fecR) => fecR == 0
    case Expire => false
    case _ => true
  }

  /** What an event does to the control block by itself; of arrivals, those sent without protection. */
  ghost predicate Does(e: StackEvent, wire: seq<Wire>, v: World, v': World)
    requires Configured(v)
  {
    match e
    case SendMessage(msg) => v' == StepA(true, v, Event.SendMessage(msg))
    case Tick(now, _, _) => v' == StepA(true, v, Event.Tick(now))
    case FlushNow(_, _) => v' == StepA(true, v, Event.FlushNow)
    case Receive(len) => v' == StepA(true, v, Event.Receive(len))
    case Expire => true
    case Arrive(i, _, _) =>
      if i >= |wire| then v' == v
      else wire[i].h == BARE ==> v' == v.(a := KcpBlock.InputData(v.a, wire[i].body).0)
  }

  lemma {:induction false} SameIsBare(calls: seq<Call>)
    ensures Bare(calls, |calls|)
  {
  }

  lemma {:induction false} OneStep(w: World, e: Event)
    requires Configured(w)
    ensures StepAll(w, [e]) == StepA(true, w, e) && Configured(StepA(true, w, e))
  {
    NoSteps(w);
    StepAConfigured(true, w, e);
    StepAllSnoc(w, [], e);
    assert [] + [e] == [e];
    hide StepA, StepAll;
  }

  lemma {:induction false} EmittedMore(calls: seq<Call>, more: seq<Call>)
    requires CallsOk(calls) && CallsOk(more) && calls <= more
    ensures forall w :: w in Emitted(calls) ==> w in Emitted(more)
    ensures GroupsOpened(calls) <= GroupsOpened(more) && (Timely(more) ==> Timely(calls))
    decreases |more|
  {
    if |calls| == |more| {
      assert calls == more;
    } else {
      hide *;
      var init := more[..|more| - 1];
      InitOk(more);
      EmittedMore(calls, init);
      CallsSnoc(init, more[|more| - 1]);
    }
  }

  lemma {:induction false} GenuineCalls(far: Remote)
    requires Genuine(far)
    ensures CallsOk(far.calls)
  {
    hide Carried, Payloads, CallsOk;
  }

  lemma {:induction false} HearsMeans(s: Side, far: seq<Call>)
    requires CallsOk(far)
    ensures s.Hears(far) <==> forall k :: 0 <= k < |s.arrivals| ==> s.arrivals[k].w in Emitted(far)
  {
    hide Emitted, CallsOk;
  }

  lemma {:induction false} FeedsNothing(e: StackEvent, wire: seq<Wire>, v: World, v': World, arrivals: seq<Arrival>)
    requires Configured(v) && Sized(arrivals) && !(e.Arrive? && e.index < |wire|)
    ensures Feeds(e, wire, v, v', arrivals, arrivals)
  {
    hide Sized, After;
  }

  lemma {:induction false} DoesArrival(wire: seq<Wire>, i: nat, now: nat, wall: nat, v: World, v': World)
    requires Configured(v) && (i >= |wire| ==> v' == v)
    requires i < |wire| && wire[i].h == BARE ==> v' == v.(a := KcpBlock.InputData(v.a, wire[i].body).0)
    ensures Does(StackEvent.Arrive(i, now, wall), wire, v, v')
  {
    hide KcpBlock.InputData;
  }

  /** An event of the block alone. */
  lemma {:induction false} OwnStep(e: StackEvent, own: Event, wire: seq<Wire>, v: World, v': World,
                                   arrivals: seq<Arrival>)
    returns (evs: seq<Event>)
    requires Configured(v) && Sized(arrivals) && v' == StepA(true, v, own)
    requires match e
             case SendMessage(msg) => own == Event.SendMessage(msg)
             case Tick(now, _, _) => own == Event.Tick(now)
             case FlushNow(_, _) => own == Event.FlushNow
             case Receive(len) => own == Event.Receive(len)
             case _ => false
    ensures Configured(v') && v' == StepAll(v, evs)
    ensures Does(e, wire, v, v') && Feeds(e, wire, v, v', arrivals, arrivals)
  {
    evs := [own];
    OneStep(v, own);
    FeedsNothing(e, wire, v, v', arrivals);
    hide StepA, StepAll, Feeds, Sized;
  }

  lemma {:induction false} ClosesOnly(wire: seq<Wire>, v: World, v': World, arrivals: seq<Arrival>)
    requires Configured(v) && Sized(arrivals)
    ensures Does(StackEvent.Expire, wire, v, v') && Feeds(StackEvent.Expire, wire, v, v', arrivals, arrivals)
  {
    hide Sized, After;
  }

  lemma {:induction false} ProtectedBy(e: StackEvent)
    ensures e.Tick? || e.FlushNow? ==> (Unprotected(e) <==> e.fecR == 0)
    ensures e.Expire? ==> !Unprotected(e)
  {
  }

  lemma {:induction false} FeedsArrival(wire: seq<Wire>, i: nat, now: nat, wall: nat, v: World, v': World,
                                        was: seq<Arrival>, arrivals: seq<Arrival>)
    requires Configured(v) && Sized(was) && Sized(arrivals) && i < |wire|
    requires arrivals == was + [Arrival(wire[i], now)] && After(was).ups <= After(arrivals).ups
    requires v' == v.(a := Accepted(v.a, After(arrivals).ups[|After(was).ups|..]))
    ensures Feeds(StackEvent.Arrive(i, now, wall), wire, v, v', was, arrivals)
  {
    hide Sized, After, Accepted;
  }

  lemma {:induction false} ValidArrivals(s: Side)
    requires s.Valid()
    ensures Sized(s.arrivals) && s.dec.ups == After(s.arrivals).ups
  {
    hide After, Emitted, EncoderAfter;
  }

  ghost predicate Distinct(a: Side, b: Side)
  {
    && a != b && a.app != b.app && a.app.Apart(b.app) && a.enc != b.enc && a.dec != b.dec
    && a.app.block.out.data !in {b.enc.t.exp, b.enc.t.log, b.dec.t.exp, b.dec.t.log}
    && b.app.block.out.data !in {a.enc.t.exp, a.enc.t.log, a.dec.t.exp, a.dec.t.log}
  }

  ghost function Pair(a: Side, b: Side): World
    reads a.app, a.app.block, b.app, b.app.block
  {
    Between(a.app.Self(), b.app.Self())
  }

  ghost predicate Joined(a: Side, b: Side)
    reads a, a.app, a.app.block, a.app.block.out, a.enc, a.enc.t.exp, a.enc.t.log, a.dec, a.dec.t.exp, a.dec.t.log
    reads b, b.app, b.app.block, b.app.block.out, b.enc, b.enc.t.exp, b.enc.t.log, b.dec, b.dec.t.exp, b.dec.t.log
  {
    && Distinct(a, b) && a.Valid() && b.Valid() && Configured(Pair(a, b))
    && a.Hears(b.calls) && b.Hears(a.calls)
  }

  lemma {:induction false} JoinedParts(a: Side, b: Side)
    requires Joined(a, b)
    ensures Distinct(a, b) && a.Valid() && b.Valid() && CallsOk(a.calls) && CallsOk(b.calls)
    ensures a.Hears(b.calls) && b.Hears(a.calls) && Genuine(b.Self()) && b.enc.wire == Emitted(b.calls)
    ensures b.Self().calls == b.calls && a.app.View(b.Self().station) == Pair(a, b) && Configured(Pair(a, b))
  {
    hide Emitted, EncoderAfter, After, KcpBlock.Kcp.Valid, KcpBlock.Kcp.OutOk, Carried;
  }

  lemma {:induction false} DistinctParts(a: Side, b: Side)
    requires Distinct(a, b)
    ensures a != b && a.app != b.app && a.app.block != b.app.block && a.app.block.out != b.app.block.out
    ensures a.enc != b.enc && a.dec != b.dec
    ensures a.app.block.out.data !in {b.enc.t.exp, b.enc.t.log, b.dec.t.exp, b.dec.t.log, b.app.block.out.data}
  {
  }

  lemma {:induction false} StillHears(b: Side, calls: seq<Call>, more: seq<Call>)
    requires CallsOk(calls) && CallsOk(more) && calls <= more && b.Hears(calls)
    ensures b.Hears(more)
  {
    EmittedMore(calls, more);
    hide Emitted;
  }

  lemma {:induction false} ValidCalls(s: Side)
    requires s.Valid()
    ensures CallsOk(s.calls)
  {
  }

  lemma {:induction false} PairIsView(a: Side, b: Side, far: Remote)
    requires far == b.Self()
    ensures Pair(a, b) == a.app.View(far.station)
  {
    hide KcpBlock.Kcp.Abs;
  }

  lemma {:induction false} Join(a: Side, b: Side)
    requires Distinct(a, b) && a.Valid() && b.Valid() && Configured(Pair(a, b))
    requires CallsOk(a.calls) && CallsOk(b.calls) && a.Hears(b.calls) && b.Hears(a.calls)
    ensures Joined(a, b)
  {
    hide Side.Valid, Side.Hears;
  }

  /** One event at a; b only listens. */
  method DoAt(a: Side, b: Side, e: StackEvent) returns (ghost evs: seq<Event>)
    requires Joined(a, b)
    modifies a`calls, a`arrivals, a.enc, a.dec, a.app, a.app.block, a.app.block.out, a.app.block.out.data
    ensures Joined(a, b) && old(a.calls) <= a.calls
    ensures Configured(old(Pair(a, b))) && (Recoverable(b.calls) ==> Pair(a, b) == StepAll(old(Pair(a, b)), evs))
    ensures Does(e, b.enc.wire, old(Pair(a, b)), Pair(a, b)) && (Unprotected(e) ==> Bare(a.calls, |old(a.calls)|))
    ensures Sized(old(a.arrivals)) && Sized(a.arrivals)
            && Feeds(e, b.enc.wire, old(Pair(a, b)), Pair(a, b), old(a.arrivals), a.arrivals)
  {
    hide *;
    JoinedParts(a, b);
    DistinctParts(a, b);
    ghost var far, calls := b.Self(), a.calls;
    ValidArrivals(a);
    evs := a.Do(e, b.enc.wire, far);
    ValidArrivals(a);
    ValidCalls(a);
    StillHears(b, calls, a.calls);
    PairIsView(a, b, far);
    Join(a, b);
  }

  lemma {:induction false} JoinedMirror(a: Side, b: Side)
    requires Joined(a, b)
    ensures Joined(b, a) && Pair(b, a) == Mirror(Pair(a, b)) && CallsOk(a.calls) && CallsOk(b.calls)
  {
    hide Side.Valid, Side.Hears, KcpBlock.Kcp.Abs;
    JoinedParts(a, b);
  }

  lemma {:induction false} FewerBefore(calls: seq<Call>, more: seq<Call>)
    requires CallsOk(calls) && calls <= more && Recoverable(more)
    ensures Recoverable(calls)
  {
    EmittedMore(calls, more);
  }

  /** What one event did, in terms of the packet runs. */
  lemma {:induction false} Simulated(start: World, kcp: seq<Action>, atA: bool, v: World, v': World, evs: seq<Event>)
    requires Configured(start) && v == Run(true, start, kcp)
    requires v' == if atA then StepAll(v, evs) else Mirror(StepAll(Mirror(v), evs))
    ensures v' == Run(true, start, kcp + Tagged(atA, evs))
  {
    RunTagged(start, kcp, atA, evs);
  }

  method DriveOneStack(a: Side, b: Side, act: StackAction, ghost start: World, ghost kcp: seq<Action>)
    returns (ghost kcp': seq<Action>)
    requires Joined(a, b) && Configured(start)
    requires Recoverable(a.calls) && Recoverable(b.calls) ==> Pair(a, b) == Run(true, start, kcp)
    modifies a`calls, a`arrivals, a.enc, a.dec, a.app, a.app.block, a.app.block.out, a.app.block.out.data
    modifies b`calls, b`arrivals, b.enc, b.dec, b.app, b.app.block, b.app.block.out, b.app.block.out.data
    ensures Joined(a, b)
    ensures Recoverable(a.calls) && Recoverable(b.calls) ==> Pair(a, b) == Run(true, start, kcp')
  {
    hide *;
    ghost var v, callsA, callsB := Pair(a, b), a.calls, b.calls;
    JoinedMirror(a, b);
    ghost var evs;
    if act.atA {
      evs := DoAt(a, b, act.event);
    } else {
      evs := DoAt(b, a, act.event);
      JoinedMirror(b, a);
    }
    kcp' := kcp + Tagged(act.atA, evs);
    if Recoverable(a.calls) && Recoverable(b.calls) {
      FewerBefore(callsA, a.calls);
      FewerBefore(callsB, b.calls);
      Simulated(start, kcp, act.atA, v, Pair(a, b), evs);
    }
  }

  /** Any schedule of events on two stacks is some schedule of events on their control blocks. */
  method DriveStacks(a: Side, b: Side, acts: seq<StackAction>) returns (ghost kcp: seq<Action>)
    requires Joined(a, b)
    modifies a`calls, a`arrivals, a.enc, a.dec, a.app, a.app.block, a.app.block.out, a.app.block.out.data
    modifies b`calls, b`arrivals, b.enc, b.dec, b.app, b.app.block, b.app.block.out, b.app.block.out.data
    ensures Joined(a, b) && Configured(old(Pair(a, b)))
    ensures Recoverable(a.calls) && Recoverable(b.calls) ==> Pair(a, b) == Run(true, old(Pair(a, b)), kcp)
  {
    hide *;
    JoinedParts(a, b);
    ghost var start := Pair(a, b);
    RunNothing(start);
    kcp := [];
    for i := 0 to |acts|
      invariant Joined(a, b)
      invariant Recoverable(a.calls) && Recoverable(b.calls) ==> Pair(a, b) == Run(true, start, kcp)
    {
      kcp := DriveOneStack(a, b, acts[i], start, kcp);
    }
  }

  lemma {:induction false} RunNothing(w: World)
    requires Configured(w)
    ensures Run(true, w, []) == w
  {
  }

  method OpenStacks() returns (a: Side, b: Side)
    ensures Joined(a, b) && Pair(a, b) == TunnelStart()
    ensures fresh({a, a.enc, a.dec, a.app, a.app.block, a.app.block.out, a.app.block.out.data})
    ensures fresh({b, b.enc, b.dec, b.app, b.app.block, b.app.block.out, b.app.block.out.data})
  {
    hide *;
    var t := new Tables();
    t.Init();
    var x, y := OpenTunnels();
    FreshParts(x, y);
    a := new Side(x, t);
    b := new Side(y, t);
    FreshJoined(a, b);
  }

  /**
   Two connected tunnels over a wire that loses, repeats and reorders data and parity packets, with
   any protection settings at any time: as long as neither side has opened more than 65536 groups,
   closed a group at an unsound size or sent more than 2^31 + 1 segments, each application has read a
   prefix of what the other wrote.
   */
  method RunStacks(acts: seq<StackAction>) returns (a: Side, b: Side, ghost kcp: seq<Action>)
    ensures Joined(a, b)
    ensures fresh({a, a.enc, a.dec, a.app, a.app.block, a.app.block.out, a.app.block.out.data})
    ensures fresh({b, b.enc, b.dec, b.app, b.app.block, b.app.block.out, b.app.block.out.data})
    ensures Recoverable(a.calls) && Recoverable(b.calls) ==>
              && Pair(a, b) == Run(true, TunnelStart(), kcp)
              && (KcpRefine.Small(Pair(a, b)) ==> a.app.got <= b.app.sent && b.app.got <= a.app.sent)
  {
    hide *;
    a, b := OpenStacks();
    kcp := DriveStacks(a, b, acts);
    JoinedParts(a, b);
    if Recoverable(a.calls) && Recoverable(b.calls) && KcpRefine.Small(Pair(a, b)) {
      EveryTunnelRun(kcp);
      PrefixesOf(a, b);
    }
  }

  lemma {:induction false} FreshParts(x: Endpoint, y: Endpoint)
    requires x.Valid() && y.Valid() && x.Apart(y) && x.View(y.Self()) == TunnelStart()
    ensures x != y && x.block != y.block && x.block.out != y.block.out && x.block.out.data != y.block.out.data
    ensures x.block.cfg.mtu <= MTU && y.block.cfg.mtu <= MTU && x.block.sent == [] && y.block.sent == []
  {
    assert x.Self().net == [] && y.Self().net == [];
    assert x.block.cfg == TunnelConfig() && y.block.cfg == TunnelConfig();
    hide KcpBlock.Kcp.Valid, KcpBlock.Kcp.OutOk;
  }

  lemma {:induction false} FreshJoined(a: Side, b: Side)
    requires a.Valid() && b.Valid() && a.app.View(b.app.Self()) == TunnelStart()
    requires a != b && a.app != b.app && a.app.Apart(b.app) && a.enc != b.enc && a.dec != b.dec
    requires a.enc.t == a.dec.t == b.enc.t == b.dec.t
    requires a.app.block.out.data !in {a.enc.t.exp, a.enc.t.log} && b.app.block.out.data !in {a.enc.t.exp, a.enc.t.log}
    requires a.calls == [] && b.calls == [] && a.arrivals == [] && b.arrivals == []
    ensures Joined(a, b) && Pair(a, b) == TunnelStart()
  {
    hide Side.Valid, Emitted, TunnelConfig, KcpBlock.Kcp.Abs, Created;
  }

  lemma {:induction false} PrefixesOf(a: Side, b: Side)
    requires KcpRefine.WrappedSafe(Pair(a, b))
    ensures a.app.got <= b.app.sent && b.app.got <= a.app.sent
  {
  }

  // ---------------------------------------------------------------- protected datagrams get through

  lemma {:induction false} HearsNetwork(s: Side, far: seq<Call>)
    requires s.Valid() && CallsOk(far) && s.Hears(far)
    ensures Sized(s.arrivals) && s.dec.ups == After(s.arrivals).ups && Network(Emitted(far), s.arrivals)
  {
    hide After, Emitted, EncoderAfter, CallsOk;
  }

  /**
   At a point of any schedule: when n different packets of a full group of b have arrived at a while
   the group held its slot, all its datagrams have been handed up at a, and so, in the order handed
   up, given to a's control block.
   */
  lemma {:induction false} GroupReaches(a: Side, b: Side, pre: seq<Call>, body: seq<Call>, post: seq<Call>,
                                        n: byte, r: byte, ps: seq<Payload>, from: nat, xs: set<nat>)
    requires Joined(a, b) && CallsOk(b.calls) && Recoverable(b.calls) && b.calls == pre + body + post && CallsOk(pre)
    requires FecComplete.MakesGroup(pre, body, n, r, ps) && |ps| == n as int && Sized(a.arrivals)
    requires from < |a.arrivals| && HeldSince(a.arrivals, from, FecComplete.NextId(pre)) && n as int <= |xs|
    requires forall x :: x in xs ==>
               exists k :: from <= k < |a.arrivals| && IsArrival(a.arrivals[k], FecComplete.NextId(pre), x)
    ensures FecComplete.AllUp(a.dec.ups, FecComplete.NextId(pre), ps)
  {
    hide *;
    JoinedParts(a, b);
    HearsNetwork(a, b.calls);
    RecoverableMeans(b.calls);
    FecComplete.FullGroupDelivered(pre, body, post, n, r, ps, a.arrivals, from, xs);
  }

  lemma {:induction false} RecoverableMeans(calls: seq<Call>)
    requires CallsOk(calls) && Recoverable(calls)
    ensures GroupsOpened(calls) <= NUMBERS && Timely(calls)
  {
    hide GroupsOpened, Timely, CallsOk;
  }
}
