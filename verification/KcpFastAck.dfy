/**
 Fast retransmission: which acknowledgements count against a segment they skip, and that enough of
 them make the next flush send it again before its timer runs out.
 */
module KcpFastAck {
  import opened Bytes
  import opened KcpSpec
  import opened KcpLists
  import opened KcpFlow
  import opened KcpWorld
  import opened KcpWrap
  import opened KcpRefine
  import opened KcpTimers
  import opened KcpFlushing
  import opened KcpProgress
  import opened KcpTunnel

  // ---------------------------------------------------------------- counting

  /** An acknowledgement of sn, echoing the stamp ts, overtakes this segment: it is older and was not sent since. */
  predicate Overtakes(sn: nat, ts: nat, seg: Segment)
  {
    seg.sn < sn && TimeDiff(ts, seg.ts) >= 0
  }

  /** An outstanding acknowledgement counts against exactly the segments it overtakes; any other counts against none. */
  lemma {:induction false} FastAckExactly(snd: Sender, sn: nat, ts: nat)
    requires Ordered(snd.buf, snd.una, snd.nxt)
    ensures var s := ParseFastAck(false, snd, sn, ts);
            && s == snd.(buf := s.buf) && |s.buf| == |snd.buf|
            && forall i {:trigger snd.buf[i]} :: 0 <= i < |snd.buf| ==>
                 s.buf[i] == Counted(snd.buf[i], snd.una <= sn < snd.nxt && Overtakes(sn, ts, snd.buf[i]))
  {
    hide TimeDiff;
    var n := FastAckScan(false, snd.buf, sn, ts);
    forall i | 0 <= i < |snd.buf|
      ensures i < n && snd.buf[i].sn != sn <==> snd.buf[i].sn < sn
    {
      if i >= n {
        assert snd.buf[n].sn <= snd.buf[i].sn;
      }
    }
  }

  /** The same on 32-bit numbers. */
  lemma {:induction false} FastAckExactly32(snd: Sender, wnd: nat, sn: nat, ts: nat)
    requires Windowed(snd, wnd) && InRange(sn, snd) && wnd < TWO_31
    ensures var w, s := WrapSnd(snd), ParseFastAck(true, WrapSnd(snd), U32(sn), ts);
            && s == w.(buf := s.buf) && |s.buf| == |snd.buf|
            && forall i {:trigger snd.buf[i]} :: 0 <= i < |snd.buf| ==>
                 s.buf[i] == Counted(w.buf[i], snd.una <= sn < snd.nxt && Overtakes(sn, ts, snd.buf[i]))
  {
    WrapFastAckSnd(snd, wnd, sn, ts);
    FastAckExactly(snd, sn, ts);
    hide U32, ParseFastAck, Overtakes;
    var s := ParseFastAck(false, snd, sn, ts);
    forall i | 0 <= i < |snd.buf|
      ensures WrapSeg(s.buf[i])
           == Counted(WrapSeg(snd.buf[i]), snd.una <= sn < snd.nxt && Overtakes(sn, ts, snd.buf[i]))
    {
      assert s.buf[i] == Counted(snd.buf[i], snd.una <= sn < snd.nxt && Overtakes(sn, ts, snd.buf[i]));
    }
  }

  // ---------------------------------------------------------------- one datagram

  /** The datagram acknowledges neither the segment nor everything below it. */
  ghost predicate Passes(ps: seq<Packet>, x: nat)
  {
    forall p :: p in ps ==> p.una <= x && (p.cmd == CMD_ACK as int ==> p.sn != x)
  }

  /** It holds acknowledgements, and all of them overtake the segment. */
  ghost predicate AllOvertake(ps: seq<Packet>, seg: Segment)
  {
    && Passes(ps, seg.sn) && (exists p :: p in ps && p.cmd == CMD_ACK as int)
    && forall p :: p in ps && p.cmd == CMD_ACK as int ==> Overtakes(p.sn, p.ts, seg)
  }

  lemma {:induction false} HeaderLeaves(k: Kcb, p: Packet, seg: Segment)
    requires seg in k.snd.buf && p.una <= seg.sn
    ensures seg in TakeHeader(false, k, p).snd.buf
  {
    var n := DropAckedSpec(k.snd.buf, p.una);
    var i :| 0 <= i < |k.snd.buf| && k.snd.buf[i] == seg;
    assert k.snd.buf[n..][i - n] == seg;
    hide DropAcked;
  }

  lemma {:induction false} AckLeaves(k: Kcb, p: Packet, seg: Segment)
    requires seg in k.snd.buf && p.sn != seg.sn && Ordered(k.snd.buf, k.snd.una, k.snd.nxt)
    ensures seg in TakeAck(false, k, p).snd.buf
  {
    var n := RemoveSnSpec(k.snd.buf, p.sn, k.snd.una, k.snd.nxt);
    var i :| 0 <= i < |k.snd.buf| && k.snd.buf[i] == seg;
    var buf := RemoveSn(false, k.snd.buf, p.sn);
    if n < |k.snd.buf| {
      assert buf[if i < n then i else i - 1] == seg;
    }
    hide RemoveSn, Ordered, UpdateRtt, TimeDiff;
  }

  lemma {:induction false} PacketLeaves(w: World, st: InputState, p: Packet, seg: Segment)
    requires InvWith(w, st.k) && Sent(w.ba, p) && seg in st.k.snd.buf
    requires p.una <= seg.sn && (p.cmd == CMD_ACK as int ==> p.sn != seg.sn)
    ensures seg in InputPacket(false, st, p).k.snd.buf
  {
    var k := TakeHeader(false, st.k, p);
    HeaderLeaves(st.k, p, seg);
    HeaderInv(w, st.k, p);
    hide InvWith, TakeHeader, TakeAck, TakePush, Sent, ScanAck;
    if p.cmd == CMD_ACK as int {
      InvOrdered(w, k);
      AckLeaves(k, p, seg);
    }
  }

  lemma {:induction false} InvOrdered(w: World, k: Kcb)
    requires InvWith(w, k)
    ensures Ordered(k.snd.buf, k.snd.una, k.snd.nxt)
  {
    InvWindows(w, k);
    hide InvWith, Ordered;
  }

  /** The acknowledgement the scan keeps is one of the datagram. */
  ghost predicate ScanFrom(scan: Scan, ps: seq<Packet>)
  {
    && (scan.NoAck? <==> forall p :: p in ps ==> p.cmd != CMD_ACK as int)
    && (scan.Latest? ==> exists p :: p in ps && p.cmd == CMD_ACK as int && scan == Latest(p.sn, p.ts))
  }

  lemma {:induction false} ScanMore(scan: Scan, scan': Scan, init: seq<Packet>, last: Packet)
    requires ScanFrom(scan, init)
    requires if last.cmd == CMD_ACK as int then (scan' == scan && scan.Latest?) || scan' == Latest(last.sn, last.ts)
             else scan' == scan
    ensures ScanFrom(scan', init + [last])
  {
  }

  lemma {:induction false} ScanStep(st: InputState, p: Packet)
    ensures var scan := InputPacket(false, st, p).scan;
            if p.cmd == CMD_ACK as int then (scan == st.scan && st.scan.Latest?) || scan == Latest(p.sn, p.ts)
            else scan == st.scan
  {
    hide TakeHeader, TakeAck, TakePush, TimeDiff;
  }

  /** A datagram that passes the segment leaves it outstanding. */
  lemma {:induction false} PacketsLeave(w: World, k: Kcb, ps: seq<Packet>, seg: Segment)
    requires InvWith(w, k) && (forall p :: p in ps ==> Sent(w.ba, p)) && seg in k.snd.buf && Passes(ps, seg.sn)
    ensures var st := InputPackets(false, InputState(k, NoAck), ps);
            seg in st.k.snd.buf && ScanFrom(st.scan, ps)
    decreases |ps|
  {
    if ps != [] {
      var init, last := ps[..|ps| - 1], ps[|ps| - 1];
      var st := InputPackets(false, InputState(k, NoAck), init);
      assert ps == init + [last];
      InputSnoc(false, InputState(k, NoAck), ps);
      hide InvWith, Sent, InputPackets, InputPacket, ScanFrom;
      PacketsLeave(w, k, init, seg);
      PacketsInv(w, k, init);
      PacketLeaves(w, st, last, seg);
      ScanStep(st, last);
      ScanMore(st.scan, InputPacket(false, st, last).scan, init, last);
    }
  }

  /** A datagram that passes the segment counts against it once or not at all; once if all of it overtakes. */
  lemma {:induction false} InputCounts(w: World, ps: seq<Packet>, seg: Segment)
    requires Inv(w) && (forall p :: p in ps ==> Sent(w.ba, p)) && seg in w.a.snd.buf && Passes(ps, seg.sn)
    ensures ValidConfig(w.a.cfg)
    ensures var buf := Input(false, w.a, ps).snd.buf;
            && (seg in buf || Counted(seg, true) in buf)
            && (AllOvertake(ps, seg) ==> Counted(seg, true) in buf)
  {
    assert w.(a := w.a) == w;
    var st := InputPackets(false, InputState(w.a, NoAck), ps);
    hide *;
    InvIsWith(w);
    PacketsLeave(w, w.a, ps, seg);
    PacketsInv(w, w.a, ps);
    ScanBound(w, w.a, ps);
    UnaMoves(w, w.a, ps);
    InvOrdered(w, st.k);
    FinishCounts(w.a.snd.una, st, ps, seg);
    InputFinishes(w.a, ps);
  }

  lemma {:induction false} InvIsWith(w: World)
    requires Inv(w)
    ensures InvWith(w, w.a) && Configured(w) && Configured(w.(a := w.a)) && ValidConfig(w.a.cfg)
  {
    assert w.(a := w.a) == w;
    hide Half;
  }

  lemma {:induction false} InputFinishes(k: Kcb, ps: seq<Packet>)
    requires ValidConfig(k.cfg)
    ensures var st := InputPackets(false, InputState(k, NoAck), ps);
            ValidConfig(st.k.cfg) && Input(false, k, ps) == FinishInput(false, k.snd.una, st)
  {
    InputKeepsConfig(false, InputState(k, NoAck), ps);
    hide InputPackets, FinishInput;
  }

  lemma {:induction false} FinishCounts(prevUna: nat, st: InputState, ps: seq<Packet>, seg: Segment)
    requires ValidConfig(st.k.cfg) && Ordered(st.k.snd.buf, st.k.snd.una, st.k.snd.nxt) && seg in st.k.snd.buf
    requires ScanFrom(st.scan, ps) && (st.scan.Latest? ==> st.scan.sn < st.k.snd.nxt)
    ensures var buf := FinishInput(false, prevUna, st).snd.buf;
            && (seg in buf || Counted(seg, true) in buf)
            && (AllOvertake(ps, seg) ==> Counted(seg, true) in buf)
  {
    hide GrowWindow, ParseFastAck, Overtakes, Passes;
    var i :| 0 <= i < |st.k.snd.buf| && st.k.snd.buf[i] == seg;
    if st.scan.Latest? {
      FastAckExactly(st.k.snd, st.scan.sn, st.scan.ts);
      var s := ParseFastAck(false, st.k.snd, st.scan.sn, st.scan.ts);
      assert s.buf[i] in s.buf;
      if Overtakes(st.scan.sn, st.scan.ts, seg) {
        OvertakenOutstanding(st.k.snd, st.scan.sn, st.scan.ts, i);
      }
    }
  }

  lemma {:induction false} OvertakenOutstanding(snd: Sender, sn: nat, ts: nat, i: nat)
    requires Ordered(snd.buf, snd.una, snd.nxt) && i < |snd.buf| && Overtakes(sn, ts, snd.buf[i])
    ensures snd.una <= sn
  {
  }

  // ---------------------------------------------------------------- whole runs

  /** An event after which segment x is still outstanding and has not been sent again. */
  ghost predicate LeavesAlone(w: World, act: Action, x: nat)
    requires Configured(w)
  {
    act.atA ==>
      match act.event
      case SendMessage(_) => true
      case Receive(_) => true
      case Tick(now) => !UpdateFlushes(w.a, U32(now))
      case FlushNow => !w.a.tm.updated
      case Deliver(i) => i < |w.ba| ==> Passes(w.ba[i], x)
  }

  ghost predicate Overtaking(w: World, act: Action, seg: Segment)
  {
    act.atA && act.event.Deliver? && act.event.index < |w.ba| && AllOvertake(w.ba[act.event.index], seg)
  }

  /** Every event of the run leaves segment x alone. */
  ghost predicate RunLeavesAlone(w: World, acts: seq<Action>, x: nat)
    requires Configured(w)
    decreases |acts|
  {
    acts == [] || (RunLeavesAlone(w, acts[..|acts| - 1], x)
                   && LeavesAlone(Run(false, w, acts[..|acts| - 1]), acts[|acts| - 1], x))
  }

  /** How many datagrams that overtake the segment arrive at a. */
  ghost function Overtakings(w: World, acts: seq<Action>, seg: Segment): nat
    requires Configured(w)
    decreases |acts|
  {
    if acts == [] then 0
    else Overtakings(w, acts[..|acts| - 1], seg)
         + (if Overtaking(Run(false, w, acts[..|acts| - 1]), acts[|acts| - 1], seg) then 1 else 0)
  }

  lemma {:induction false} OtherEvents(w: World, e: Event)
    requires Inv(w) && (e.SendMessage? || e.Receive?)
    ensures StepA(false, w, e).a.snd.buf == w.a.snd.buf
  {
    if e.Receive? {
      RecvFrame(w.a, e.len);
    }
    hide Half, Recv, Fragments, Extended;
    if e.SendMessage? {
      NoExtension(w.a.cfg, w.a.snd, e.msg);
    }
  }

  lemma {:induction false} QuietTick(w: World, now: nat)
    requires Inv(w) && !UpdateFlushes(w.a, U32(now))
    ensures StepA(false, w, Tick(now)).a.snd.buf == w.a.snd.buf
  {
    UpdateIsFlush(false, w.a, U32(now));
    hide Half, Update, Datagrams, U32, UpdateFlushes, Ticked;
  }

  lemma {:induction false} FarEvents(w: World, act: Action)
    requires Inv(w) && !act.atA
    ensures Step(false, w, act).a == w.a
  {
    InvMirror(w);
    StepAConfigured(false, Mirror(w), act.event);
    hide StepA, Half;
  }

  lemma {:induction false} StepCounts(w: World, act: Action, seg: Segment) returns (f: nat)
    requires Inv(w) && seg in w.a.snd.buf && LeavesAlone(w, act, seg.sn) && seg.fastAck + 1 < TWO_32
    ensures seg.(fastAck := f) in Step(false, w, act).a.snd.buf
    ensures f == seg.fastAck || f == seg.fastAck + 1
    ensures Overtaking(w, act, seg) ==> f == seg.fastAck + 1
  {
    hide Inv, StepA, UpdateFlushes, AllOvertake, Passes;
    f := seg.fastAck;
    assert seg.(fastAck := f) == seg;
    if !act.atA {
      FarEvents(w, act);
    } else {
      match act.event {
        case SendMessage(msg) => OtherEvents(w, act.event);
        case Receive(len) => OtherEvents(w, act.event);
        case Tick(now) => QuietTick(w, now);
        case FlushNow => FlushIdle(w);
        case Deliver(i) =>
          if i < |w.ba| {
            f := DeliverCounts(w, i, seg);
          } else {
            Undelivered(w, i);
          }
      }
    }
  }

  lemma {:induction false} Undelivered(w: World, i: nat)
    requires Inv(w) && i >= |w.ba|
    ensures StepA(false, w, Deliver(i)) == w
  {
    hide Half;
  }

  lemma {:induction false} ArrivesSent(w: World, i: nat)
    requires i < |w.ba|
    ensures forall p :: p in w.ba[i] ==> Sent(w.ba, p)
  {
  }

  lemma {:induction false} DeliverIs(w: World, i: nat)
    requires Inv(w) && i < |w.ba|
    ensures Configured(w) && StepA(false, w, Deliver(i)).a == Input(false, w.a, w.ba[i])
  {
    hide Half, Input;
  }

  lemma {:induction false} CountedOnce(seg: Segment)
    requires seg.fastAck + 1 < TWO_32
    ensures Counted(seg, true) == seg.(fastAck := seg.fastAck + 1)
  {
  }

  lemma {:induction false} DeliverCounts(w: World, i: nat, seg: Segment) returns (f: nat)
    requires Inv(w) && seg in w.a.snd.buf && i < |w.ba| && Passes(w.ba[i], seg.sn) && seg.fastAck + 1 < TWO_32
    ensures seg.(fastAck := f) in StepA(false, w, Deliver(i)).a.snd.buf
    ensures f == seg.fastAck || f == seg.fastAck + 1
    ensures AllOvertake(w.ba[i], seg) ==> f == seg.fastAck + 1
  {
    hide *;
    ArrivesSent(w, i);
    InputCounts(w, w.ba[i], seg);
    DeliverIs(w, i);
    CountedOnce(seg);
    f := if Counted(seg, true) in Input(false, w.a, w.ba[i]).snd.buf then seg.fastAck + 1 else seg.fastAck;
    assert seg.(fastAck := seg.fastAck) == seg;
  }

  lemma {:induction false} OvertakingSame(w: World, act: Action, seg: Segment, f: nat)
    ensures Overtaking(w, act, seg.(fastAck := f)) == Overtaking(w, act, seg)
  {
    hide TimeDiff;
  }

  /** While it is left alone, a segment counts every datagram that overtakes it. */
  lemma {:induction false} RunCounts(w: World, acts: seq<Action>, seg: Segment) returns (f: nat)
    requires Inv(w) && seg in w.a.snd.buf && RunLeavesAlone(w, acts, seg.sn) && seg.fastAck + |acts| < TWO_32
    ensures seg.(fastAck := f) in Run(false, w, acts).a.snd.buf
    ensures seg.fastAck + Overtakings(w, acts, seg) <= f <= seg.fastAck + |acts|
    decreases |acts|
  {
    if acts == [] {
      f := seg.fastAck;
      assert seg.(fastAck := f) == seg;
      assert Run(false, w, acts) == w;
    } else {
      hide Inv, Step, LeavesAlone, Overtaking;
      var init, last := acts[..|acts| - 1], acts[|acts| - 1];
      var g := RunCounts(w, init, seg);
      RunInv(w, init);
      f := StepCounts(Run(false, w, init), last, seg.(fastAck := g));
      OvertakingSame(Run(false, w, init), last, seg, g);
    }
  }

  /** The control block a flush of a starts from, when the event makes a flush. */
  ghost predicate Flushes(w: World, e: Event)
    requires Configured(w)
  {
    (e.FlushNow? && w.a.tm.updated) || (e.Tick? && UpdateFlushes(w.a, U32(e.now)))
  }

  ghost function FlushedFrom(w: World, e: Event): Kcb
    requires Configured(w) && Flushes(w, e)
  {
    if e.Tick? then UpdateClock(w.a, U32(e.now)) else w.a
  }

  lemma {:induction false} FlushEmits(w: World, e: Event)
    requires Inv(w) && Flushes(w, e)
    ensures var k := FlushedFrom(w, e);
            && StepA(false, w, e) == Emits(w, Flush(false, k)) && k.cfg == w.a.cfg && k.snd == w.a.snd && k.tm.updated
            && ValidConfig(k.cfg) && Flush(false, k).k.cfg == w.a.cfg
            && forall q :: q in Flush(false, k).ps ==> WireSize(q) <= w.a.cfg.mtu
  {
    var k := FlushedFrom(w, e);
    if e.Tick? {
      UpdateIsFlush(false, w.a, U32(e.now));
      ClockKeeps(w.a, e.now);
    }
    assert ValidConfig(k.cfg) && TimesOk(k);
    assert Flow(k.snd, k.cfg.sndWnd, k.cfg.Mss(), w.b.rcv, w.b.cfg.rcvWnd, w.ab, w.ba, w.sentA, w.gotB);
    assert forall a :: a in k.rcv.acks ==> Held(k.rcv, a.sn);
    hide Flow, Held, Flush, Update, UpdateClock, UpdateFlushes, Datagrams, DatagramsOk;
    FlushConfig(false, k);
    FlushFlow(k, w.b.rcv, w.b.cfg.rcvWnd, w.ab, w.ba, w.sentA, w.gotB);
  }

  /** A data packet of segment seg, whatever its timers. */
  predicate CarriesSegment(p: Packet, seg: Segment)
  {
    p.cmd == CMD_PUSH as int && p.sn == seg.sn && p.frg == seg.frg % 0x100 && p.data == seg.data
  }

  /**
   Fast retransmission: once fast_resend datagrams that overtake a segment have arrived, the next
   flush sends the segment again, whatever its timer says.
   */
  lemma {:induction false} FastRetransmit(w: World, acts: seq<Action>, seg: Segment, e: Event)
    returns (i: nat, p: Packet)
    requires Inv(w) && seg in w.a.snd.buf && RunLeavesAlone(w, acts, seg.sn) && seg.fastAck + |acts| < TWO_32
    requires 0 < w.a.cfg.fastResend <= seg.fastAck + Overtakings(w, acts, seg)
    requires w.a.cfg.fastLimit <= 0 || Signed(U32(seg.xmit)) <= w.a.cfg.fastLimit
    requires Flushes(Run(false, w, acts), e)
    ensures var v := Run(false, w, acts);
            && |v.ab| <= i < |StepA(false, v, e).ab| && p in StepA(false, v, e).ab[i] && CarriesSegment(p, seg)
  {
    var v := Run(false, w, acts);
    RunInv(w, acts);
    hide *;
    var f := RunCounts(w, acts, seg);
    FlushEmits(v, e);
    var k := FlushedFrom(v, e);
    p := OvertakenGoesOut(k, seg, f);
    i := FindDatagram(v, Flush(false, k), p);
  }

  lemma {:induction false} OvertakenGoesOut(k: Kcb, seg: Segment, f: nat) returns (p: Packet)
    requires ValidConfig(k.cfg) && k.tm.updated && seg.(fastAck := f) in k.snd.buf
    requires 0 < k.cfg.fastResend <= f
    requires k.cfg.fastLimit <= 0 || Signed(U32(seg.xmit)) <= k.cfg.fastLimit
    ensures p in Flush(false, k).ps && CarriesSegment(p, seg)
  {
    var i :| 0 <= i < |k.snd.buf| && k.snd.buf[i] == seg.(fastAck := f);
    assert Overtaken(k.cfg, k.snd.buf[i]);
    hide Flush, Overtaken;
    p := DueGoesOut(false, k, i);
  }

  lemma {:induction false} WrappedHolds(u: World, i: nat, q: Packet, seg: Segment)
    requires i < |u.ab| && q in u.ab[i] && CarriesSegment(q, seg)
    ensures |WrapWorld(u).ab| == |u.ab| && WrapPacket(q) in WrapWorld(u).ab[i]
            && CarriesSegment(WrapPacket(q), WrapSeg(seg))
  {
    var j :| 0 <= j < |u.ab[i]| && u.ab[i][j] == q;
    hide WrapKcb, U32;
    assert WrapPackets(u.ab[i])[j] == WrapPacket(q);
  }

  lemma {:induction false} OneMore(w: World, acts: seq<Action>, act: Action)
    requires Configured(w)
    ensures Run(false, w, acts + [act]) == Step(false, Run(false, w, acts), act)
  {
    assert (acts + [act])[..|acts|] == acts;
    hide Step;
  }

  lemma {:induction false} TunnelResends()
    ensures TunnelConfig().fastResend == 2 && TunnelConfig().fastLimit == 5
  {
  }

  /**
   The same between two tunnels on 32-bit numbers, where two such datagrams suffice unless the
   segment has been sent more than five times.
   */
  lemma {:induction false} TunnelFastRetransmit(before: seq<Action>, acts: seq<Action>, seg: Segment, e: Event)
    returns (i: nat, p: Packet)
    requires Small(Run(true, TunnelStart(), before + acts + [Action(true, e)]))
    requires seg in Run(false, TunnelStart(), before).a.snd.buf && seg.fastAck + |acts| < TWO_32
    requires RunLeavesAlone(Run(false, TunnelStart(), before), acts, seg.sn)
    requires 2 <= seg.fastAck + Overtakings(Run(false, TunnelStart(), before), acts, seg)
    requires Signed(U32(seg.xmit)) <= 5
    requires Flushes(Run(false, Run(false, TunnelStart(), before), acts), e)
    ensures var u := Run(true, TunnelStart(), before + acts + [Action(true, e)]);
            && |Run(false, TunnelStart(), before + acts).ab| <= i < |u.ab|
            && p in u.ab[i] && CarriesSegment(p, WrapSeg(seg))
  {
    hide *;
    var s := TunnelStart();
    var w := Run(false, s, before);
    StartsFresh();
    RunInv(s, before);
    RunAppend(false, s, before, acts);
    OneMore(s, before + acts, Action(true, e));
    EveryTunnelRun(before + acts + [Action(true, e)]);
    var q;
    i, q := FastRetransmit(w, acts, seg, e);
    var v := Run(false, w, acts);
    StepOfA(v, e);
    WrappedHolds(StepA(false, v, e), i, q, seg);
    p := WrapPacket(q);
  }

  lemma {:induction false} StartsFresh()
    ensures Inv(TunnelStart()) && TunnelStart().a.cfg.fastResend == 2 && TunnelStart().a.cfg.fastLimit == 5
  {
    StartInv(TunnelConfig(), TunnelConfig());
    TunnelResends();
    hide Half, TunnelConfig;
  }

  lemma {:induction false} StepOfA(w: World, e: Event)
    requires Configured(w)
    ensures Step(false, w, Action(true, e)) == StepA(false, w, e)
  {
    hide StepA;
  }
}
