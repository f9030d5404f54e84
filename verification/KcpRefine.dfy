/**
 Whole runs of the 32-bit protocol are reductions of runs of the unbounded protocol, and so are
 safe, while every delivered packet is fresh; with few enough segments every packet is.
 */
module KcpRefine {
  import opened Bytes
  import opened KcpSpec
  import opened KcpWire
  import opened KcpLists
  import opened KcpMessages
  import opened KcpFlow
  import opened KcpWorld
  import opened KcpWrap

  // ---------------------------------------------------------------- flushing

  lemma {:induction false} WrapLaunchedOne(k: Kcb)
    requires k.snd.queue != []
    ensures LaunchedOne(true, WrapKcb(k)) == WrapKcb(LaunchedOne(false, k))
  {
    U32Add(k.snd.nxt, 1);
    WrapSlices(k.snd.queue, 1);
    WrapSnoc(k.snd.buf, Launched(k, k.snd.queue[0]));
    hide U32, WrapSegs, WrapAcks;
    assert Launched(WrapKcb(k), WrapSegs(k.snd.queue)[0]) == WrapSeg(Launched(k, k.snd.queue[0]));
  }

  lemma {:induction false} WrapLaunch(k: Kcb, cwnd: nat)
    requires ValidConfig(k.cfg) && cwnd <= k.cfg.sndWnd
    requires k.snd.una <= k.snd.nxt <= k.snd.una + k.cfg.sndWnd
    ensures Launch(true, WrapKcb(k), cwnd) == WrapKcb(Launch(false, k, cwnd))
    decreases |k.snd.queue|
  {
    hide Launch, U32, TimeDiff, Launched, WrapSegs;
    LaunchUnfolds(true, WrapKcb(k), cwnd);
    LaunchUnfolds(false, k, cwnd);
    DiffExactPlus(k.snd.nxt, k.snd.una, cwnd);
    if k.snd.queue != [] {
      WrapLaunchedOne(k);
      if k.snd.nxt < k.snd.una + cwnd {
        WrapLaunch(LaunchedOne(false, k), cwnd);
      }
    }
  }

  function WrapSweepState(s: Sweep): Sweep
  {
    s.(segs := WrapSegs(s.segs), ps := WrapPackets(s.ps))
  }

  lemma {:induction false} WrapFlushed(k: Kcb, seg: Segment)
    ensures WhySend(WrapKcb(k), WrapSeg(seg)) == WhySend(k, seg)
    ensures Flushed(WrapKcb(k), WrapSeg(seg)) == WrapSeg(Flushed(k, seg))
  {
    hide BackedOff, ResendThreshold, TimeDiff, WrapSegs, WrapAcks, Signed;
    assert BackedOff(WrapKcb(k), seg.rto) == BackedOff(k, seg.rto) by {
      WrapBackedOff(k, seg.rto);
    }
    assert ResendThreshold(WrapKcb(k).cfg) == ResendThreshold(k.cfg);
    assert WhySend(WrapKcb(k), WrapSeg(seg)) == WhySend(k, seg);
    hide WhySend, U32;
  }

  lemma {:induction false} WrapBackedOff(k: Kcb, rto: nat)
    ensures BackedOff(WrapKcb(k), rto) == BackedOff(k, rto)
  {
    hide HalfTowardZero, Signed, U32, WrapSnd, WrapRcv;
  }

  lemma {:induction false} WrapPacketsSnoc(ps: seq<Packet>, p: Packet)
    ensures WrapPackets(ps + [p]) == WrapPackets(ps) + [WrapPacket(p)]
  {
    hide U32;
  }

  lemma {:induction false} WrapPacketsAppend(a: seq<Packet>, b: seq<Packet>)
    ensures WrapPackets(a + b) == WrapPackets(a) + WrapPackets(b)
  {
    hide U32;
  }

  lemma {:induction false} WrapSweep(k: Kcb, n: nat)
    requires n <= |k.snd.buf|
    ensures SweepUpto(WrapKcb(k), n) == WrapSweepState(SweepUpto(k, n))
    decreases n
  {
    if n > 0 {
      WrapSweep(k, n - 1);
      var s, seg := SweepUpto(k, n - 1), k.snd.buf[n - 1];
      var out := Flushed(k, seg);
      WrapFlushed(k, seg);
      WrapSnoc(s.segs, out);
      WrapPacketsSnoc(s.ps, DataPacket(k, out));
      hide U32, Flushed, WhySend, WrapSegs, WrapAcks, WrapPackets;
      assert WrapKcb(k).snd.buf[n - 1] == WrapSeg(seg);
      assert DataPacket(WrapKcb(k), WrapSeg(out)) == WrapPacket(DataPacket(k, out));
    }
  }

  lemma {:induction false} WrapControl(k: Kcb, tm: Timing)
    ensures AckPackets(WrapKcb(k), |k.rcv.acks|) + ProbePackets(WrapKcb(k), tm)
         == WrapPackets(AckPackets(k, |k.rcv.acks|) + ProbePackets(k, tm))
  {
    WrapPacketsAppend(AckPackets(k, |k.rcv.acks|), ProbePackets(k, tm));
    assert U32(0) == 0;
    hide U32, WrapSegs;
    assert Unused(WrapKcb(k)) == Unused(k);
    hide Unused;
    assert LastAck(WrapKcb(k)) == WrapAck(LastAck(k));
    assert forall a: Ack, cmd: byte :: Control(WrapKcb(k), cmd, WrapAck(a)) == WrapPacket(Control(k, cmd, a));
    hide Control, LastAck;
    assert AckPackets(WrapKcb(k), |k.rcv.acks|) == WrapPackets(AckPackets(k, |k.rcv.acks|));
    assert ProbePackets(WrapKcb(k), tm) == WrapPackets(ProbePackets(k, tm));
  }

  function WrapResult(r: FlushResult): FlushResult
  {
    FlushResult(WrapKcb(r.k), WrapPackets(r.ps))
  }

  lemma {:induction false} WrapTail(k: Kcb, launched: Kcb, s: Sweep)
    requires ValidConfig(k.cfg)
    ensures FlushTail(WrapKcb(k), WrapKcb(launched), WrapSweepState(s)) == WrapResult(FlushTail(k, launched, s))
  {
    var tm := ProbeTimer(k.tm, k.cc.rmtWnd);
    WrapControl(k, tm);
    WrapPacketsAppend(ControlPackets(k), s.ps);
    U32Sub(launched.snd.nxt, launched.snd.una);
    assert WrapAcks([]) == [];
    hide U32, WrapSegs, WrapAcks, WrapPackets, ProbeTimer, AckPackets, ProbePackets, Adjusted;
  }

  lemma {:induction false} WrapFlush(k: Kcb)
    requires ValidConfig(k.cfg) && k.snd.una <= k.snd.nxt <= k.snd.una + k.cfg.sndWnd
    ensures Flush(true, WrapKcb(k)) == WrapResult(Flush(false, k))
  {
    if !k.tm.updated {
      assert WrapPackets([]) == [];
    } else {
      var quiet := Quiet(k);
      var launched := Launch(false, quiet, SendWindow(k));
      WrapLaunch(quiet, SendWindow(k));
      WrapSweep(launched, |launched.snd.buf|);
      FlushIsTail(false, k);
      FlushIsTail(true, WrapKcb(k));
      assert WrapAcks([]) == [];
      assert Quiet(WrapKcb(k)) == WrapKcb(quiet);
      WrapTail(k, launched, SweepUpto(launched, |launched.snd.buf|));
      hide Flush, FlushTail, Launch, SweepUpto, WrapSegs, WrapAcks, WrapPackets, U32, Quiet;
    }
  }

  lemma {:induction false} WrapClock(k: Kcb, now: nat)
    ensures UpdateClock(WrapKcb(k), now) == WrapKcb(UpdateClock(k, now))
    ensures UpdateFlushes(WrapKcb(k), now) == UpdateFlushes(k, now)
    ensures UpdateClock(k, now).snd == k.snd && UpdateClock(k, now).cfg == k.cfg
  {
    hide U32, TimeDiff, WrapSnd, WrapRcv;
  }

  lemma {:induction false} WrapNothing(k: Kcb)
    ensures WrapResult(FlushResult(k, [])) == FlushResult(WrapKcb(k), [])
  {
    assert WrapPackets([]) == [];
    hide WrapKcb;
  }

  lemma {:induction false} WrapUpdate(k: Kcb, now: nat)
    requires ValidConfig(k.cfg) && k.snd.una <= k.snd.nxt <= k.snd.una + k.cfg.sndWnd
    ensures Update(true, WrapKcb(k), now) == WrapResult(Update(false, k, now))
  {
    assert WrapKcb(k).cfg == k.cfg;
    hide Flush, Update, WrapResult, UpdateClock, UpdateFlushes, WrapKcb;
    UpdateIsFlush(true, WrapKcb(k), now);
    UpdateIsFlush(false, k, now);
    WrapClock(k, now);
    WrapFlush(UpdateClock(k, now));
    WrapNothing(UpdateClock(k, now));
  }

  // ---------------------------------------------------------------- datagrams

  function WrapNet(net: Network): (w: Network)
    ensures |w| == |net|
    ensures forall i :: 0 <= i < |net| ==> w[i] == WrapPackets(net[i])
  {
    seq(|net|, i requires 0 <= i < |net| => WrapPackets(net[i]))
  }

  function WrapPacking(st: Packing): Packing
  {
    Packing(WrapNet(st.done), WrapPackets(st.cur))
  }

  lemma {:induction false} WrapTotalSize(ps: seq<Packet>)
    ensures TotalSize(WrapPackets(ps)) == TotalSize(ps)
  {
    hide U32;
    if ps != [] {
      assert WrapPackets(ps)[..|ps| - 1] == WrapPackets(ps[..|ps| - 1]);
      WrapTotalSize(ps[..|ps| - 1]);
    }
  }

  lemma {:induction false} WrapEmit(st: Packing)
    ensures Emit(WrapPacking(st)) == WrapPacking(Emit(st))
  {
    hide U32;
    assert WrapNet(st.done + [st.cur]) == WrapNet(st.done) + [WrapPackets(st.cur)];
    assert WrapPackets([]) == [];
  }

  lemma {:induction false} WrapPackOne(mtu: nat, st: Packing, p: Packet)
    ensures PackOne(mtu, WrapPacking(st), WrapPacket(p)) == WrapPacking(PackOne(mtu, st, p))
  {
    WrapTotalSize(st.cur);
    WrapEmit(st);
    WrapPacketsSnoc(st.cur, p);
    WrapPacketsSnoc(Emit(st).cur, p);
    hide U32, WrapNet, WrapPackets, Emit, TotalSize;
  }

  lemma {:induction false} WrapPackAll(mtu: nat, st: Packing, ps: seq<Packet>)
    ensures PackAll(mtu, WrapPacking(st), WrapPackets(ps)) == WrapPacking(PackAll(mtu, st, ps))
    decreases |ps|
  {
    hide U32, PackOne, WrapPacking, WrapPacket;
    if ps != [] {
      var init, last := ps[..|ps| - 1], ps[|ps| - 1];
      WrapPackAll(mtu, st, init);
      WrapPacketsSnoc(init, last);
      assert init + [last] == ps;
      hide WrapPackets;
      PackAllSnoc(mtu, WrapPacking(st), WrapPackets(init), WrapPacket(last));
      PackAllSnoc(mtu, st, init, last);
      WrapPackOne(mtu, PackAll(mtu, st, init), last);
    }
  }

  lemma {:induction false} WrapDatagrams(mtu: nat, ps: seq<Packet>)
    ensures Datagrams(mtu, WrapPackets(ps)) == WrapNet(Datagrams(mtu, ps))
  {
    var st := Packing([], []);
    assert WrapPacking(st) == st;
    WrapPackAll(mtu, st, ps);
    WrapEmit(PackAll(mtu, st, ps));
    hide PackAll, WrapPackets, Emit;
  }

  lemma {:induction false} WrapNetAppend(a: Network, b: Network)
    ensures WrapNet(a + b) == WrapNet(a) + WrapNet(b)
  {
    hide WrapPackets;
  }

  // ---------------------------------------------------------------- a delivered datagram

  /** Every packet of the datagram is fresh when its turn comes, and so is the last acknowledgement at the end. */
  ghost predicate FreshPackets(k: Kcb, ps: seq<Packet>)
  {
    ps == [] ||
    (FreshPackets(k, ps[..|ps| - 1])
        && FreshPacket(InputPackets(false, InputState(k, NoAck), ps[..|ps| - 1]), ps[|ps| - 1]))
  }

  ghost predicate FreshDatagram(k: Kcb, ps: seq<Packet>)
  {
    && FreshPackets(k, ps)
    && var st := InputPackets(false, InputState(k, NoAck), ps);
       st.scan.Latest? ==> InRange(st.scan.sn, st.k.snd)
  }

  lemma {:induction false} InvWindows(w: World, k: Kcb)
    requires InvWith(w, k)
    ensures Windows(k) && k.snd.nxt <= k.snd.una + k.cfg.sndWnd
  {
    var v := w.(a := k);
    HalfSafe(v.a, v.b, v.ab, v.ba, v.sentA, v.gotB);
    HalfSafe(v.b, v.a, v.ba, v.ab, v.sentB, v.gotA);
    hide Half, Ordered, NoLoss, Readable;
  }

  lemma {:induction false} WrapInputPackets(w: World, k: Kcb, ps: seq<Packet>)
    requires InvWith(w, k) && FreshPackets(k, ps) && forall p :: p in ps ==> Sent(w.ba, p)
    ensures InputPackets(true, InputState(WrapKcb(k), NoAck), WrapPackets(ps))
         == (var s := InputPackets(false, InputState(k, NoAck), ps); InputState(WrapKcb(s.k), WrapScan(s.scan)))
    decreases |ps|
  {
    if ps != [] {
      var init, last := ps[..|ps| - 1], ps[|ps| - 1];
      var st := InputPackets(false, InputState(k, NoAck), init);
      hide InvWith, Sent, InputPacket, FreshPacket, WrapKcb, WrapScan, Windows;
      assert WrapPackets(ps)[..|ps| - 1] == WrapPackets(init);
      assert WrapPackets(ps)[|ps| - 1] == WrapPacket(last);
      WrapInputPackets(w, k, init);
      PacketsInv(w, k, init);
      InvWindows(w, st.k);
      HeaderInv(w, st.k, last);
      InvWindows(w, TakeHeader(false, st.k, last));
      hide InputPackets;
      WrapInputPacket(st, last);
    }
  }

  lemma {:induction false} UnaForward(snd: Sender, una: nat)
    requires Ordered(snd.buf, snd.una, snd.nxt) && snd.una <= snd.nxt
    ensures var s := Shrink(snd.(buf := DropAcked(false, snd.buf, una)));
            snd.una <= s.una && s.nxt == snd.nxt
  {
    DropAckedKeeps(snd.buf, una, snd.una, snd.nxt);
  }

  lemma {:induction false} UnaAckForward(snd: Sender, sn: nat)
    requires Ordered(snd.buf, snd.una, snd.nxt) && snd.una <= snd.nxt
    ensures var s := Shrink(ParseAck(false, snd, sn));
            snd.una <= s.una && s.nxt == snd.nxt
  {
    RemoveSnKeeps(snd.buf, sn, snd.una, snd.nxt);
  }

  lemma {:induction false} PacketUna(w: World, st: InputState, p: Packet)
    requires InvWith(w, st.k) && Sent(w.ba, p)
    ensures var k' := InputPacket(false, st, p).k;
            st.k.snd.una <= k'.snd.una && k'.snd.nxt == st.k.snd.nxt
  {
    var k1 := TakeHeader(false, st.k, p);
    HeaderInv(w, st.k, p);
    InvWindows(w, st.k);
    InvWindows(w, k1);
    UnaForward(st.k.snd, p.una);
    UnaAckForward(k1.snd, p.sn);
    hide InvWith, Sent, Windows, DropAcked, Shrink, ParseAck, UpdateRtt, ScanAck, TakePush;
  }

  lemma {:induction false} InputNone(st: InputState)
    ensures InputPackets(false, st, []) == st
  {
  }

  /** Processing a datagram moves snd_una forward inside the old window. */
  lemma {:induction false} UnaMoves(w: World, k: Kcb, ps: seq<Packet>)
    requires InvWith(w, k) && forall p :: p in ps ==> Sent(w.ba, p)
    ensures var k' := InputPackets(false, InputState(k, NoAck), ps).k;
            k.snd.una <= k'.snd.una && k'.snd.nxt == k.snd.nxt
    decreases |ps|
  {
    hide *;
    var st := InputState(k, NoAck);
    if ps == [] {
      InputNone(st);
      assert ps == [];
    } else {
      var init, last := ps[..|ps| - 1], ps[|ps| - 1];
      UnaMoves(w, k, init);
      PacketsInv(w, k, init);
      InputSnoc(false, st, ps);
      PacketUna(w, InputPackets(false, st, init), last);
    }
  }

  lemma {:induction false} WrapFinish(k: Kcb, prevUna: nat, st: InputState)
    requires Windows(st.k) && prevUna <= st.k.snd.una <= prevUna + k.cfg.sndWnd && k.cfg.sndWnd < TWO_31
    requires st.k.cfg == k.cfg
    requires st.scan.Latest? ==> InRange(st.scan.sn, st.k.snd)
    ensures FinishInput(true, U32(prevUna), InputState(WrapKcb(st.k), WrapScan(st.scan)))
            == WrapKcb(FinishInput(false, prevUna, st))
  {
    if st.scan.Latest? {
      WrapFastAckSnd(st.k.snd, k.cfg.sndWnd, st.scan.sn, st.scan.ts);
    }
    DiffExact(st.k.snd.una, prevUna);
    hide U32, TimeDiff, ParseFastAck, WrapSegs, WrapAcks, GrowWindow;
    FastAckUna(st.k.snd, st.scan);
  }

  lemma {:induction false} FastAckUna(snd: Sender, scan: Scan)
    ensures scan.Latest? ==> ParseFastAck(false, snd, scan.sn, scan.ts).una == snd.una
  {
  }

  lemma {:induction false} WrapInput(w: World, k: Kcb, ps: seq<Packet>)
    requires InvWith(w, k) && FreshDatagram(k, ps) && forall p :: p in ps ==> Sent(w.ba, p)
    ensures ValidConfig(k.cfg) && Input(true, WrapKcb(k), WrapPackets(ps)) == WrapKcb(Input(false, k, ps))
  {
    InvWindows(w, k);
    WrapInputPackets(w, k, ps);
    PacketsInv(w, k, ps);
    var st := InputPackets(false, InputState(k, NoAck), ps);
    InvWindows(w, st.k);
    UnaMoves(w, k, ps);
    InputKeepsConfig(false, InputState(k, NoAck), ps);
    InputKeepsConfig(true, InputState(WrapKcb(k), NoAck), WrapPackets(ps));
    WrapFinish(k, k.snd.una, st);
    hide InvWith, FinishInput, InputPackets, WrapPackets, U32, WrapSegs, WrapAcks, Sent;
  }

  // ---------------------------------------------------------------- whole runs

  function WrapWorld(w: World): World
  {
    World(WrapKcb(w.a), WrapKcb(w.b), WrapNet(w.ab), WrapNet(w.ba), w.sentA, w.sentB, w.gotA, w.gotB)
  }

  ghost predicate FreshEvent(w: World, e: Event)
  {
    e.Deliver? && e.index < |w.ba| ==> FreshDatagram(w.a, w.ba[e.index])
  }

  ghost predicate FreshAction(w: World, act: Action)
  {
    if act.atA then FreshEvent(w, act.event) else FreshEvent(Mirror(w), act.event)
  }

  /** Every datagram delivered in the run is fresh on arrival. */
  ghost predicate FreshRun(w: World, acts: seq<Action>)
    requires Configured(w)
  {
    acts == [] ||
    (FreshRun(w, acts[..|acts| - 1]) && FreshAction(Run(false, w, acts[..|acts| - 1]), acts[|acts| - 1]))
  }

  lemma {:induction false} WrapConfigured(w: World)
    ensures Configured(WrapWorld(w)) <==> Configured(w)
    ensures WrapWorld(Mirror(w)) == Mirror(WrapWorld(w))
  {
    hide WrapSnd, WrapRcv, WrapNet;
  }

  lemma {:induction false} WrapEmits(w: World, r: FlushResult)
    ensures Emits(WrapWorld(w), WrapResult(r)) == WrapWorld(Emits(w, r))
  {
    WrapDatagrams(w.a.cfg.mtu, r.ps);
    WrapNetAppend(w.ab, Datagrams(w.a.cfg.mtu, r.ps));
    hide WrapNet, Datagrams, WrapSnd, WrapRcv, WrapPackets;
  }

  lemma {:induction false} StepARefines(w: World, e: Event)
    requires Inv(w) && FreshEvent(w, e)
    ensures Configured(WrapWorld(w)) && StepA(true, WrapWorld(w), e) == WrapWorld(StepA(false, w, e))
  {
    WrapConfigured(w);
    assert w.(a := w.a) == w;
    InvWindows(w, w.a);
    hide Inv, WrapNet, WrapSnd, WrapRcv, Emits, FreshDatagram;
    match e
    case SendMessage(msg) =>
      WrapSend(w.a, msg);
      hide Send;
    case Tick(now) =>
      WrapUpdate(w.a, U32(now));
      WrapEmits(w, Update(false, w.a, U32(now)));
      hide Update, U32;
    case FlushNow =>
      WrapFlush(w.a);
      WrapEmits(w, Flush(false, w.a));
      hide Flush;
    case Deliver(i) =>
      if i < |w.ba| {
        assert forall p :: p in w.ba[i] ==> Sent(w.ba, p);
        WrapInput(w, w.a, w.ba[i]);
        hide Input;
      }
    case Receive(len) =>
      WrapRecv(w.a, len);
      hide Recv;
  }

  lemma {:induction false} StepRefines(w: World, act: Action)
    requires Inv(w) && FreshAction(w, act)
    ensures Configured(WrapWorld(w)) && Step(true, WrapWorld(w), act) == WrapWorld(Step(false, w, act))
  {
    WrapConfigured(w);
    WrapConfigured(Mirror(w));
    InvMirror(w);
    StepARefines(if act.atA then w else Mirror(w), act.event);
    assert Configured(w) && Configured(Mirror(w));
    hide Inv, StepA, FreshEvent;
    WrapConfigured(StepA(false, if act.atA then w else Mirror(w), act.event));
  }

  lemma {:induction false} RunRefines(w: World, acts: seq<Action>)
    requires Inv(w) && FreshRun(w, acts)
    ensures Configured(WrapWorld(w)) && Run(true, WrapWorld(w), acts) == WrapWorld(Run(false, w, acts))
    decreases |acts|
  {
    WrapConfigured(w);
    if acts != [] {
      var init, last := acts[..|acts| - 1], acts[|acts| - 1];
      hide Inv, Step, WrapWorld, FreshAction;
      RunRefines(w, init);
      RunInv(w, init);
      StepRefines(Run(false, w, init), last);
    }
  }

  lemma {:induction false} WrapStart(ca: Config, cb: Config)
    ensures WrapWorld(Start(ca, cb)) == Start(ca, cb)
  {
    assert U32(0) == 0;
  }

  /** What safety means for 32-bit endpoints. */
  ghost predicate WrappedSafe(v: World)
  {
    && v.gotB <= v.sentA && v.gotA <= v.sentB
    && Readable(v.a) && Readable(v.b)
    && U32(v.a.snd.nxt - v.a.snd.una) <= v.a.cfg.sndWnd && U32(v.b.snd.nxt - v.b.snd.una) <= v.b.cfg.sndWnd
    && UnaIsHead(v.a.snd) && UnaIsHead(v.b.snd)
  }

  lemma {:induction false} WrapReadable(k: Kcb)
    requires Readable(k)
    ensures Readable(WrapKcb(k))
  {
    WrapPeekSize(k.rcv.queue);
    hide U32, PeekSize, Join, MessageEnd, WrapAcks, WrapSnd;
  }

  lemma {:induction false} WrapWindow(k: Kcb)
    requires WindowOk(k) && ValidConfig(k.cfg)
    ensures var s := WrapKcb(k).snd;
            U32(s.nxt - s.una) <= k.cfg.sndWnd && UnaIsHead(s)
  {
    U32Sub(k.snd.nxt, k.snd.una);
    assert U32(k.snd.nxt - k.snd.una) == k.snd.nxt - k.snd.una;
    hide U32, Ordered;
  }

  lemma {:induction false} WrapSafe(w: World)
    requires Safe(w) && Configured(w)
    ensures WrappedSafe(WrapWorld(w))
  {
    WrapReadable(w.a);
    WrapReadable(w.b);
    WrapWindow(w.a);
    WrapWindow(w.b);
    hide U32, Readable, WindowOk, NoLoss, UnaIsHead, WrapNet, WrapSnd, WrapRcv;
  }

  /**
   Every run of 32-bit endpoints in which delivered datagrams are fresh, however many segments it
   sends, is the reduction of a run of the unbounded protocol and delivers exactly what was sent.
   */
  lemma {:induction false} EveryFreshRunSafe(ca: Config, cb: Config, acts: seq<Action>)
    requires Configured(Start(ca, cb)) && FreshRun(Start(ca, cb), acts)
    ensures Run(true, Start(ca, cb), acts) == WrapWorld(Run(false, Start(ca, cb), acts))
    ensures WrappedSafe(Run(true, Start(ca, cb), acts))
  {
    var w := Start(ca, cb);
    StartInv(ca, cb);
    WrapStart(ca, cb);
    RunRefines(w, acts);
    EveryRunSafe(ca, cb, acts);
    hide Safe, WrappedSafe, Run, FreshRun;
    WrapSafe(Run(false, w, acts));
  }

  // ---------------------------------------------------------------- runs too short to wrap

  /** At most 2^31 + 1 segments in each direction, so that numbers are at most 2^31 apart. */
  ghost predicate Small(w: World)
    requires Configured(w)
  {
    |Stream(w.sentA, w.a.cfg.Mss())| <= TWO_31 + 1 && |Stream(w.sentB, w.b.cfg.Mss())| <= TWO_31 + 1
  }

  /** Numbers an endpoint can see never exceed the two streams. */
  lemma {:induction false} PacketBounds(w: World, k: Kcb, p: Packet)
    requires InvWith(w, k) && Sent(w.ba, p) && ValidConfig(k.cfg) && ValidConfig(w.b.cfg)
    ensures var nA, nB := |Stream(w.sentA, k.cfg.Mss())|, |Stream(w.sentB, w.b.cfg.Mss())|;
            && p.una <= k.snd.nxt && k.snd.una <= k.snd.nxt <= nA && k.rcv.nxt <= nB
            && k.snd.nxt <= k.snd.una + k.cfg.sndWnd
            && (p.cmd == CMD_ACK as int ==> p.sn < k.snd.nxt)
            && (p.cmd == CMD_PUSH as int ==> p.sn < nB)
  {
    var r := w.b.rcv;
    assert AckGenuine(p, r);
    assert DataGenuine(p, w.b.snd.nxt, Stream(w.sentB, w.b.cfg.Mss()));
    if p.cmd == CMD_ACK as int && p.sn >= r.nxt {
      var i :| 0 <= i < |r.buf| && r.buf[i].sn == p.sn;
    }
    hide Stream, Sent, NoLoss, Delivered;
  }

  lemma {:induction false} SmallPacketFresh(w: World, st: InputState, p: Packet)
    requires InvWith(w, st.k) && Sent(w.ba, p)
    requires Configured(w.(a := st.k)) && Small(w.(a := st.k))
    requires st.scan.Latest? ==> st.scan.sn < |Stream(w.sentA, st.k.cfg.Mss())|
    ensures FreshPacket(st, p)
  {
    assert TakeHeader(false, st.k, p).cfg == st.k.cfg;
    hide Stream, Sent, InvWith, TakeHeader;
    PacketBounds(w, st.k, p);
    HeaderInv(w, st.k, p);
    PacketBounds(w, TakeHeader(false, st.k, p), p);
  }

  /** The acknowledgement kept by the scan is one that arrived. */
  lemma {:induction false} ScanBound(w: World, k: Kcb, ps: seq<Packet>)
    requires InvWith(w, k) && Configured(w.(a := k)) && forall p :: p in ps ==> Sent(w.ba, p)
    ensures var st := InputPackets(false, InputState(k, NoAck), ps);
            && ValidConfig(k.cfg) && (st.scan.Latest? ==> st.scan.sn < k.snd.nxt <= |Stream(w.sentA, k.cfg.Mss())|)
    decreases |ps|
  {
    if ps != [] {
      var init, last := ps[..|ps| - 1], ps[|ps| - 1];
      hide InvWith, Sent, Stream, TakeHeader, TakeAck, TakePush;
      ScanBound(w, k, init);
      InvWindows(w, k);
      PacketBounds(w, k, last);
      hide Windows, Ahead;
    } else {
      InvWindows(w, k);
    }
  }

  lemma {:induction false} SmallPacketsFresh(w: World, k: Kcb, ps: seq<Packet>)
    requires InvWith(w, k) && Configured(w.(a := k)) && Small(w.(a := k))
    requires forall p :: p in ps ==> Sent(w.ba, p)
    ensures FreshPackets(k, ps)
    decreases |ps|
  {
    if ps != [] {
      var init, last := ps[..|ps| - 1], ps[|ps| - 1];
      var st := InputPackets(false, InputState(k, NoAck), init);
      hide InvWith, Sent, Stream, InputPackets, FreshPacket;
      SmallPacketsFresh(w, k, init);
      PacketsInv(w, k, init);
      ScanBound(w, k, init);
      InputKeepsConfig(false, InputState(k, NoAck), init);
      SmallPacketFresh(w, st, last);
    }
  }

  lemma {:induction false} SmallDatagramFresh(w: World, k: Kcb, ps: seq<Packet>)
    requires InvWith(w, k) && Configured(w.(a := k)) && Small(w.(a := k))
    requires forall p :: p in ps ==> Sent(w.ba, p)
    ensures FreshDatagram(k, ps)
  {
    var st := InputPackets(false, InputState(k, NoAck), ps);
    hide Sent, Stream, InputPackets, FreshPackets;
    SmallPacketsFresh(w, k, ps);
    PacketsInv(w, k, ps);
    ScanBound(w, k, ps);
    InputKeepsConfig(false, InputState(k, NoAck), ps);
    UnaMoves(w, k, ps);
    InvWindows(w, st.k);
    UnaBound(w, st.k);
  }

  lemma {:induction false} UnaBound(w: World, k: Kcb)
    requires InvWith(w, k)
    ensures ValidConfig(k.cfg) && k.snd.una <= k.snd.nxt <= |Stream(w.sentA, k.cfg.Mss())|
  {
    hide Stream, ReceiverOk, NoLoss, Forward, Backward, Delivered;
  }

  lemma {:induction false} SmallFresh(w: World, act: Action)
    requires Inv(w) && Small(w)
    ensures FreshAction(w, act)
  {
    var v := if act.atA then w else Mirror(w);
    InvMirror(w);
    assert v.(a := v.a) == v;
    assert Configured(v) && Small(v);
    hide Inv, Small, FreshDatagram;
    if act.event.Deliver? && act.event.index < |v.ba| {
      assert forall p :: p in v.ba[act.event.index] ==> Sent(v.ba, p);
      assert InvWith(v, v.a);
      SmallDatagramFresh(v, v.a, v.ba[act.event.index]);
    }
  }

  /** Sent messages only accumulate. */
  lemma {:induction false} StepAGrows(wrap: bool, w: World, e: Event)
    requires Configured(w)
    ensures w.sentA <= StepA(wrap, w, e).sentA && w.sentB == StepA(wrap, w, e).sentB
  {
    hide Send, Update, Flush, Input, Recv, Datagrams;
  }

  lemma {:induction false} SmallBefore(wrap: bool, w: World, act: Action)
    requires Configured(w) && Configured(Step(wrap, w, act)) && Small(Step(wrap, w, act))
    ensures Small(w)
  {
    var v := Step(wrap, w, act);
    StepConfigured(wrap, w, act);
    StepAGrows(wrap, if act.atA then w else Mirror(w), act.event);
    assert w.sentA <= v.sentA && w.sentB <= v.sentB;
    hide StepA, Stream;
    StreamMonotone(w.sentA, v.sentA, w.a.cfg.Mss());
    StreamMonotone(w.sentB, v.sentB, w.b.cfg.Mss());
  }

  lemma {:induction false} StreamMonotone(a: seq<Msg>, b: seq<Msg>, mss: nat)
    requires mss > 0 && a <= b
    ensures |Stream(a, mss)| <= |Stream(b, mss)|
  {
    assert b[..|a|] == a;
    StreamPrefix(b, |a|, mss);
  }

  lemma {:induction false} SmallRunFresh(w: World, acts: seq<Action>)
    requires Inv(w) && Configured(WrapWorld(w)) && Small(Run(true, WrapWorld(w), acts))
    ensures FreshRun(w, acts)
    decreases |acts|
  {
    if acts != [] {
      var init, last := acts[..|acts| - 1], acts[|acts| - 1];
      hide Inv, Step, WrapWorld, FreshAction, Small;
      SmallBefore(true, Run(true, WrapWorld(w), init), last);
      SmallRunFresh(w, init);
      RunRefines(w, init);
      RunInv(w, init);
      SmallUnwraps(Run(false, w, init));
      SmallFresh(Run(false, w, init), last);
    }
  }

  lemma {:induction false} SmallUnwraps(w: World)
    requires Configured(w) && Configured(WrapWorld(w)) && Small(WrapWorld(w))
    ensures Small(w)
  {
    hide Stream, WrapNet, WrapSnd, WrapRcv;
  }

  /**
   32-bit endpoints that have each sent at most 2^31 + 1 segments deliver exactly a prefix of what
   was sent, whatever the network loses, repeats or reorders.
   */
  lemma {:induction false} EveryShortRunSafe(ca: Config, cb: Config, acts: seq<Action>)
    requires Configured(Start(ca, cb)) && Small(Run(true, Start(ca, cb), acts))
    ensures WrappedSafe(Run(true, Start(ca, cb), acts))
    ensures Run(true, Start(ca, cb), acts) == WrapWorld(Run(false, Start(ca, cb), acts))
  {
    var w := Start(ca, cb);
    StartInv(ca, cb);
    WrapStart(ca, cb);
    hide WrappedSafe, Small, Inv, WrapWorld;
    SmallRunFresh(w, acts);
    EveryFreshRunSafe(ca, cb, acts);
  }

  // ---------------------------------------------------------------- the datagrams as octets

  /** Each emitted datagram prints to 1..mtu octets that parse back to its packets. */
  lemma {:induction false} EveryDatagramParses(w: World, i: nat)
    requires Inv(w) && i < |w.ab|
    ensures var d := WrapPackets(w.ab[i]);
            && AllFit(d) && 0 < |PrintAll(d)| <= w.a.cfg.mtu
            && Parse(w.a.cfg.conv, PrintAll(d)) == Parsed(d, 0)
  {
    var ps := w.ab[i];
    var d := WrapPackets(ps);
    WrapTotalSize(ps);
    forall j | 0 <= j < |d|
      ensures Fits(d[j]) && d[j].conv == w.a.cfg.conv
    {
      assert Sent(w.ab, ps[j]);
      assert HeaderOk(ps[j], w.a.cfg.conv);
      PieceOfTotal(ps, j);
    }
    hide Flow, Parse, PrintAll, WrapPackets, TotalSize;
    ParsePrinted(w.a.cfg.conv, d);
  }

  lemma {:induction false} PieceOfTotal(ps: seq<Packet>, j: nat)
    requires j < |ps|
    ensures |ps[j].data| <= TotalSize(ps)
    decreases |ps|
  {
    if j < |ps| - 1 {
      PieceOfTotal(ps[..|ps| - 1], j);
    }
  }
}
