/**
 Progress between two tunnels.  From every reachable state the endpoints can go on, without sending
 anything new, so that every message arrives and is read and nothing is left queued or outstanding:
 retransmission timers bring lost segments again, reading and window probes open a closed window.
 */
module KcpProgress {
  import opened Bytes
  import opened KcpSpec
  import opened KcpWire
  import opened KcpLists
  import opened KcpMessages
  import opened KcpFlow
  import opened KcpWorld
  import opened KcpWrap
  import opened KcpRefine
  import opened KcpReassembly
  import opened KcpTunnel

  // ---------------------------------------------------------------- continuations

  ghost predicate Live(w: World)
  {
    Inv(w) && BothDrained(w) && Plain(w.a.cfg) && Plain(w.b.cfg)
  }

  predicate NoSends(acts: seq<Action>)
  {
    forall i :: 0 <= i < |acts| ==> !acts[i].event.SendMessage?
  }

  /** Events that send no message lead from w to v. */
  ghost predicate Leads(w: World, acts: seq<Action>, v: World)
  {
    Configured(w) && NoSends(acts) && Run(false, w, acts) == v
  }

  /** v is a later state with the same messages sent. */
  ghost predicate Later(w: World, v: World)
  {
    && Live(v) && v.sentA == w.sentA && v.sentB == w.sentB && w.gotA <= v.gotA && w.gotB <= v.gotB
    && v.a.cfg == w.a.cfg && v.b.cfg == w.b.cfg
    && w.a.snd.una <= v.a.snd.una && w.b.snd.una <= v.b.snd.una
    && |w.ab| <= |v.ab| && |w.ba| <= |v.ba|
  }

  /** What arrives was sent after the first ab and ba datagrams. */
  predicate OnlyNew(acts: seq<Action>, ab: nat, ba: nat)
  {
    forall i :: 0 <= i < |acts| && acts[i].event.Deliver? ==> acts[i].event.index >= if acts[i].atA then ba else ab
  }

  lemma {:induction false} NewJoin(acts: seq<Action>, more: seq<Action>, ab: nat, ba: nat, ab': nat, ba': nat)
    requires OnlyNew(acts, ab, ba) && OnlyNew(more, ab', ba') && ab <= ab' && ba <= ba'
    ensures OnlyNew(acts + more, ab, ba)
  {
  }

  lemma {:induction false} NewFlip(acts: seq<Action>, ab: nat, ba: nat)
    requires OnlyNew(acts, ba, ab)
    ensures OnlyNew(Flip(acts), ab, ba)
  {
  }

  lemma {:induction false} NewOne(act: Action, ab: nat, ba: nat)
    requires act.event.Deliver? ==> act.event.index >= if act.atA then ba else ab
    ensures OnlyNew([act], ab, ba)
  {
  }

  lemma {:induction false} NewNone(ab: nat, ba: nat)
    ensures OnlyNew([], ab, ba)
  {
  }

  lemma {:induction false} LaterNets(w: World, v: World)
    requires Later(w, v)
    ensures |w.ab| <= |v.ab| && |w.ba| <= |v.ba|
  {
  }

  lemma {:induction false} RunAppend(wrap: bool, w: World, acts: seq<Action>, more: seq<Action>)
    requires Configured(w)
    ensures Run(wrap, w, acts + more) == Run(wrap, Run(wrap, w, acts), more)
    decreases |more|
  {
    hide Step;
    if more == [] {
      assert acts + [] == acts;
    } else {
      RunAppend(wrap, w, acts, more[..|more| - 1]);
      assert (acts + more)[..|acts + more| - 1] == acts + more[..|more| - 1];
    }
  }

  lemma {:induction false} LeadsOn(w: World, acts: seq<Action>, v: World, more: seq<Action>, u: World)
    requires Leads(w, acts, v) && Leads(v, more, u)
    ensures Leads(w, acts + more, u)
  {
    RunAppend(false, w, acts, more);
    hide Run;
  }

  lemma {:induction false} LeadsOne(w: World, act: Action)
    requires Configured(w) && !act.event.SendMessage?
    ensures Leads(w, [act], Step(false, w, act))
  {
    assert [act][..0] == [];
    assert Run(false, w, [act][..0]) == w;
    hide Step;
  }

  lemma {:induction false} LeadsNowhere(w: World)
    requires Configured(w)
    ensures Leads(w, [], w)
  {
  }

  function Flip(acts: seq<Action>): (r: seq<Action>)
    ensures |r| == |acts|
  {
    seq(|acts|, i requires 0 <= i < |acts| => Action(!acts[i].atA, acts[i].event))
  }

  lemma {:induction false} RunFlip(w: World, acts: seq<Action>)
    requires Configured(w)
    ensures Configured(Mirror(w)) && Run(false, Mirror(w), Flip(acts)) == Mirror(Run(false, w, acts))
    decreases |acts|
  {
    hide StepA;
    if acts != [] {
      RunFlip(w, acts[..|acts| - 1]);
      assert Flip(acts)[..|acts| - 1] == Flip(acts[..|acts| - 1]);
    }
  }

  lemma {:induction false} LeadsMirror(w: World, acts: seq<Action>, v: World)
    requires Leads(Mirror(w), acts, v)
    ensures Leads(w, Flip(acts), Mirror(v))
  {
    RunFlip(Mirror(w), acts);
    hide Run;
  }

  lemma {:induction false} LaterMirror(w: World, v: World)
    ensures Later(w, v) <==> Later(Mirror(w), Mirror(v))
    ensures Live(w) <==> Live(Mirror(w))
  {
    InvMirror(v);
    InvMirror(w);
    hide Inv, Drained, Plain;
  }

  lemma {:induction false} LaterStill(w: World, v: World, u: World)
    requires Later(w, v) && Later(v, u)
    ensures Later(w, u)
  {
    hide Live;
  }

  // ---------------------------------------------------------------- nothing goes backwards

  lemma {:induction false} LiveWindows(w: World)
    requires Live(w)
    ensures Configured(w) && Ordered(w.a.snd.buf, w.a.snd.una, w.a.snd.nxt) && w.a.snd.una <= w.a.snd.nxt
  {
    hide Drained, Plain;
    assert w.(a := w.a) == w;
    InvWindows(w, w.a);
  }

  lemma {:induction false} FlushUna(k: Kcb)
    requires ValidConfig(k.cfg)
    ensures Flush(false, k).k.snd.una == k.snd.una
  {
    if k.tm.updated {
      FlushParts(k);
      LaunchUna(Quiet(k), SendWindow(k));
      hide Flush, Launch, SweepUpto, ControlPackets, SendWindow;
    }
  }

  lemma {:induction false} LaunchUna(k: Kcb, cwnd: nat)
    ensures Launch(false, k, cwnd).snd.una == k.snd.una
    decreases |k.snd.queue|
  {
    hide Launch, Launched, Unused;
    LaunchUnfolds(false, k, cwnd);
    if k.snd.queue != [] {
      LaunchUna(LaunchedOne(false, k), cwnd);
    }
  }

  lemma {:induction false} UpdateUna(k: Kcb, now: nat)
    requires ValidConfig(k.cfg)
    ensures Update(false, k, now).k.snd.una == k.snd.una
  {
    UpdateIsFlush(false, k, now);
    assert UpdateClock(k, now) == k.(tm := UpdateClock(k, now).tm);
    FlushUna(UpdateClock(k, now));
    hide Update, Flush, UpdateClock, UpdateFlushes;
  }

  lemma {:induction false} DeliverUna(w: World, ps: seq<Packet>)
    requires Inv(w) && forall p :: p in ps ==> Sent(w.ba, p)
    ensures ValidConfig(w.a.cfg) && w.a.snd.una <= Input(false, w.a, ps).snd.una
  {
    assert w.(a := w.a) == w;
    UnaMoves(w, w.a, ps);
    var st := InputPackets(false, InputState(w.a, NoAck), ps);
    FastAckUna(st.k.snd, st.scan);
    hide Half, Sent, InputPackets, ParseFastAck, GrowWindow;
    InputKeepsConfig(false, InputState(w.a, NoAck), ps);
  }

  /** Nothing an event of a does takes back what was acknowledged or read. */
  lemma {:induction false} StepAKeeps(w: World, e: Event)
    requires Inv(w) && !e.SendMessage?
    ensures var v := StepA(false, w, e);
            && v.sentA == w.sentA && w.gotA <= v.gotA && w.a.snd.una <= v.a.snd.una && |w.ab| <= |v.ab|
            && v == w.(a := v.a, ab := v.ab, sentA := v.sentA, gotA := v.gotA)
  {
    match e
    case Tick(now) =>
      UpdateUna(w.a, U32(now));
      hide Update, Datagrams, Half;
    case FlushNow =>
      FlushUna(w.a);
      hide Flush, Datagrams, Half;
    case Deliver(i) =>
      if i < |w.ba| {
        assert forall p :: p in w.ba[i] ==> Sent(w.ba, p);
        DeliverUna(w, w.ba[i]);
        hide Input, Half;
      }
    case Receive(len) =>
      RecvFrame(w.a, len);
      hide Recv, Half;
  }

  lemma {:induction false} StepLater(w: World, act: Action)
    requires Live(w) && !act.event.SendMessage?
    ensures Later(w, Step(false, w, act))
  {
    var v := if act.atA then w else Mirror(w);
    LaterMirror(w, w);
    StepALater(v, act.event);
    LaterMirror(v, StepA(false, v, act.event));
    hide StepA, Live, Later;
  }

  lemma {:induction false} StepALater(w: World, e: Event)
    requires Live(w) && !e.SendMessage?
    ensures Later(w, StepA(false, w, e))
  {
    StepInv(w, Action(true, e));
    StepADrained(false, w, e);
    StepAConfigured(false, w, e);
    StepAKeeps(w, e);
    hide StepA, Inv, BothDrained, Plain;
  }

  lemma {:induction false} LeadsLater(w: World, acts: seq<Action>, v: World)
    requires Live(w) && Leads(w, acts, v)
    ensures Later(w, v)
    decreases |acts|
  {
    if acts == [] {
      hide Live;
    } else {
      hide Live, Later, Step;
      var init := acts[..|acts| - 1];
      var u := Run(false, w, init);
      LeadsLater(w, init, u);
      LaterIsLive(w, u);
      StepLater(u, acts[|acts| - 1]);
      LaterStill(w, u, v);
    }
  }

  lemma {:induction false} LaterIsLive(w: World, v: World)
    requires Later(w, v)
    ensures Live(v)
  {
  }

  // ---------------------------------------------------------------- a flush at a chosen time

  ghost function FlushedAt(w: World, now: nat): World
    requires Configured(w)
  {
    Emits(w, Flush(false, UpdateClock(w.a, U32(now))))
  }

  lemma {:induction false} EmitsNothing(w: World, k: Kcb)
    requires k.cfg == w.a.cfg
    ensures Emits(w, FlushResult(k, [])) == w.(a := k)
  {
    assert Datagrams(w.a.cfg.mtu, []) == [];
    assert w.ab + [] == w.ab;
  }

  /** Setting the clock flushes by itself, or leaves a flush that can be asked for. */
  lemma {:induction false} FlushAt(w: World, now: nat) returns (acts: seq<Action>)
    requires Configured(w)
    ensures Leads(w, acts, FlushedAt(w, now)) && OnlyNew(acts, |w.ab|, |w.ba|)
  {
    var tick, flush := Action(true, Tick(now)), Action(true, FlushNow);
    var k := UpdateClock(w.a, U32(now));
    assert k == w.a.(tm := k.tm) && k.tm.updated;
    UpdateIsFlush(false, w.a, U32(now));
    EmitsNothing(w, k);
    hide Update, Flush, UpdateClock, UpdateFlushes, Datagrams;
    LeadsOne(w, tick);
    if UpdateFlushes(w.a, U32(now)) {
      acts := [tick];
    } else {
      assert Step(false, w, tick) == w.(a := k);
      LeadsOne(w.(a := k), flush);
      LeadsOn(w, [tick], w.(a := k), [flush], Emits(w.(a := k), Flush(false, k)));
      acts := [tick] + [flush];
    }
  }

  lemma {:induction false} ClockKeeps(k: Kcb, now: nat)
    ensures var c := UpdateClock(k, U32(now));
            c == k.(tm := c.tm) && c.tm.updated && c.tm.current == U32(now)
            && c.tm.probeWait == k.tm.probeWait && c.tm.tsProbe == k.tm.tsProbe
            && c.tm.askSend == k.tm.askSend && c.tm.askTell == k.tm.askTell
  {
    hide U32, TimeDiff;
  }

  /** A packet of a flush is in one of the datagrams it adds. */
  lemma {:induction false} FindDatagram(w: World, r: FlushResult, p: Packet) returns (i: nat)
    requires p in r.ps && r.k.cfg == w.a.cfg && forall q :: q in r.ps ==> WireSize(q) <= w.a.cfg.mtu
    ensures |w.ab| <= i < |Emits(w, r).ab| && p in Emits(w, r).ab[i]
    ensures forall q :: q in Emits(w, r).ab[i] ==> q in r.ps
  {
    hide *;
    var j := DatagramOf(w.a.cfg.mtu, r.ps, p);
    i := |w.ab| + j;
    EmittedAt(w, r, j);
  }

  lemma {:induction false} EmittedAt(w: World, r: FlushResult, j: nat)
    requires j < |Datagrams(w.a.cfg.mtu, r.ps)|
    ensures |w.ab| + j < |Emits(w, r).ab| && Emits(w, r).ab[|w.ab| + j] == Datagrams(w.a.cfg.mtu, r.ps)[j]
  {
    hide Datagrams;
  }

  lemma {:induction false} DatagramOf(mtu: nat, ps: seq<Packet>, p: Packet) returns (j: nat)
    requires p in ps && forall q :: q in ps ==> WireSize(q) <= mtu
    ensures j < |Datagrams(mtu, ps)| && p in Datagrams(mtu, ps)[j]
    ensures forall q :: q in Datagrams(mtu, ps)[j] ==> q in ps
  {
    DatagramsCarry(mtu, ps);
    DatagramMembers(mtu, ps);
    hide *;
    j := InFlat(Datagrams(mtu, ps), p);
  }

  lemma {:induction false} InFlat(ds: seq<seq<Packet>>, p: Packet) returns (j: nat)
    requires p in Flatten(ds)
    ensures j < |ds| && p in ds[j]
    decreases |ds|
  {
    if p in ds[|ds| - 1] {
      j := |ds| - 1;
    } else {
      j := InFlat(ds[..|ds| - 1], p);
    }
  }

  /** Packets of a flush fit a datagram. */
  lemma {:induction false} FlushFits(w: World, now: nat)
    requires Live(w)
    ensures var c := UpdateClock(w.a, U32(now));
            && Flush(false, c).k.cfg == w.a.cfg
            && forall p :: p in Flush(false, c).ps ==> WireSize(p) <= w.a.cfg.mtu
  {
    var c := UpdateClock(w.a, U32(now));
    ClockKeeps(w.a, now);
    FlushConfig(false, c);
    assert TimesOk(c);
    assert forall a :: a in c.rcv.acks ==> Held(c.rcv, a.sn);
    hide Flow, Held, Flush, UpdateClock, Drained, DatagramsOk;
    FlushFlow(c, w.b.rcv, w.b.cfg.rcvWnd, w.ab, w.ba, w.sentA, w.gotB);
  }

  // ---------------------------------------------------------------- what a flush sends

  lemma {:induction false} SweepSends(k: Kcb, n: nat, i: nat)
    requires i < n <= |k.snd.buf| && !WhySend(k, k.snd.buf[i]).Idle?
    ensures DataPacket(k, Flushed(k, k.snd.buf[i])) in SweepUpto(k, n).ps
    decreases n
  {
    hide Flushed, WhySend, DataPacket;
    if i < n - 1 {
      SweepSends(k, n - 1, i);
    }
  }

  lemma {:induction false} LaunchKeepsHead(k: Kcb, cwnd: nat)
    requires k.snd.buf != []
    ensures Launch(false, k, cwnd).snd.buf != [] && Launch(false, k, cwnd).snd.buf[0] == k.snd.buf[0]
    decreases |k.snd.queue|
  {
    hide Launch, Launched, Unused;
    LaunchUnfolds(false, k, cwnd);
    if k.snd.queue != [] {
      LaunchKeepsHead(LaunchedOne(false, k), cwnd);
    }
  }

  /** At its retransmission time the oldest outstanding segment is sent. */
  lemma {:induction false} HeadSent(k: Kcb) returns (p: Packet)
    requires ValidConfig(k.cfg) && k.tm.updated && k.snd.buf != [] && k.tm.current == U32(k.snd.buf[0].resendTs)
    ensures p in Flush(false, k).ps && p.cmd == CMD_PUSH as int && p.sn == k.snd.buf[0].sn
  {
    var seg := k.snd.buf[0];
    var l := Launch(false, Quiet(k), SendWindow(k));
    FlushParts(k);
    LaunchKeepsHead(Quiet(k), SendWindow(k));
    DueNow(l, seg);
    hide Flush, Launch, SweepUpto, ControlPackets, Quiet, SendWindow, Flushed, WhySend;
    SweepSends(l, |l.snd.buf|, 0);
    FlushedSame(l, seg);
    p := DataPacket(l, Flushed(l, seg));
  }

  lemma {:induction false} DueNow(k: Kcb, seg: Segment)
    requires k.tm.current == U32(seg.resendTs)
    ensures WhySend(k, seg) != Idle
  {
    assert TimeDiff(k.tm.current, seg.resendTs) == 0;
    hide TimeDiff, U32;
  }

  // ---------------------------------------------------------------- data answered

  ghost predicate Acks(r: Receiver, sn: nat)
  {
    exists i :: 0 <= i < |r.acks| && r.acks[i].sn == sn
  }

  lemma {:induction false} PushAnswered(r: Receiver, wnd: nat, p: Packet, sn: nat)
    requires sn <= r.nxt && r.nxt + wnd <= sn + TWO_31 && wnd > 0
    ensures var r' := TakePush(false, r, wnd, p);
            r.nxt <= r'.nxt && (Acks(r, sn) || p.sn == sn ==> Acks(r', sn))
  {
    var acks := r.acks + [Ack(p.sn, p.ts)];
    var stored := Receiver(r.nxt, r.queue, Insert(false, r.buf, Arrived(p)), acks);
    DrainAcks(stored, wnd);
    DrainForward(stored, wnd);
    hide Drain, Insert;
    assert forall i :: 0 <= i < |r.acks| ==> acks[i] == r.acks[i];
    assert acks[|r.acks|] == Ack(p.sn, p.ts);
  }

  lemma {:induction false} OtherReceiver(st: InputState, p: Packet)
    requires p.cmd != CMD_PUSH as int
    ensures InputPacket(false, st, p).k.rcv == st.k.rcv
  {
    hide TakePush, Shrink, ParseAck, DropAcked, UpdateRtt;
  }

  lemma {:induction false} PushReceiver(st: InputState, p: Packet)
    requires p.cmd == CMD_PUSH as int
    ensures InputPacket(false, st, p).k.rcv == TakePush(false, st.k.rcv, st.k.cfg.rcvWnd, p)
  {
    hide TakePush, Shrink, ParseAck, DropAcked, UpdateRtt;
  }

  lemma {:induction false} NearSender(w: World, k: Kcb)
    requires InvWith(w, k)
    ensures k.rcv.nxt <= w.b.snd.nxt <= w.b.snd.una + w.b.cfg.sndWnd
  {
    hide Stream, Delivered, Forward, Backward, NoLoss;
  }

  /** A data packet numbered below the window's end is acknowledged, whatever else the datagram holds. */
  lemma {:induction false} PushesAnswered(w: World, k: Kcb, ps: seq<Packet>, sn: nat)
    requires InvWith(w, k) && Plain(k.cfg) && Plain(w.b.cfg) && forall p :: p in ps ==> Sent(w.ba, p)
    requires w.b.snd.una == sn <= k.rcv.nxt
    ensures var k' := InputPackets(false, InputState(k, NoAck), ps).k;
            && k.rcv.nxt <= k'.rcv.nxt
            && ((exists p :: p in ps && p.cmd == CMD_PUSH as int && p.sn == sn) ==> Acks(k'.rcv, sn))
    decreases |ps|
  {
    if ps != [] {
      var init, last := ps[..|ps| - 1], ps[|ps| - 1];
      var st := InputPackets(false, InputState(k, NoAck), init);
      hide InvWith, Sent, InputPacket, TakePush, Acks;
      PushesAnswered(w, k, init, sn);
      PacketsInv(w, k, init);
      InputKeepsConfig(false, InputState(k, NoAck), init);
      NearSender(w, st.k);
      if last.cmd == CMD_PUSH as int {
        PushReceiver(st, last);
        PushAnswered(st.k.rcv, 128, last, sn);
      } else {
        OtherReceiver(st, last);
      }
    }
  }

  /** Delivering a datagram that holds segment snd_una of the far side leaves an acknowledgement pending. */
  lemma {:induction false} DeliverAnswers(w: World, i: nat, p: Packet)
    requires Live(w) && i < |w.ba| && p in w.ba[i] && p.cmd == CMD_PUSH as int && p.sn == w.b.snd.una <= w.a.rcv.nxt
    ensures Acks(StepA(false, w, Deliver(i)).a.rcv, p.sn)
  {
    assert w.(a := w.a) == w;
    assert forall q :: q in w.ba[i] ==> Sent(w.ba, q);
    PushesAnswered(w, w.a, w.ba[i], p.sn);
    var st := InputPackets(false, InputState(w.a, NoAck), w.ba[i]);
    InputKeepsConfig(false, InputState(w.a, NoAck), w.ba[i]);
    hide Inv, InputPackets, ParseFastAck, GrowWindow, Acks, Sent;
  }

  /** A flush sends every pending acknowledgement. */
  lemma {:induction false} AckSent(k: Kcb, sn: nat) returns (p: Packet)
    requires ValidConfig(k.cfg) && k.tm.updated && Acks(k.rcv, sn)
    ensures p in Flush(false, k).ps && p.cmd == CMD_ACK as int && p.sn == sn
  {
    FlushParts(k);
    var i :| 0 <= i < |k.rcv.acks| && k.rcv.acks[i].sn == sn;
    p := AckPackets(k, |k.rcv.acks|)[i];
    hide Flush, Launch, SweepUpto, ProbePackets, SendWindow;
    assert p in AckPackets(k, |k.rcv.acks|);
  }

  // ---------------------------------------------------------------- acknowledgement taken

  lemma {:induction false} AckMoves(snd: Sender, sn: nat)
    requires Ordered(snd.buf, snd.una, snd.nxt) && UnaIsHead(snd) && sn <= snd.una && sn < snd.nxt && snd.una <= snd.nxt
    ensures sn < Shrink(ParseAck(false, snd, sn)).una
  {
    if sn < snd.una {
      UnaAckForward(snd, sn);
    } else {
      assert snd.buf != [] && snd.buf[0].sn == sn;
      assert RemoveSn(false, snd.buf, sn) == snd.buf[1..];
      assert snd.buf[1..] != [] ==> snd.buf[1..][0] == snd.buf[1];
    }
  }

  lemma {:induction false} AckPacketMoves(w: World, st: InputState, p: Packet, sn: nat)
    requires InvWith(w, st.k) && Sent(w.ba, p) && p.cmd == CMD_ACK as int && p.sn == sn <= st.k.snd.una
    ensures sn < InputPacket(false, st, p).k.snd.una
  {
    var k1 := TakeHeader(false, st.k, p);
    HeaderInv(w, st.k, p);
    InvWindows(w, st.k);
    UnaForward(st.k.snd, p.una);
    AckedBelow(w, k1, p);
    hide InvWith, Sent, Windows, DropAcked, Shrink, ParseAck, UpdateRtt, ScanAck;
    AckMoves(k1.snd, sn);
  }

  /** An acknowledged segment has been sent. */
  lemma {:induction false} AckedBelow(w: World, k: Kcb, p: Packet)
    requires InvWith(w, k) && Sent(w.ba, p) && p.cmd == CMD_ACK as int
    ensures p.sn < k.snd.nxt && Ordered(k.snd.buf, k.snd.una, k.snd.nxt) && UnaIsHead(k.snd) && k.snd.una <= k.snd.nxt
  {
    var r := w.b.rcv;
    assert AckGenuine(p, r);
    if p.sn >= r.nxt {
      var i :| 0 <= i < |r.buf| && r.buf[i].sn == p.sn;
    }
    hide Stream, Sent, NoLoss, Delivered, Forward, Backward;
  }

  ghost predicate HasAck(ps: seq<Packet>, sn: nat)
  {
    exists p :: p in ps && p.cmd == CMD_ACK as int && p.sn == sn
  }

  lemma {:induction false} HasAckLast(ps: seq<Packet>, sn: nat)
    requires ps != []
    ensures var last := ps[|ps| - 1];
            HasAck(ps, sn) ==> HasAck(ps[..|ps| - 1], sn) || (last.cmd == CMD_ACK as int && last.sn == sn)
  {
    assert ps == ps[..|ps| - 1] + [ps[|ps| - 1]];
  }

  lemma {:induction false} AcksMove(w: World, k: Kcb, ps: seq<Packet>, sn: nat)
    requires InvWith(w, k) && sn <= k.snd.una && HasAck(ps, sn) && forall p :: p in ps ==> Sent(w.ba, p)
    ensures sn < InputPackets(false, InputState(k, NoAck), ps).k.snd.una
    decreases |ps|
  {
    var init, last := ps[..|ps| - 1], ps[|ps| - 1];
    var st := InputPackets(false, InputState(k, NoAck), init);
    HasAckLast(ps, sn);
    hide *;
    PacketsInv(w, k, init);
    UnaMoves(w, k, init);
    InputSnoc(false, InputState(k, NoAck), ps);
    if last.cmd == CMD_ACK as int && last.sn == sn {
      AckPacketMoves(w, st, last, sn);
    } else {
      AcksMove(w, k, init, sn);
      PacketUna(w, st, last);
    }
  }

  lemma {:induction false} DeliverMoves(w: World, i: nat, p: Packet)
    requires Live(w) && i < |w.ba| && p in w.ba[i] && p.cmd == CMD_ACK as int && p.sn == w.a.snd.una
    ensures w.a.snd.una < StepA(false, w, Deliver(i)).a.snd.una
  {
    assert w.(a := w.a) == w;
    assert forall q :: q in w.ba[i] ==> Sent(w.ba, q);
    assert HasAck(w.ba[i], p.sn);
    AcksMove(w, w.a, w.ba[i], p.sn);
    var st := InputPackets(false, InputState(w.a, NoAck), w.ba[i]);
    InputKeepsConfig(false, InputState(w.a, NoAck), w.ba[i]);
    FastAckUna(st.k.snd, st.scan);
    hide Inv, InputPackets, ParseFastAck, GrowWindow, Sent;
  }

  // ---------------------------------------------------------------- one round

  lemma {:induction false} SenderHead(w: World)
    requires Live(w) && w.a.snd.buf != []
    ensures w.a.snd.buf[0].sn == w.a.snd.una
  {
    hide Flow, DatagramsOk, Drained, Plain;
    assert Flow(w.a.snd, w.a.cfg.sndWnd, w.a.cfg.Mss(), w.b.rcv, w.b.cfg.rcvWnd, w.ab, w.ba, w.sentA, w.gotB);
    FlowHead(w.a.snd, w.a.cfg.sndWnd, w.a.cfg.Mss(), w.b.rcv, w.b.cfg.rcvWnd, w.ab, w.ba, w.sentA, w.gotB);
  }

  lemma {:induction false} FlowHead(snd: Sender, sw: nat, mss: nat, r: Receiver, rw: nat, fwd: Network, back: Network,
                                    sent: seq<Msg>, got: seq<Msg>)
    requires Flow(snd, sw, mss, r, rw, fwd, back, sent, got)
    ensures UnaIsHead(snd)
  {
    hide Stream, ReceiverOk, NoLoss, Forward, Backward, Delivered;
  }

  lemma {:induction false} LiveConfigured(w: World)
    requires Live(w)
    ensures Configured(w) && Configured(Mirror(w)) && Plain(w.a.cfg) && Plain(w.b.cfg) && Live(Mirror(w))
  {
    LaterMirror(w, w);
    hide Half, Drained;
  }

  /** The oldest outstanding segment goes out again. */
  lemma {:induction false} SendHead(w: World) returns (acts: seq<Action>, v: World, i: nat, p: Packet)
    requires Live(w) && w.a.snd.buf != []
    ensures Leads(w, acts, v) && v == w.(a := v.a, ab := v.ab) && v.a.snd.una == w.a.snd.una
    ensures |w.ab| <= i < |v.ab| && p in v.ab[i] && p.cmd == CMD_PUSH as int && p.sn == v.a.snd.una
    ensures OnlyNew(acts, |w.ab|, |w.ba|)
  {
    LiveConfigured(w);
    SenderHead(w);
    var now := w.a.snd.buf[0].resendTs;
    var c := UpdateClock(w.a, U32(now));
    ClockKeeps(w.a, now);
    FlushUna(c);
    FlushFits(w, now);
    hide Live, Plain, Flush, UpdateClock, Datagrams, U32;
    acts := FlushAt(w, now);
    v := FlushedAt(w, now);
    p := HeadSent(c);
    i := FindDatagram(w, Flush(false, c), p);
  }

  /** The far side, seen as a, receives it and answers. */
  lemma {:induction false} Answer(w: World, i: nat, p: Packet) returns (acts: seq<Action>, v: World, j: nat, q: Packet)
    requires Live(w) && i < |w.ba| && p in w.ba[i] && p.cmd == CMD_PUSH as int && p.sn == w.b.snd.una <= w.a.rcv.nxt
    ensures Leads(w, acts, v) && v.b == w.b && OnlyNew(acts, |w.ab|, i)
    ensures |w.ab| <= j < |v.ab| && q in v.ab[j] && q.cmd == CMD_ACK as int && q.sn == w.b.snd.una
  {
    LiveConfigured(w);
    var deliver := Action(true, Deliver(i));
    LeadsOne(w, deliver);
    var u := Step(false, w, deliver);
    StepLater(w, deliver);
    LaterIsLive(w, u);
    LaterNets(w, u);
    assert u.ba == w.ba;
    DeliverAnswers(w, i, p);
    StepAConfigured(false, w, Deliver(i));
    LiveConfigured(u);
    var c := UpdateClock(u.a, U32(0));
    ClockKeeps(u.a, 0);
    FlushFits(u, 0);
    hide Live, Plain, Flush, UpdateClock, Datagrams, U32, StepA, Acks, Later;
    var more := FlushAt(u, 0);
    v := FlushedAt(u, 0);
    q := AckSent(c, p.sn);
    j := FindDatagram(u, Flush(false, c), q);
    LeadsOn(w, [deliver], u, more, v);
    NewOne(deliver, |w.ab|, i);
    NewJoin([deliver], more, |w.ab|, i, |u.ab|, |u.ba|);
    acts := [deliver] + more;
  }

  /** Send, answer, acknowledge: the sender forgets its oldest segment. */
  lemma {:induction false} Round(w: World) returns (acts: seq<Action>, v: World)
    requires Live(w) && w.a.snd.buf != [] && w.a.snd.una <= w.b.rcv.nxt
    ensures Leads(w, acts, v) && w.a.snd.una < v.a.snd.una && OnlyNew(acts, |w.ab|, |w.ba|)
  {
    hide *;
    var sends, u, i, p := SendHead(w);
    LeadsLater(w, sends, u);
    LaterIsLive(w, u);
    LaterNets(w, u);
    LiveConfigured(u);
    MirrorParts(u);
    var answers, m, j, q := Answer(Mirror(u), i, p);
    LeadsMirror(u, answers, m);
    var x := Mirror(m);
    MirrorParts(m);
    LeadsLater(u, Flip(answers), x);
    LaterIsLive(u, x);
    LiveConfigured(x);
    DeliverMoves(x, j, q);
    var last := Action(true, Deliver(j));
    v := StepA(false, x, Deliver(j));
    LeadsOne(x, last);
    StepAt(x, Deliver(j));
    LeadsOn(w, sends, u, Flip(answers), x);
    LeadsOn(w, sends + Flip(answers), x, [last], v);
    NewFlip(answers, i, |u.ba|);
    NewOne(last, |w.ab|, j);
    NewJoin(sends, Flip(answers), |w.ab|, |w.ba|, i, |u.ba|);
    NewJoin(sends + Flip(answers), [last], |w.ab|, |w.ba|, |w.ab|, j);
    acts := sends + Flip(answers) + [last];
  }

  lemma {:induction false} MirrorParts(w: World)
    ensures var m := Mirror(w); m.a == w.b && m.b == w.a && m.ab == w.ba && m.ba == w.ab && Mirror(m) == w
  {
  }

  lemma {:induction false} StepAt(w: World, e: Event)
    requires Configured(w)
    ensures Step(false, w, Action(true, e)) == StepA(false, w, e)
  {
    hide StepA;
  }

  // ---------------------------------------------------------------- reading

  lemma {:induction false} ReadOne(w: World)
    requires Live(w) && PeekSize(w.a.rcv.queue) >= 0
    ensures var v := StepA(false, w, Receive(PeekSize(w.a.rcv.queue)));
            && v == w.(a := v.a, gotA := v.gotA) && |v.gotA| == |w.gotA| + 1
            && v.a == w.a.(rcv := v.a.rcv, tm := v.a.tm) && (w.a.tm.askTell ==> v.a.tm.askTell)
  {
    hide Inv, Drain, Join, MessageEnd, Plain, Drained;
    assert w.a.rcv.queue != [];
    PeekCases(w.a.rcv.queue);
  }

  lemma {:induction false} GotWithin(w: World)
    requires Live(w)
    ensures w.gotA <= w.sentB && w.gotB <= w.sentA && |w.gotA| <= |w.sentB|
  {
    InvSafe(w);
    hide Inv, NoLoss, WindowOk, Readable, Drained, Plain;
  }

  /** a reads until its queue starts with an incomplete message. */
  lemma {:induction false} ReadAll(w: World) returns (acts: seq<Action>, v: World)
    requires Live(w)
    ensures Leads(w, acts, v) && Later(w, v) && PeekSize(v.a.rcv.queue) < 0
    ensures v.b == w.b && v.a.snd == w.a.snd && v.a.cc == w.a.cc && (w.a.tm.askTell ==> v.a.tm.askTell)
    ensures v.ab == w.ab && v.ba == w.ba && OnlyNew(acts, |w.ab|, |w.ba|)
    decreases |w.sentB| - |w.gotA|
  {
    LiveConfigured(w);
    LeadsNowhere(w);
    hide *;
    if PeekSize(w.a.rcv.queue) < 0 {
      acts, v := [], w;
      NewNone(|w.ab|, |w.ba|);
      LeadsLater(w, [], w);
    } else {
      var e := Receive(PeekSize(w.a.rcv.queue));
      var act := Action(true, e);
      ReadOne(w);
      LeadsOne(w, act);
      StepAt(w, e);
      StepLater(w, act);
      var u := Step(false, w, act);
      LaterIsLive(w, u);
      GotWithin(u);
      LaterSent(w, u);
      var more;
      more, v := ReadAll(u);
      LeadsOn(w, [act], u, more, v);
      LaterStill(w, u, v);
      NewOne(act, |w.ab|, |w.ba|);
      NewJoin([act], more, |w.ab|, |w.ba|, |u.ab|, |u.ba|);
      acts := [act] + more;
    }
  }

  lemma {:induction false} LaterSent(w: World, v: World)
    requires Later(w, v)
    ensures v.sentA == w.sentA && v.sentB == w.sentB && w.gotA <= v.gotA && w.gotB <= v.gotB
    ensures w.a.snd.una <= v.a.snd.una && w.b.snd.una <= v.b.snd.una && v.a.cfg == w.a.cfg && v.b.cfg == w.b.cfg
  {
  }

  /** After that the receive window is not full, and nothing the far side has forgotten is missing. */
  lemma {:induction false} ReadAllCatchesUp(w: World)
    requires Live(w) && PeekSize(w.a.rcv.queue) < 0
    ensures |w.a.rcv.queue| < 128 && w.b.snd.una <= w.a.rcv.nxt
  {
    InvSafe(w);
    hide Half, PeekSize, Join, MessageEnd;
    assert NoLoss(w.b.snd, w.a.rcv) && Readable(w.a) && WindowOk(w.b) && WindowOk(w.a);
    NothingSkipped(w.b.snd, w.a.rcv, w.a.cfg.rcvWnd);
  }

  lemma {:induction false} LowestIsHead(buf: seq<Segment>, lo: nat, hi: nat)
    requires Ordered(buf, lo, hi)
    ensures Has(buf, lo) ==> buf != [] && buf[0].sn == lo
  {
  }

  lemma {:induction false} NothingSkipped(snd: Sender, r: Receiver, wnd: nat)
    requires NoLoss(snd, r) && Ordered(snd.buf, snd.una, snd.nxt) && snd.una <= snd.nxt
    requires Ordered(r.buf, r.nxt, r.nxt + wnd) && Drained(r, wnd) && |r.queue| < wnd
    ensures snd.una <= r.nxt
  {
    LowestIsHead(r.buf, r.nxt, r.nxt + wnd);
    assert r.nxt < snd.nxt ==> Has(snd.buf, r.nxt) || Held(r, r.nxt);
  }

  // ---------------------------------------------------------------- opening a closed window

  lemma {:induction false} SweepWindows(k: Kcb, n: nat)
    requires n <= |k.snd.buf|
    ensures forall p :: p in SweepUpto(k, n).ps ==> p.wnd == Unused(k) % 0x1_0000
    decreases n
  {
    if n > 0 {
      SweepWindows(k, n - 1);
      var seg := k.snd.buf[n - 1];
      assert WhySend(k, seg) != Idle ==> Flushed(k, seg).wnd == Unused(k);
      hide Flushed, WhySend, Unused;
    }
  }

  /** Every packet of a flush tells the room left in the receive queue. */
  lemma {:induction false} FlushWindows(k: Kcb)
    requires ValidConfig(k.cfg)
    ensures forall p :: p in Flush(false, k).ps ==> p.wnd == Unused(k) % 0x1_0000
  {
    if k.tm.updated {
      FlushParts(k);
      var l := Launch(false, Quiet(k), SendWindow(k));
      LaunchKeeps(false, Quiet(k), SendWindow(k));
      SweepWindows(l, |l.snd.buf|);
      assert Unused(l) == Unused(k);
      hide Flush, Launch, SweepUpto, Unused, SendWindow, ProbeTimer, LastAck;
    }
  }

  lemma {:induction false} ProbeArms(tm: Timing)
    ensures ProbeTimer(tm, 0).probeWait != 0
    ensures ProbeTimer(tm, 0).current == tm.current
    ensures tm.probeWait != 0 && tm.current == U32(tm.tsProbe) ==> ProbeTimer(tm, 0).askSend
    ensures tm.askTell ==> ProbeTimer(tm, 0).askTell
  {
    assert TimeDiff(U32(tm.tsProbe), tm.tsProbe) == 0;
    hide TimeDiff, U32;
  }

  lemma {:induction false} TellKept(tm: Timing, rmtWnd: nat)
    ensures ProbeTimer(tm, rmtWnd).askTell == tm.askTell
  {
    hide TimeDiff, U32;
  }

  /** What a flush leaves of timer and window. */
  lemma {:induction false} FlushTimer(k: Kcb)
    requires ValidConfig(k.cfg) && k.tm.updated
    ensures var r := Flush(false, k);
            && r.k.cc.rmtWnd == k.cc.rmtWnd
            && r.k.tm.probeWait == ProbeTimer(k.tm, k.cc.rmtWnd).probeWait
            && r.k.tm.tsProbe == ProbeTimer(k.tm, k.cc.rmtWnd).tsProbe
            && r.k.rcv.queue == k.rcv.queue
  {
    FlushIsTail(false, k);
    hide Flush, Launch, SweepUpto, ControlPackets, ProbeTimer, SendWindow;
  }

  lemma {:induction false} ProbeSent(k: Kcb) returns (p: Packet)
    requires ValidConfig(k.cfg) && k.tm.updated && ProbeTimer(k.tm, k.cc.rmtWnd).askSend
    ensures p in Flush(false, k).ps && p.cmd == CMD_WASK as int
  {
    FlushParts(k);
    p := Control(k, CMD_WASK, LastAck(k));
    hide Flush, Launch, SweepUpto, AckPackets, SendWindow, ProbeTimer;
    assert p in ProbePackets(k, ProbeTimer(k.tm, k.cc.rmtWnd));
  }

  lemma {:induction false} TellSent(k: Kcb) returns (p: Packet)
    requires ValidConfig(k.cfg) && k.tm.updated && k.tm.askTell
    ensures p in Flush(false, k).ps && p.cmd == CMD_WINS as int
  {
    FlushParts(k);
    TellKept(k.tm, k.cc.rmtWnd);
    p := Control(k, CMD_WINS, LastAck(k));
    hide Flush, Launch, SweepUpto, AckPackets, SendWindow, ProbeTimer;
    assert p in ProbePackets(k, ProbeTimer(k.tm, k.cc.rmtWnd));
  }

  lemma {:induction false} PacketTell(st: InputState, p: Packet)
    ensures var k' := InputPacket(false, st, p).k;
            && k'.cc.rmtWnd == p.wnd
            && (st.k.tm.askTell || p.cmd == CMD_WASK as int ==> k'.tm.askTell)
  {
    hide TakePush, Shrink, ParseAck, DropAcked, ScanAck;
  }

  /** A window probe is noted, and the sender knows the window its last packet told. */
  lemma {:induction false} PacketsTell(k: Kcb, ps: seq<Packet>)
    ensures var k' := InputPackets(false, InputState(k, NoAck), ps).k;
            && (ps != [] ==> k'.cc.rmtWnd == ps[|ps| - 1].wnd)
            && (k.tm.askTell || (exists p :: p in ps && p.cmd == CMD_WASK as int) ==> k'.tm.askTell)
    decreases |ps|
  {
    if ps != [] {
      var init, last := ps[..|ps| - 1], ps[|ps| - 1];
      hide InputPacket;
      PacketsTell(k, init);
      PacketTell(InputPackets(false, InputState(k, NoAck), init), last);
    }
  }

  lemma {:induction false} GrowKeepsWindow(cc: Congestion, mss: nat)
    requires mss > 0
    ensures GrowWindow(cc, mss).rmtWnd == cc.rmtWnd
  {
    hide Product, Quotient, U32, Avoid;
  }

  lemma {:induction false} DeliverTells(w: World, i: nat, p: Packet)
    requires Configured(w) && i < |w.ba| && p in w.ba[i]
    ensures var v := StepA(false, w, Deliver(i));
            && v == w.(a := v.a)
            && (p.cmd == CMD_WASK as int ==> v.a.tm.askTell)
            && v.a.cc.rmtWnd == w.ba[i][|w.ba[i]| - 1].wnd
  {
    var ps := w.ba[i];
    PacketsTell(w.a, ps);
    InputKeepsConfig(false, InputState(w.a, NoAck), ps);
    var st := InputPackets(false, InputState(w.a, NoAck), ps);
    GrowKeepsWindow(st.k.cc, st.k.cfg.Mss());
    hide InputPackets, ParseFastAck, GrowWindow;
  }

  /** Two flushes, the second when the probe timer has run out, put a window probe on the wire. */
  lemma {:induction false} Probe(w: World) returns (acts: seq<Action>, v: World, i: nat, p: Packet)
    requires Live(w) && w.a.cc.rmtWnd == 0
    ensures Leads(w, acts, v) && |w.ab| <= i < |v.ab| && p in v.ab[i] && p.cmd == CMD_WASK as int
    ensures OnlyNew(acts, |w.ab|, |w.ba|)
  {
    var first, u := Arm(w);
    LeadsLater(w, first, u);
    LaterIsLive(w, u);
    LaterNets(w, u);
    var now := u.a.tm.tsProbe;
    var c := UpdateClock(u.a, U32(now));
    LiveConfigured(u);
    ClockKeeps(u.a, now);
    ProbeArms(c.tm);
    FlushFits(u, now);
    hide *;
    var second := FlushAt(u, now);
    p := ProbeSent(c);
    i := FindDatagram(u, Flush(false, c), p);
    v := FlushedAt(u, now);
    FlushedIs(u, now);
    LeadsOn(w, first, u, second, v);
    NewJoin(first, second, |w.ab|, |w.ba|, |u.ab|, |u.ba|);
    acts := first + second;
  }

  lemma {:induction false} FlushedIs(w: World, now: nat)
    requires Configured(w)
    ensures FlushedAt(w, now) == Emits(w, Flush(false, UpdateClock(w.a, U32(now))))
    ensures FlushedAt(w, now).b == w.b && FlushedAt(w, now).ba == w.ba
    ensures FlushedAt(w, now).a == Flush(false, UpdateClock(w.a, U32(now))).k
  {
    hide Flush, UpdateClock, Datagrams;
  }

  lemma {:induction false} Arm(w: World) returns (acts: seq<Action>, v: World)
    requires Live(w) && w.a.cc.rmtWnd == 0
    ensures Leads(w, acts, v) && v.a.cc.rmtWnd == 0 && v.a.tm.probeWait != 0 && OnlyNew(acts, |w.ab|, |w.ba|)
  {
    var c := UpdateClock(w.a, U32(0));
    LiveConfigured(w);
    ClockKeeps(w.a, 0);
    ProbeArms(c.tm);
    FlushTimer(c);
    hide Live, Flush, UpdateClock, Datagrams, ProbeTimer, U32;
    acts := FlushAt(w, 0);
    v := FlushedAt(w, 0);
  }

  /** The far side, seen as a, takes the probe, reads, and tells its window. */
  lemma {:induction false} Tell(w: World, i: nat, p: Packet) returns (acts: seq<Action>, v: World, j: nat, q: Packet)
    requires Live(w) && i < |w.ba| && p in w.ba[i] && p.cmd == CMD_WASK as int
    ensures Leads(w, acts, v) && |w.ab| <= j < |v.ab| && q in v.ab[j] && forall r :: r in v.ab[j] ==> r.wnd > 0
    ensures OnlyNew(acts, |w.ab|, i)
  {
    hide *;
    var deliver := Action(true, Deliver(i));
    LiveConfigured(w);
    LeadsOne(w, deliver);
    StepAt(w, Deliver(i));
    DeliverTells(w, i, p);
    var u := Step(false, w, deliver);
    StepLater(w, deliver);
    LaterIsLive(w, u);
    LaterNets(w, u);
    var taking, x := ReadAll(u);
    LaterIsLive(u, x);
    ReadAllCatchesUp(x);
    var flush;
    flush, v, j, q := TellNow(x);
    LeadsOn(w, [deliver], u, taking, x);
    LeadsOn(w, [deliver] + taking, x, flush, v);
    NewOne(deliver, |w.ab|, i);
    NewJoin([deliver], taking, |w.ab|, i, |u.ab|, |u.ba|);
    NewJoin([deliver] + taking, flush, |w.ab|, i, |x.ab|, |x.ba|);
    acts := [deliver] + taking + flush;
  }

  lemma {:induction false} PlainIsValid(cfg: Config)
    requires Plain(cfg)
    ensures ValidConfig(cfg)
  {
  }

  lemma {:induction false} TellsRoom(k: Kcb)
    requires Plain(k.cfg) && |k.rcv.queue| < 128
    ensures forall p :: p in Flush(false, k).ps ==> p.wnd > 0
  {
    FlushWindows(k);
    assert 0 < Unused(k) <= 128;
    hide Flush, Unused;
  }

  lemma {:induction false} TellNow(w: World) returns (acts: seq<Action>, v: World, j: nat, q: Packet)
    requires Live(w) && w.a.tm.askTell && |w.a.rcv.queue| < 128
    ensures Leads(w, acts, v) && |w.ab| <= j < |v.ab| && q in v.ab[j] && forall r :: r in v.ab[j] ==> r.wnd > 0
    ensures OnlyNew(acts, |w.ab|, |w.ba|)
  {
    hide *;
    var c := UpdateClock(w.a, U32(0));
    LiveConfigured(w);
    ClockKeeps(w.a, 0);
    PlainIsValid(c.cfg);
    FlushFits(w, 0);
    TellsRoom(c);
    FlushedIs(w, 0);
    acts := FlushAt(w, 0);
    v := FlushedAt(w, 0);
    q := TellSent(c);
    j := FindDatagram(w, Flush(false, c), q);
  }

  /** A closed window opens. */
  lemma {:induction false} OpenWindow(w: World) returns (acts: seq<Action>, v: World)
    requires Live(w) && w.a.cc.rmtWnd == 0
    ensures Leads(w, acts, v) && v.a.cc.rmtWnd > 0 && OnlyNew(acts, |w.ab|, |w.ba|)
  {
    hide *;
    var probes, u, i, p := Probe(w);
    LeadsLater(w, probes, u);
    LaterNets(w, u);
    LaterIsLive(w, u);
    LiveConfigured(u);
    MirrorParts(u);
    var tells, m, j, q := Tell(Mirror(u), i, p);
    LeadsMirror(u, tells, m);
    var x := Mirror(m);
    MirrorParts(m);
    LeadsLater(u, Flip(tells), x);
    LaterIsLive(u, x);
    LiveConfigured(x);
    var last := Action(true, Deliver(j));
    DeliverTells(x, j, q);
    v := Step(false, x, last);
    LeadsOne(x, last);
    StepAt(x, Deliver(j));
    LeadsOn(w, probes, u, Flip(tells), x);
    LeadsOn(w, probes + Flip(tells), x, [last], v);
    NewFlip(tells, i, |u.ba|);
    NewOne(last, |w.ab|, j);
    NewJoin(probes, Flip(tells), |w.ab|, |w.ba|, i, |u.ba|);
    NewJoin(probes + Flip(tells), [last], |w.ab|, |w.ba|, |w.ab|, j);
    acts := probes + Flip(tells) + [last];
  }

  // ---------------------------------------------------------------- something outstanding

  ghost function Total(w: World): nat
    requires Configured(w)
  {
    |Stream(w.sentA, w.a.cfg.Mss())|
  }

  lemma {:induction false} SenderCounts(w: World)
    requires Live(w)
    ensures Configured(w) && w.a.snd.una <= w.a.snd.nxt <= Total(w)
    ensures w.a.snd.buf == [] ==> w.a.snd.una == w.a.snd.nxt
    ensures |w.a.snd.queue| == Total(w) - w.a.snd.nxt
    ensures w.a.snd.una == Total(w) ==> w.a.snd.buf == [] && w.a.snd.queue == []
  {
    hide Stream, ReceiverOk, NoLoss, Forward, Backward, Delivered, Drained, Plain, DatagramsOk;
    assert |FragsOf(w.a.snd.queue)| == |w.a.snd.queue|;
  }

  lemma {:induction false} Launches(k: Kcb)
    requires Plain(k.cfg) && k.tm.updated && k.snd.queue != [] && k.snd.nxt == k.snd.una && k.cc.rmtWnd > 0
    ensures Flush(false, k).k.snd.buf != []
  {
    FlushParts(k);
    var quiet := Quiet(k);
    LaunchUnfolds(false, quiet, SendWindow(k));
    assert SendWindow(k) >= 1 && quiet.snd == k.snd;
    LaunchKeepsHead(LaunchedOne(false, quiet), SendWindow(k));
    var l := Launch(false, quiet, SendWindow(k));
    hide *;
    assert |SweepUpto(l, |l.snd.buf|).segs| == |l.snd.buf|;
  }

  /** With something left to acknowledge, a segment gets outstanding, or one was acknowledged on the way. */
  lemma {:induction false} Occupy(w: World) returns (acts: seq<Action>, v: World)
    requires Live(w) && Configured(w) && w.a.snd.una < Total(w)
    ensures Leads(w, acts, v) && (v.a.snd.buf != [] || w.a.snd.una < v.a.snd.una) && OnlyNew(acts, |w.ab|, |w.ba|)
  {
    hide *;
    if w.a.cc.rmtWnd == 0 {
      acts, v := OpenWindow(w);
    } else {
      LeadsNowhere(w);
      acts, v := [], w;
      NewNone(|w.ab|, |w.ba|);
    }
    LeadsLater(w, acts, v);
    LaterIsLive(w, v);
    LaterNets(w, v);
    LaterTotal(w, v);
    if v.a.snd.buf == [] && v.a.snd.una == w.a.snd.una {
      SenderCounts(v);
      var more, u := LaunchNow(v);
      LeadsOn(w, acts, v, more, u);
      NewJoin(acts, more, |w.ab|, |w.ba|, |v.ab|, |v.ba|);
      acts, v := acts + more, u;
    }
  }

  lemma {:induction false} LaterTotal(w: World, v: World)
    requires Configured(w) && Later(w, v)
    ensures Configured(v) && Total(v) == Total(w) && w.a.snd.una <= v.a.snd.una
  {
    LiveConfigured(v);
    LaterSent(w, v);
    hide Live, Stream;
  }

  lemma {:induction false} LaunchNow(w: World) returns (acts: seq<Action>, v: World)
    requires Live(w) && w.a.snd.queue != [] && w.a.snd.nxt == w.a.snd.una && w.a.cc.rmtWnd > 0
    ensures Leads(w, acts, v) && v.a.snd.buf != [] && OnlyNew(acts, |w.ab|, |w.ba|)
  {
    var c := UpdateClock(w.a, U32(0));
    LiveConfigured(w);
    ClockKeeps(w.a, 0);
    Launches(c);
    FlushedIs(w, 0);
    hide *;
    acts := FlushAt(w, 0);
    v := FlushedAt(w, 0);
  }

  // ---------------------------------------------------------------- everything arrives

  /** One more segment acknowledged. */
  lemma {:induction false} Advance(w: World) returns (acts: seq<Action>, v: World)
    requires Live(w) && Configured(w) && w.a.snd.una < Total(w)
    ensures Leads(w, acts, v) && w.a.snd.una < v.a.snd.una && OnlyNew(acts, |w.ab|, |w.ba|)
  {
    hide *;
    acts, v := Occupy(w);
    LeadsLater(w, acts, v);
    LaterNets(w, v);
    LaterIsLive(w, v);
    LaterSent(w, v);
    if v.a.snd.una == w.a.snd.una {
      LiveConfigured(v);
      var taking, m := ReadAll(Mirror(v));
      LaterIsLive(Mirror(v), m);
      ReadAllCatchesUp(m);
      LeadsMirror(v, taking, m);
      MirrorParts(v);
      MirrorParts(m);
      LiveConfigured(m);
      var more, u := Round(Mirror(m));
      LeadsOn(w, acts, v, Flip(taking), Mirror(m));
      LeadsOn(w, acts + Flip(taking), Mirror(m), more, u);
      NewFlip(taking, |v.ab|, |v.ba|);
      NewJoin(acts, Flip(taking), |w.ab|, |w.ba|, |v.ab|, |v.ba|);
      NewJoin(acts + Flip(taking), more, |w.ab|, |w.ba|, |v.ab|, |v.ba|);
      acts, v := acts + Flip(taking) + more, u;
    }
  }

  lemma {:induction false} AcknowledgeAll(w: World) returns (acts: seq<Action>, v: World)
    requires Live(w) && Configured(w)
    ensures Leads(w, acts, v) && v.a.snd.una == Total(w) && OnlyNew(acts, |w.ab|, |w.ba|)
    decreases Total(w) - w.a.snd.una
  {
    hide *;
    SenderCounts(w);
    if w.a.snd.una == Total(w) {
      LeadsNowhere(w);
      NewNone(|w.ab|, |w.ba|);
      acts, v := [], w;
    } else {
      var first, u := Advance(w);
      LeadsLater(w, first, u);
      LaterIsLive(w, u);
      LaterNets(w, u);
      LaterTotal(w, u);
      SenderCounts(u);
      var more;
      more, v := AcknowledgeAll(u);
      LeadsOn(w, first, u, more, v);
      NewJoin(first, more, |w.ab|, |w.ba|, |u.ab|, |u.ba|);
      acts := first + more;
    }
  }

  /** A receiver that has all segments and no complete message left has given out every message. */
  lemma {:induction false} AllRead(w: World)
    requires Live(w) && Configured(w) && PeekSize(w.b.rcv.queue) < 0 && w.b.rcv.nxt == Total(w)
    ensures w.gotB == w.sentA
  {
    hide Drained, Plain, DatagramsOk, PeekSize, NoLoss, Forward, Backward, SenderOk;
    assert Flow(w.a.snd, w.a.cfg.sndWnd, w.a.cfg.Mss(), w.b.rcv, w.b.cfg.rcvWnd, w.ab, w.ba, w.sentA, w.gotB);
    QueueRead(w.b.rcv, w.b.cfg.rcvWnd, w.a.snd.nxt, w.sentA, w.gotB, w.a.cfg.Mss());
  }

  lemma {:induction false} QueueRead(r: Receiver, wnd: nat, limit: nat, sent: seq<Msg>, got: seq<Msg>, mss: nat)
    requires mss > 0 && AllSendable(sent, mss)
    requires ReceiverOk(r, wnd, limit, Stream(sent, mss)) && Delivered(r, sent, got, mss)
    requires PeekSize(r.queue) < 0 && r.nxt == |Stream(sent, mss)|
    ensures got == sent
  {
    if |got| < |sent| {
      StreamAt(sent, |got|, mss);
      StreamPrefix(sent, |got| + 1, mss);
      if r.queue != [] {
        PeekFindsMessage(r, wnd, limit, sent, got, mss);
      }
      CutSpec(sent[|got|], mss);
    }
    hide Cut, Stream, PeekSize, Ordered, Has, FragsOf;
  }

  lemma {:induction false} CaughtUp(w: World)
    requires Live(w) && Configured(w) && w.a.snd.una == Total(w) && w.a.snd.una <= w.b.rcv.nxt
    ensures w.b.rcv.nxt == Total(w)
  {
    hide Stream, Drained, Plain, DatagramsOk, NoLoss, Forward, Backward, Delivered;
  }

  /** Everything a has sent is acknowledged, received and read. */
  lemma {:induction false} Finish(w: World) returns (acts: seq<Action>, v: World)
    requires Live(w) && Configured(w)
    ensures Leads(w, acts, v) && Live(v) && Configured(v) && v.a.snd.una == Total(v) && v.gotB == v.sentA
    ensures OnlyNew(acts, |w.ab|, |w.ba|)
  {
    hide *;
    var first, u := AcknowledgeAll(w);
    LeadsLater(w, first, u);
    LaterIsLive(w, u);
    LaterTotal(w, u);
    LiveConfigured(u);
    var taking, m := ReadAll(Mirror(u));
    LaterIsLive(Mirror(u), m);
    ReadAllCatchesUp(m);
    LeadsMirror(u, taking, m);
    MirrorParts(u);
    MirrorParts(m);
    v := Mirror(m);
    LeadsOn(w, first, u, Flip(taking), v);
    LaterNets(w, u);
    NewFlip(taking, |u.ab|, |u.ba|);
    NewJoin(first, Flip(taking), |w.ab|, |w.ba|, |u.ab|, |u.ba|);
    acts := first + Flip(taking);
    LeadsLater(w, acts, v);
    LaterIsLive(w, v);
    LaterTotal(w, v);
    LaterSent(w, v);
    CaughtUp(v);
    AllRead(v);
  }

  /** Nothing is left to send, to acknowledge or to read, in either direction. */
  ghost predicate Finished(w: World)
  {
    && w.gotB == w.sentA && w.gotA == w.sentB
    && w.a.snd.buf == [] && w.a.snd.queue == [] && w.b.snd.buf == [] && w.b.snd.queue == []
  }

  /** From every live state some continuation without new messages finishes. */
  lemma {:induction false} LiveFinishes(w: World) returns (acts: seq<Action>)
    requires Live(w) && Configured(w)
    ensures NoSends(acts) && Finished(Run(false, w, acts)) && OnlyNew(acts, |w.ab|, |w.ba|)
    ensures Run(false, w, acts).sentA == w.sentA && Run(false, w, acts).sentB == w.sentB
  {
    hide *;
    var first, u := Finish(w);
    LeadsLater(w, first, u);
    LaterIsLive(w, u);
    LiveConfigured(u);
    MirrorParts(u);
    var second, m := Finish(Mirror(u));
    LeadsMirror(u, second, m);
    var v := Mirror(m);
    MirrorParts(m);
    LeadsLater(u, Flip(second), v);
    LaterIsLive(u, v);
    LeadsOn(w, first, u, Flip(second), v);
    LaterNets(w, u);
    NewFlip(second, |u.ab|, |u.ba|);
    NewJoin(first, Flip(second), |w.ab|, |w.ba|, |u.ab|, |u.ba|);
    acts := first + Flip(second);
    LeadsLater(w, acts, v);
    BothEnds(u, m);
    LaterSent(w, v);
    LeadsMeans(w, acts, v);
  }

  lemma {:induction false} LeadsMeans(w: World, acts: seq<Action>, v: World)
    requires Leads(w, acts, v)
    ensures Configured(w) && NoSends(acts) && Run(false, w, acts) == v
  {
  }

  /** What one direction has reached stays while the other catches up. */
  lemma {:induction false} BothEnds(u: World, m: World)
    requires Configured(u) && u.a.snd.una == Total(u) && u.gotB == u.sentA
    requires Live(m) && Configured(m) && m.a.snd.una == Total(m) && m.gotB == m.sentA
    requires Later(u, Mirror(m))
    ensures Finished(Mirror(m))
  {
    hide *;
    MirrorParts(m);
    LiveConfigured(m);
    LaterTotal(u, Mirror(m));
    LaterSent(u, Mirror(m));
    SenderCounts(m);
    SenderCounts(Mirror(m));
    GotWithin(m);
    GotMirror(u, m);
  }

  lemma {:induction false} GotMirror(u: World, m: World)
    requires u.gotB == u.sentA && m.gotB == m.sentA && m.gotA <= m.sentB
    requires Mirror(m).sentA == u.sentA && u.gotB <= Mirror(m).gotB
    requires m.a.snd.buf == [] && m.a.snd.queue == []
    requires Mirror(m).a.snd.buf == [] && Mirror(m).a.snd.queue == []
    ensures Finished(Mirror(m))
  {
  }

  // ---------------------------------------------------------------- the 32-bit tunnels

  lemma {:induction false} TunnelLive(acts: seq<Action>)
    ensures Live(Run(false, TunnelStart(), acts))
  {
    var t := TunnelConfig();
    TunnelIsPlain();
    StartInv(t, t);
    RunInv(TunnelStart(), acts);
    EveryRunDrained(false, t, t, acts);
    hide Inv, BothDrained, Plain, Run, TunnelConfig;
  }

  lemma {:induction false} SendsNothing(wrap: bool, w: World, acts: seq<Action>)
    requires Configured(w) && NoSends(acts)
    ensures Run(wrap, w, acts).sentA == w.sentA && Run(wrap, w, acts).sentB == w.sentB
    decreases |acts|
  {
    if acts != [] {
      SendsNothing(wrap, w, acts[..|acts| - 1]);
      hide Update, Flush, Input, Recv, Datagrams, Configured;
    }
  }

  lemma {:induction false} StillSmall(w: World, v: World)
    requires Configured(w) && Configured(v) && Small(w)
    requires v.sentA == w.sentA && v.sentB == w.sentB && v.a.cfg == w.a.cfg && v.b.cfg == w.b.cfg
    ensures Small(v)
  {
    hide Stream;
  }

  lemma {:induction false} WrapNets(w: World)
    ensures |WrapWorld(w).ab| == |w.ab| && |WrapWorld(w).ba| == |w.ba|
  {
  }

  lemma {:induction false} WrapFinished(w: World)
    requires Finished(w)
    ensures Finished(WrapWorld(w))
  {
    hide U32;
  }

  /**
   Two tunnels that have sent at most 2^31 + 1 segments each can always finish: from every reachable
   state there is a continuation that sends no new message, in which only new datagrams arrive, and
   after which both applications have read everything, and nothing is queued or outstanding.
   */
  lemma {:induction false} EveryRunCanFinish(acts: seq<Action>) returns (more: seq<Action>)
    requires Small(Run(true, TunnelStart(), acts))
    ensures NoSends(more)
    ensures var w, v := Run(true, TunnelStart(), acts), Run(true, TunnelStart(), acts + more);
            && Finished(v) && v.sentA == w.sentA && v.sentB == w.sentB && OnlyNew(more, |w.ab|, |w.ba|)
  {
    hide *;
    var start := TunnelStart();
    TunnelLive(acts);
    more := LiveFinishes(Run(false, start, acts));
    RunAppend(false, start, acts, more);
    RunAppend(true, start, acts, more);
    SendsNothing(true, Run(true, start, acts), more);
    StillSmall(Run(true, start, acts), Run(true, start, acts + more));
    EveryTunnelRun(acts);
    EveryTunnelRun(acts + more);
    WrapNets(Run(false, start, acts));
    WrapFinished(Run(false, start, acts + more));
  }
}
