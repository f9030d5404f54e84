/**
 Where the guarantee of the short runs ends.  A reachable run of two tunnels sends segment after
 segment, each acknowledged before the next; then the first datagram B ever sent, whose cumulative
 acknowledgement is 0, arrives a second time.  It removes the segment in flight, which nobody has
 received, exactly when the number of that segment modulo 2^32 is above 2^31.
 */
module KcpLimit {
  import opened Bytes
  import opened KcpSpec
  import opened KcpLists
  import opened KcpMessages
  import opened KcpFlow
  import opened KcpWorld
  import opened KcpWrap
  import opened KcpRefine
  import opened KcpTunnel

  /**
   On reduced numbers: una removes the one segment numbered sn exactly when it is ahead of it by less
   than half the range.
   */
  lemma {:induction false} RemovedWhenAhead(seg: Segment, sn: nat, una: nat)
    requires seg.sn == U32(sn)
    ensures DropAcked(true, [seg], U32(una)) == if 0 < U32(una - sn) < TWO_31 then [] else [seg]
  {
    U32Sub(una, sn);
    assert Diff(true, U32(una), seg.sn) == Signed(U32(una - sn));
    hide U32, TimeDiff;
    assert [seg][1..] == [];
    assert DropAcked(true, [seg], U32(una))
        == if Diff(true, U32(una), seg.sn) > 0 then DropAcked(true, [], U32(una)) else [seg];
  }

  /** The exact condition under which a cumulative acknowledgement removes a segment. */
  lemma {:induction false} AckRemoves(seg: Segment, una: nat)
    ensures DropAcked(true, WrapSegs([seg]), U32(una)) == [] <==> 0 < U32(una - seg.sn) < TWO_31
  {
    RemovedWhenAhead(WrapSeg(seg), seg.sn, una);
    assert WrapSegs([seg]) == [WrapSeg(seg)];
    hide U32;
  }

  // ---------------------------------------------------------------- the run

  /** One octet sent, delivered, read and acknowledged; from is the sender, i the next datagram of both directions. */
  function Exchange(fromA: bool, i: nat): seq<Action>
  {
    [Action(fromA, SendMessage([0])), Action(fromA, FlushNow), Action(!fromA, Deliver(i)),
     Action(!fromA, Receive(1)), Action(!fromA, FlushNow), Action(fromA, Deliver(i))]
  }

  /** Both clocks start, B sends one message, A sends n. */
  function Rounds(n: nat): seq<Action>
  {
    if n == 0 then [Action(true, Tick(0)), Action(false, Tick(0))] + Exchange(false, 0)
    else Rounds(n - 1) + Exchange(true, n)
  }

  /** Then A sends one more, and B's first datagram arrives again. */
  function StaleRun(n: nat): seq<Action>
  {
    Rounds(n) + [Action(true, SendMessage([0])), Action(true, FlushNow), Action(true, Deliver(0))]
  }

  // ---------------------------------------------------------------- one endpoint at rest

  predicate Calm(k: Kcb)
  {
    && Plain(k.cfg) && k.cc.rmtWnd == 128
    && k.tm.updated && k.tm.current == 0 && !k.tm.askSend && !k.tm.askTell
  }

  /** Nothing queued, nothing outstanding, nothing to acknowledge. */
  predicate Resting(k: Kcb, out: nat, into: nat)
  {
    Calm(k) && k.snd == Sender(U32(out), U32(out), [], []) && k.rcv == Receiver(U32(into), [], [], [])
  }

  function Pushed(k: Kcb, out: nat, into: nat): Packet
  {
    Packet(k.cfg.conv, CMD_PUSH, 0, 128, 0, U32(out), U32(into), [0])
  }

  function Acked(k: Kcb, out: nat): Packet
  {
    Packet(k.cfg.conv, CMD_ACK, 0, 128, 0, U32(out), U32(out + 1), [])
  }

  lemma {:induction false} OneDatagram(mtu: nat, p: Packet)
    ensures Datagrams(mtu, [p]) == [[p]]
  {
    var none := Packing([], []);
    assert [p][..0] == [];
    assert PackAll(mtu, none, []) == none;
    assert PackAll(mtu, none, [p]) == PackOne(mtu, none, p);
    assert Emit(none) == none;
    assert PackOne(mtu, none, p) == Packing([], [p]);
  }

  // ---------------------------------------------------------------- the steps of an exchange

  lemma {:induction false} Offers(k: Kcb, out: nat, into: nat)
    requires Resting(k, out, into)
    ensures Send(k, [0]) == (k.(snd := k.snd.(queue := [Blank(0, [0])])), 1)
  {
    var msg: seq<byte> := [0];
    var mss := k.cfg.Mss();
    assert msg[0..] == msg && msg[..1] == msg && Min(1, mss) == 1;
    assert Fragments(msg[1..], mss, 0, false) == [];
    assert Fragments(msg, mss, 1, false) == [Blank(0, msg)] + [];
    assert FragmentCount(1, mss) == 1;
    assert k.snd.queue + Fragments(msg, mss, 1, false) == [Blank(0, msg)];
    hide U32, Fragments, FragmentCount;
  }

  /** A flush at rest sends no probe, and its window is 32. */
  lemma {:induction false} CalmFlush(k: Kcb)
    requires Calm(k)
    ensures SendWindow(k) == 32 && Calm(Quiet(k))
    ensures Quiet(k).snd == k.snd && Quiet(k).rcv == k.rcv.(acks := []) && Quiet(k).cfg == k.cfg
    ensures ControlPackets(k) == AckPackets(k, |k.rcv.acks|)
  {
    var tm := ProbeTimer(k.tm, k.cc.rmtWnd);
    assert tm == k.tm.(tsProbe := 0, probeWait := 0);
    assert ProbePackets(k, tm) == [];
    hide AckPackets;
  }

  /** The state a flush leaves, from its parts. */
  lemma {:induction false} CalmTail(k: Kcb, launched: Kcb, s: Sweep)
    requires Calm(k)
    ensures var r := FlushTail(k, launched, s);
            && Calm(r.k) && r.k.cfg == k.cfg && r.k.rcv == k.rcv.(acks := [])
            && r.k.snd == launched.snd.(buf := s.segs) && r.ps == AckPackets(k, |k.rcv.acks|) + s.ps
  {
    CalmFlush(k);
    hide AckPackets, ProbeTimer, SendWindow;
  }

  lemma {:induction false} FitsWindow(out: nat)
    ensures Diff(true, U32(out), Norm(true, U32(out) + 32)) == 0 - 32
    ensures Norm(true, U32(out) + 1) == U32(out + 1)
  {
    DiffExactPlus(out, out, 32);
    U32Add(out, 1);
  }

  lemma {:induction false} LaunchesOne(k: Kcb, out: nat)
    requires k.snd == Sender(U32(out), U32(out), [Blank(0, [0])], [])
    ensures Launch(true, k, 32)
         == k.(snd := Sender(U32(out), U32(out + 1), [], [Launched(k, Blank(0, [0]))]))
  {
    FitsWindow(out);
    hide U32, TimeDiff, Launch, Launched;
    LaunchUnfolds(true, k, 32);
    var one := LaunchedOne(true, k);
    assert k.snd.queue[1..] == [];
    assert one.snd.buf == [Launched(k, Blank(0, [0]))];
    LaunchUnfolds(true, one, 32);
  }

  lemma {:induction false} SweepsOne(k: Kcb, seg: Segment)
    requires k.snd.buf == [seg] && seg.xmit == 0
    ensures var s := SweepUpto(k, 1);
            s.segs == [Flushed(k, seg)] && s.ps == [DataPacket(k, Flushed(k, seg))]
  {
    hide Retimed, DataPacket, TimeDiff;
    assert SweepUpto(k, 0) == Sweep([], [], 0, 0, false);
    assert WhySend(k, seg) == First;
  }

  /** The flush that sends a queued octet. */
  lemma {:induction false} Launches(k: Kcb, out: nat, into: nat)
    requires Calm(k) && k.snd == Sender(U32(out), U32(out), [Blank(0, [0])], [])
    requires k.rcv == Receiver(U32(into), [], [], [])
    ensures var r := Flush(true, k);
            && r.ps == [Pushed(k, out, into)] && Calm(r.k) && r.k.cfg == k.cfg && r.k.rcv == k.rcv
            && |r.k.snd.buf| == 1 && r.k.snd.buf[0].sn == U32(out)
            && r.k.snd == Sender(U32(out), U32(out + 1), [], r.k.snd.buf)
  {
    CalmFlush(k);
    var quiet := Quiet(k);
    LaunchesOne(quiet, out);
    FlushIsTail(true, k);
    var launched := Launch(true, quiet, 32);
    var seg := Launched(quiet, Blank(0, [0]));
    SweepsOne(launched, seg);
    CalmTail(k, launched, SweepUpto(launched, 1));
    FlushedHeader(launched, seg);
    assert AckPackets(k, 0) == [];
    hide Launch, SweepUpto, Flush, FlushTail, U32, Calm, Quiet, Flushed, AckPackets;
  }

  lemma {:induction false} FlushedHeader(k: Kcb, seg: Segment)
    requires seg.xmit == 0
    ensures var f := Flushed(k, seg);
            f.sn == seg.sn && f.frg == seg.frg && f.data == seg.data && f.ts == k.tm.current
            && f.wnd == Unused(k) && f.una == k.rcv.nxt
  {
    hide Unused;
  }

  /** The flush that acknowledges a read octet. */
  lemma {:induction false} Acknowledges(k: Kcb, out: nat, into: nat)
    requires Resting(k.(rcv := k.rcv.(acks := [])), out, into + 1) && k.rcv.acks == [Ack(U32(into), 0)]
    ensures var r := Flush(true, k);
            r.ps == [Acked(k, into)] && Resting(r.k, out, into + 1) && r.k.cfg == k.cfg
  {
    CalmFlush(k);
    var quiet := Quiet(k);
    FlushIsTail(true, k);
    LaunchUnfolds(true, quiet, 32);
    assert SweepUpto(quiet, 0) == Sweep([], [], 0, 0, false);
    CalmTail(k, quiet, Sweep([], [], 0, 0, false));
    assert AckPackets(k, 1) == [Acked(k, into)];
    hide Launch, SweepUpto, Flush, FlushTail, U32, Calm, Quiet, AckPackets;
  }

  // ---------------------------------------------------------------- arrivals

  lemma {:induction false} InputOne(k: Kcb, p: Packet)
    requires ValidConfig(k.cfg)
    ensures var st := InputPacket(true, InputState(k, NoAck), p);
            st.k.cfg == k.cfg && Input(true, k, [p]) == FinishInput(true, k.snd.una, st)
  {
    var st := InputState(k, NoAck);
    assert [p][..0] == [];
    assert InputPackets(true, st, []) == st;
    assert InputPackets(true, st, [p]) == InputPacket(true, st, p);
    InputKeepsConfig(true, st, [p]);
    hide InputPacket, FinishInput, InputPackets;
  }

  /** The next octet arrives where nothing is outstanding. */
  lemma {:induction false} Stores(k: Kcb, out: nat, into: nat, p: Packet)
    requires Resting(k, out, into) && p.cmd == CMD_PUSH as int && p.sn == U32(into) && p.frg == 0 && p.data == [0]
    requires p.ts == 0 && p.wnd == 128
    ensures var k' := Input(true, k, [p]);
            && Resting(k'.(rcv := k.rcv), out, into) && k'.cfg == k.cfg
            && k'.rcv == Receiver(U32(into + 1), [Arrived(p)], [], [Ack(U32(into), 0)])
  {
    InputOne(k, p);
    var k1 := TakeHeader(true, k, p);
    assert k1 == k.(cc := k1.cc) && k1.cc.rmtWnd == 128;
    PushNext(k.rcv, into, p);
    assert Diff(true, U32(out), U32(out)) == 0;
    hide U32, TimeDiff, TakePush, TakeHeader;
  }

  lemma {:induction false} PushNext(r: Receiver, into: nat, p: Packet)
    requires r == Receiver(U32(into), [], [], []) && p.sn == U32(into) && p.ts == 0
    ensures TakePush(true, r, 128, p) == Receiver(U32(into + 1), [Arrived(p)], [], [Ack(U32(into), 0)])
  {
    U32Add(into, 128);
    U32Add(into, 1);
    DiffExact(into, into + 128);
    DiffExact(into, into);
    hide U32, TimeDiff;
    var seg := Arrived(p);
    var r1 := Receiver(U32(into), [], [seg], [Ack(U32(into), 0)]);
    assert [seg][1..] == [] && [] + [seg] == [seg] && [] + [Ack(p.sn, p.ts)] == [Ack(p.sn, p.ts)];
    assert BelowEdge(true, p.sn, r.nxt + 128) && InWindow(true, r, 128, p.sn);
    assert Drain(true, r1, 128) == Drain(true, Receiver(U32(into + 1), [seg], [], r1.acks), 128);
    assert Insert(true, [], seg) == [seg];
  }

  /** The octet is read. */
  lemma {:induction false} Reads(k: Kcb, out: nat, into: nat, seg: Segment)
    requires Calm(k) && seg.frg == 0 && seg.data == [0]
    requires k.rcv == Receiver(U32(into), [seg], [], k.rcv.acks)
    ensures Recv(true, k, 1) == (k.(rcv := k.rcv.(queue := [])), 1, [0])
  {
    assert MessageEnd([seg]) == 1 && [seg][..1] == [seg] && [seg][1..] == [];
    assert [seg][..0] == [];
    assert Join([seg]) == [0];
    hide U32;
  }

  /** The acknowledgement arrives. */
  lemma {:induction false} Forgets(k: Kcb, out: nat, into: nat, p: Packet)
    requires Calm(k) && |k.snd.buf| == 1 && k.snd.buf[0].sn == U32(out)
    requires k.snd == Sender(U32(out), U32(out + 1), [], k.snd.buf) && k.rcv == Receiver(U32(into), [], [], [])
    requires p == Acked(k, out)
    ensures Resting(Input(true, k, [p]), out + 1, into) && Input(true, k, [p]).cfg == k.cfg
  {
    InputOne(k, p);
    DiffExact(out + 1, out);
    DiffExact(out, out + 1);
    hide U32, TimeDiff, UpdateRtt, GrowWindow;
    assert k.snd.buf[1..] == [];
    assert DropAcked(true, k.snd.buf, U32(out + 1)) == DropAcked(true, [], U32(out + 1));
  }

  // ---------------------------------------------------------------- one exchange

  /** A has taken out octets from its application and into octets from B, both sides resting. */
  ghost predicate Between(w: World, out: nat, into: nat)
  {
    && Configured(w) && Resting(w.a, out, into) && Resting(w.b, into, out)
  }

  ghost function AfterSend(w: World): World
    requires Configured(w)
  {
    StepA(true, StepA(true, w, SendMessage([0])), FlushNow)
  }

  lemma {:induction false} SendsOne(w: World, out: nat, into: nat)
    requires Configured(w) && Resting(w.a, out, into)
    ensures var v := AfterSend(w);
            && v == w.(a := v.a, ab := w.ab + [[Pushed(w.a, out, into)]], sentA := w.sentA + [[0]])
            && Calm(v.a) && v.a.cfg == w.a.cfg && v.a.rcv == w.a.rcv
            && |v.a.snd.buf| == 1 && v.a.snd.buf[0].sn == U32(out)
            && v.a.snd == Sender(U32(out), U32(out + 1), [], v.a.snd.buf)
  {
    Offers(w.a, out, into);
    var k := w.a.(snd := w.a.snd.(queue := [Blank(0, [0])]));
    Launches(k, out, into);
    OneDatagram(w.a.cfg.mtu, Pushed(w.a, out, into));
    hide Send, Flush, Datagrams, U32;
  }

  ghost function AfterTake(w: World, i: nat): (v: World)
    requires Configured(w)
    ensures Configured(v)
  {
    StepAConfigured(true, w, Deliver(i));
    var v := StepA(true, w, Deliver(i));
    StepAConfigured(true, v, Receive(1));
    StepA(true, v, Receive(1))
  }

  /** The far side, seen as a, takes the octet in and reads it. */
  lemma {:induction false} Takes(w: World, out: nat, into: nat, i: nat, p: Packet)
    requires Configured(w) && Resting(w.a, out, into) && i < |w.ba| && w.ba[i] == [p]
    requires p == Packet(w.a.cfg.conv, CMD_PUSH, 0, 128, 0, U32(into), p.una, [0])
    ensures var v := AfterTake(w, i);
            && v == w.(a := v.a, gotA := w.gotA + [[0]]) && v.a.cfg == w.a.cfg
            && Resting(v.a.(rcv := v.a.rcv.(acks := [])), out, into + 1) && v.a.rcv.acks == [Ack(U32(into), 0)]
  {
    Stores(w.a, out, into, p);
    var k := Input(true, w.a, [p]);
    Reads(k, out, into + 1, Arrived(p));
    hide Input, Recv, U32, Plain;
  }

  /** And acknowledges it. */
  lemma {:induction false} Replies(w: World, out: nat, into: nat)
    requires Configured(w) && w.a.rcv.acks == [Ack(U32(into), 0)]
    requires Resting(w.a.(rcv := w.a.rcv.(acks := [])), out, into + 1)
    ensures var v := StepA(true, w, FlushNow);
            && v == w.(a := v.a, ab := w.ab + [[Acked(w.a, into)]]) && v.a.cfg == w.a.cfg && Resting(v.a, out, into + 1)
  {
    Acknowledges(w.a, out, into);
    OneDatagram(w.a.cfg.mtu, Acked(w.a, into));
    hide Flush, Datagrams, U32, Calm;
  }

  /** The sender learns that it arrived. */
  lemma {:induction false} Learns(w: World, out: nat, into: nat, i: nat)
    requires Configured(w) && Calm(w.a) && |w.a.snd.buf| == 1 && w.a.snd.buf[0].sn == U32(out)
    requires w.a.snd == Sender(U32(out), U32(out + 1), [], w.a.snd.buf) && w.a.rcv == Receiver(U32(into), [], [], [])
    requires i < |w.ba| && w.ba[i] == [Acked(w.a, out)]
    ensures var v := StepA(true, w, Deliver(i));
            v == w.(a := v.a) && v.a.cfg == w.a.cfg && Resting(v.a, out + 1, into)
  {
    Forgets(w.a, out, into, Acked(w.a, out));
    hide Input, U32, Calm;
  }

  /** The six events of an exchange started by A. */
  ghost function AfterExchange(w: World, i: nat): (v: World)
    requires Configured(w)
    ensures Configured(v)
  {
    StepAConfigured(true, w, SendMessage([0]));
    StepAConfigured(true, StepA(true, w, SendMessage([0])), FlushNow);
    var w1 := AfterTake(Mirror(AfterSend(w)), i);
    StepAConfigured(true, w1, FlushNow);
    var w2 := Mirror(StepA(true, w1, FlushNow));
    StepAConfigured(true, w2, Deliver(i));
    StepA(true, w2, Deliver(i))
  }

  lemma {:induction false} ExchangeRests(w: World, out: nat, into: nat, i: nat)
    requires Between(w, out, into) && |w.ab| == i && |w.ba| == i
    ensures var v := AfterExchange(w, i);
            && v == World(v.a, v.b, w.ab + [[Pushed(w.a, out, into)]], w.ba + [[Acked(w.b, out)]],
                          w.sentA + [[0]], w.sentB, w.gotA, w.gotB + [[0]])
            && Between(v, out + 1, into) && v.a.cfg == w.a.cfg && v.b.cfg == w.b.cfg
  {
    assert Resting(w.a, out, into) && Resting(w.b, into, out);
    assert w.a.rcv == Receiver(U32(into), [], [], []);
    hide StepA, U32, Resting, Calm;
    SendsOne(w, out, into);
    var w1 := AfterSend(w);
    assert w1.ab[i] == [Pushed(w.a, out, into)];
    Takes(Mirror(w1), into, out, i, Pushed(w.a, out, into));
    var w2 := AfterTake(Mirror(w1), i);
    Replies(w2, into, out);
    var w3 := Mirror(StepA(true, w2, FlushNow));
    assert w3.ba[i] == [Acked(w.b, out)];
    hide AfterTake, AfterSend;
    Learns(w3, out, into, i);
  }

  lemma {:induction false} RunSnoc(w: World, acts: seq<Action>, act: Action)
    requires Configured(w)
    ensures Run(true, w, acts + [act]) == Step(true, Run(true, w, acts), act)
  {
    assert (acts + [act])[..|acts|] == acts;
    hide Step;
  }

  function Steps3(w: World, x: Action, y: Action, z: Action): (v: World)
    requires Configured(w)
    ensures Configured(v)
  {
    StepConfigured(true, w, x);
    var w1 := Step(true, w, x);
    StepConfigured(true, w1, y);
    var w2 := Step(true, w1, y);
    StepConfigured(true, w2, z);
    Step(true, w2, z)
  }

  lemma {:induction false} RunThree(w: World, acts: seq<Action>, x: Action, y: Action, z: Action)
    requires Configured(w)
    ensures Run(true, w, acts + [x, y, z]) == Steps3(Run(true, w, acts), x, y, z)
  {
    hide Step, Run;
    RunSnoc(w, acts, x);
    RunSnoc(w, acts + [x], y);
    RunSnoc(w, acts + [x] + [y], z);
    assert acts + [x, y, z] == acts + [x] + [y] + [z];
  }

  lemma {:induction false} RunExchange(w: World, acts: seq<Action>, fromA: bool, i: nat)
    requires Configured(w)
    ensures var v := Run(true, w, acts);
            Run(true, w, acts + Exchange(fromA, i))
            == if fromA then AfterExchange(v, i) else Mirror(AfterExchange(Mirror(v), i))
  {
    var e := Exchange(fromA, i);
    var v := Run(true, w, acts);
    var half := acts + [e[0], e[1], e[2]];
    RunThree(w, acts, e[0], e[1], e[2]);
    RunThree(w, half, e[3], e[4], e[5]);
    assert acts + e == half + [e[3], e[4], e[5]];
    hide StepA, Run;
    ExchangeSteps(v, fromA, i);
  }

  lemma {:induction false} ExchangeSteps(v: World, fromA: bool, i: nat)
    requires Configured(v)
    ensures var e := Exchange(fromA, i);
            Steps3(Steps3(v, e[0], e[1], e[2]), e[3], e[4], e[5]) ==
            (if fromA then AfterExchange(v, i) else Mirror(AfterExchange(Mirror(v), i)))
  {
    hide StepA;
  }

  // ---------------------------------------------------------------- the whole run

  lemma {:induction false} TickRests(k: Kcb)
    requires k == Created(TunnelConfig())
    ensures var r := Update(true, k, U32(0));
            Resting(r.k, 0, 0) && r.ps == [] && r.k.cfg == k.cfg
  {
    assert U32(0) == 0 && U32(20) == 20 && TimeDiff(0, 0) == 0 && TimeDiff(0, 20) == 0 - 20;
    assert Plain(k.cfg) && k.cfg.interval == 20;
    UpdateIsFlush(true, k, 0);
    var k1 := UpdateClock(k, 0);
    hide Update, U32, TimeDiff, TunnelConfig;
    CalmFlush(k1);
    FlushIsTail(true, k1);
    hide Flush, FlushTail;
    assert Launch(true, Quiet(k1), 32) == Quiet(k1);
    var none := Sweep([], [], 0, 0, false);
    assert SweepUpto(Quiet(k1), 0) == none;
    CalmTail(k1, Quiet(k1), none);
    assert AckPackets(k1, 0) == [];
  }

  /** n messages of one octet. */
  function Octets(n: nat): (msgs: seq<Msg>)
    ensures |msgs| == n
  {
    if n == 0 then [] else Octets(n - 1) + [[0]]
  }

  /** After the first exchange and n more. */
  ghost predicate AfterRounds(w: World, n: nat)
  {
    && Between(w, n, 1) && w.a.cfg == TunnelConfig() && w.b.cfg == TunnelConfig()
    && |w.ab| == n + 1 && |w.ba| == n + 1 && w.ba[0] == [Pushed(w.b, 0, 0)]
    && w.sentA == Octets(n) && w.gotB == w.sentA
  }

  lemma {:induction false} ClocksStart()
    ensures var w := Run(true, TunnelStart(), [Action(true, Tick(0)), Action(false, Tick(0))]);
            && Between(w, 0, 0) && w == World(w.a, w.b, [], [], [], [], [], [])
            && w.a.cfg == TunnelConfig() && w.b.cfg == TunnelConfig()
  {
    var x, y := Action(true, Tick(0)), Action(false, Tick(0));
    var start := TunnelStart();
    assert Run(true, start, []) == start;
    RunSnoc(start, [], x);
    RunSnoc(start, [x], y);
    assert [] + [x] == [x] && [x] + [y] == [x, y];
    TickRests(start.a);
    TickRests(start.b);
    assert Datagrams(start.a.cfg.mtu, []) == [];
    hide Update, Run, Datagrams, U32, TunnelConfig;
    var w1 := Step(true, start, x);
    assert w1 == start.(a := w1.a);
  }

  lemma {:induction false} FirstRound(w: World)
    requires Between(w, 0, 0) && w == World(w.a, w.b, [], [], [], [], [], [])
    requires w.a.cfg == TunnelConfig() && w.b.cfg == TunnelConfig()
    ensures AfterRounds(Mirror(AfterExchange(Mirror(w), 0)), 0)
  {
    hide AfterExchange, Resting, TunnelConfig, U32, StepA;
    ExchangeRests(Mirror(w), 0, 0, 0);
  }

  lemma {:induction false} NextRound(w: World, n: nat)
    requires AfterRounds(w, n)
    ensures AfterRounds(AfterExchange(w, n + 1), n + 1)
  {
    hide AfterExchange, Resting, TunnelConfig, U32;
    ExchangeRests(w, n, 1, n + 1);
  }

  lemma {:induction false} RoundsRest(n: nat)
    ensures AfterRounds(Run(true, TunnelStart(), Rounds(n)), n)
  {
    hide Run, AfterRounds, TunnelConfig, AfterExchange, Exchange, TunnelStart, Between;
    if n == 0 {
      var clocks := [Action(true, Tick(0)), Action(false, Tick(0))];
      ClocksStart();
      RunExchange(TunnelStart(), clocks, false, 0);
      FirstRound(Run(true, TunnelStart(), clocks));
    } else {
      RoundsRest(n - 1);
      RunExchange(TunnelStart(), Rounds(n - 1), true, n);
      NextRound(Run(true, TunnelStart(), Rounds(n - 1)), n - 1);
    }
  }

  // ---------------------------------------------------------------- the late datagram

  /** A data packet leaves the sender as its header did. */
  lemma {:induction false} DataTouchesHeader(k: Kcb, p: Packet)
    requires ValidConfig(k.cfg) && p.cmd == CMD_PUSH as int
    ensures Input(true, k, [p]).snd == TakeHeader(true, k, p).snd
  {
    InputOne(k, p);
    hide TakeHeader, TakePush, GrowWindow, TimeDiff, U32;
  }

  lemma {:induction false} CalmIsValid(k: Kcb)
    requires Calm(k)
    ensures ValidConfig(k.cfg)
  {
  }

  /** The first datagram of B arrives again while one segment of A is in flight. */
  lemma {:induction false} StaleArrives(k: Kcb, n: nat, p: Packet)
    requires Calm(k) && |k.snd.buf| == 1 && k.snd.buf[0].sn == U32(n)
    requires k.snd == Sender(U32(n), U32(n + 1), [], k.snd.buf) && k.rcv == Receiver(1, [], [], [])
    requires p.cmd == CMD_PUSH as int && p.sn == 0 && p.una == 0
    ensures ValidConfig(k.cfg)
    ensures var s := Input(true, k, [p]).snd;
            s.queue == [] && s.nxt == U32(n + 1) && s.buf == if U32(n) > TWO_31 then [] else k.snd.buf
  {
    U32Sub(0, n);
    assert U32(0) == 0 && (U32(0 - n) == if U32(n) == 0 then 0 else TWO_32 - U32(n));
    hide *;
    CalmIsValid(k);
    DataTouchesHeader(k, p);
    RemovedWhenAhead(k.snd.buf[0], n, 0);
    assert k.snd.buf == [k.snd.buf[0]];
    HeaderDrops(k, p);
  }

  lemma {:induction false} HeaderDrops(k: Kcb, p: Packet)
    ensures var s := TakeHeader(true, k, p).snd;
            s.queue == k.snd.queue && s.nxt == k.snd.nxt && s.buf == DropAcked(true, k.snd.buf, p.una)
  {
    hide DropAcked;
  }

  lemma {:induction false} StaleSteps(w: World, n: nat)
    requires AfterRounds(w, n)
    ensures var v := StepA(true, AfterSend(w), Deliver(0));
            && v == w.(a := v.a, ab := v.ab, sentA := Octets(n + 1))
            && v.a.snd.queue == [] && v.a.snd.nxt == U32(n + 1) && (v.a.snd.buf == [] <==> U32(n) > TWO_31)
  {
    SendsOne(w, n, 1);
    assert U32(1) == 1 && U32(0) == 0;
    var k := AfterSend(w).a;
    StaleArrives(k, n, Pushed(w.b, 0, 0));
    hide Input, AfterSend, TunnelConfig, U32, Calm;
  }

  /**
   For every n: the run sends n + 1 messages and n of them arrive.  The sender forgets the last one,
   which is nowhere at the far side, exactly when its number modulo 2^32 is above 2^31.
   */
  lemma {:induction false} StaleAckOutcome(n: nat)
    ensures var w := Run(true, TunnelStart(), StaleRun(n));
            && w.sentA == Octets(n + 1) && w.gotB == Octets(n) == w.sentA[..n]
            && w.a.snd.queue == [] && w.a.snd.nxt == U32(n + 1)
            && w.b.rcv == Receiver(U32(n), [], [], [])
            && (w.a.snd.buf == [] <==> U32(n) > TWO_31)
  {
    var start, rounds := TunnelStart(), Rounds(n);
    RoundsRest(n);
    var w := Run(true, start, rounds);
    RunThree(start, rounds, Action(true, SendMessage([0])), Action(true, FlushNow), Action(true, Deliver(0)));
    StaleSteps(w, n);
    hide Run, StepA, TunnelStart, U32;
  }

  lemma {:induction false} OneFragment(msg: Msg, mss: nat)
    requires mss > 0 && |msg| == 1
    ensures |Cut(msg, mss)| == 1
  {
    assert FragmentCount(1, mss) == 1;
    hide Cut, FragmentCount;
  }

  lemma {:induction false} OctetsAreSegments(n: nat, mss: nat)
    requires mss > 0
    ensures |Stream(Octets(n), mss)| == n
  {
    hide *;
    if n == 0 {
      NoOctets(mss);
    } else {
      OctetsAreSegments(n - 1, mss);
      StreamSnoc(Octets(n - 1), [0], mss);
      OctetsSnoc(n);
      OneFragment([0], mss);
    }
  }

  lemma {:induction false} NoOctets(mss: nat)
    requires mss > 0
    ensures Stream(Octets(0), mss) == []
  {
  }

  lemma {:induction false} OctetsSnoc(n: nat)
    requires n > 0
    ensures Octets(n) == Octets(n - 1) + [[0]]
  {
  }

  /** A state that forgot a segment is no reduction of an unbounded one. */
  lemma {:induction false} LostIsNoReduction(w: World, u: World, n: nat)
    requires Inv(u) && w.a.snd.buf == [] && w.b.rcv == Receiver(U32(n), [], [], []) && w.a.snd.nxt == U32(n + 1)
    ensures w != WrapWorld(u)
  {
    if w == WrapWorld(u) {
      hide Stream, Carries, Forward, Backward, Delivered, FragsOf, NoLoss;
      assert |u.a.snd.buf| == 0 && |u.b.rcv.buf| == 0;
      AllArrived(u.a.snd, u.b.rcv);
    }
  }

  lemma {:induction false} AllArrived(snd: Sender, r: Receiver)
    requires NoLoss(snd, r) && snd.buf == [] && r.buf == [] && r.nxt <= snd.nxt
    ensures r.nxt == snd.nxt
  {
    assert r.nxt < snd.nxt ==> Has(snd.buf, r.nxt) || Held(r, r.nxt);
  }

  /**
   So the bound on the short runs is the last that holds: at n == 2^31 + 1 the run has sent 2^31 + 2
   segments, one of them is lost, and no run of the unbounded protocol looks like it.
   */
  lemma {:induction false} BoundMatters(n: nat)
    requires U32(n) > TWO_31
    ensures var w := Run(true, TunnelStart(), StaleRun(n));
            && |Stream(w.sentA, w.a.cfg.Mss())| == n + 1
            && w != WrapWorld(Run(false, TunnelStart(), StaleRun(n)))
  {
    StaleAckOutcome(n);
    StartInv(TunnelConfig(), TunnelConfig());
    RunInv(TunnelStart(), StaleRun(n));
    hide Inv, StaleRun, WrapWorld;
    LostIsNoReduction(Run(true, TunnelStart(), StaleRun(n)), Run(false, TunnelStart(), StaleRun(n)), n);
    OctetsAreSegments(n + 1, TunnelConfig().Mss());
  }
}
