/**
 Two KCP endpoints joined by a network that loses, repeats and reorders datagrams.

 A run is any sequence of actions.  Every datagram ever emitted stays available, so delivering
 index i models any delay and repetition, and never delivering it models loss.
 */
module KcpWorld {
  import opened Bytes
  import opened KcpSpec
  import opened KcpWire
  import opened KcpLists
  import opened KcpMessages
  import opened KcpFlow

  datatype World = World(
    a: Kcb, b: Kcb,
    ab: Network, ba: Network,
    sentA: seq<Msg>, sentB: seq<Msg>,
    gotA: seq<Msg>, gotB: seq<Msg>)

  datatype Event =
    | SendMessage(msg: Msg)
    | Tick(now: nat)
    | FlushNow
    | Deliver(index: nat)
    | Receive(len: int)

  /** An event at endpoint a or at endpoint b. */
  datatype Action = Action(atA: bool, event: Event)

  function Mirror(w: World): World
  {
    World(w.b, w.a, w.ba, w.ab, w.sentB, w.sentA, w.gotB, w.gotA)
  }

  predicate Configured(w: World)
  {
    && ValidConfig(w.a.cfg) && ValidConfig(w.b.cfg)
    && w.a.cfg.conv == w.b.cfg.conv
    && !w.a.cfg.stream && !w.b.cfg.stream
  }

  function Emits(w: World, r: FlushResult): World
  {
    w.(a := r.k, ab := w.ab + Datagrams(w.a.cfg.mtu, r.ps))
  }

  function StepA(wrap: bool, w: World, e: Event): World
    requires Configured(w)
  {
    match e
    case SendMessage(msg) =>
      var (k, ret) := Send(w.a, msg);
      w.(a := k, sentA := if ret >= 0 then w.sentA + [msg] else w.sentA)
    case Tick(now) => Emits(w, Update(wrap, w.a, U32(now)))
    case FlushNow => Emits(w, Flush(wrap, w.a))
    case Deliver(i) => if i < |w.ba| then w.(a := Input(wrap, w.a, w.ba[i])) else w
    case Receive(len) =>
      var (k, ret, msg) := Recv(wrap, w.a, len);
      w.(a := k, gotA := GotAfter(w.gotA, len, ret, msg))
  }

  function Step(wrap: bool, w: World, act: Action): World
    requires Configured(w)
  {
    if act.atA then StepA(wrap, w, act.event) else Mirror(StepA(wrap, Mirror(w), act.event))
  }

  lemma {:induction false} StepConfigured(wrap: bool, w: World, act: Action)
    requires Configured(w)
    ensures Configured(Step(wrap, w, act))
    ensures Step(wrap, w, act).a.cfg == w.a.cfg && Step(wrap, w, act).b.cfg == w.b.cfg
  {
    var v := if act.atA then w else Mirror(w);
    StepAConfigured(wrap, v, act.event);
    hide StepA;
  }

  lemma {:induction false} StepAConfigured(wrap: bool, w: World, e: Event)
    requires Configured(w)
    ensures StepA(wrap, w, e).a.cfg == w.a.cfg && StepA(wrap, w, e).b == w.b
  {
    hide Datagrams, Flush, SweepUpto, Drain, InputPackets, Fragments, Extended, TimeDiff, U32;
    match e
    case SendMessage(msg) =>
    case Tick(now) =>
      UpdateConfig(wrap, w.a, U32(now));
    case FlushNow =>
      FlushConfig(wrap, w.a);
    case Deliver(i) =>
      if i < |w.ba| {
        InputKeepsConfig(wrap, InputState(w.a, NoAck), w.ba[i]);
      }
    case Receive(len) =>
  }

  lemma {:induction false} FlushConfig(wrap: bool, k: Kcb)
    requires ValidConfig(k.cfg)
    ensures Flush(wrap, k).k.cfg == k.cfg
  {
    hide Launch, SweepUpto, ProbeTimer, AckPackets, ProbePackets, Adjusted;
  }

  lemma {:induction false} UpdateConfig(wrap: bool, k: Kcb, now: nat)
    requires ValidConfig(k.cfg)
    ensures Update(wrap, k, now).k.cfg == k.cfg
  {
    hide Flush, TimeDiff;
    forall t: Timing
      ensures Flush(wrap, k.(tm := t)).k.cfg == k.cfg
    {
      FlushConfig(wrap, k.(tm := t));
    }
  }

  function Run(wrap: bool, w: World, acts: seq<Action>): (w': World)
    requires Configured(w)
    ensures Configured(w') && w'.a.cfg == w.a.cfg && w'.b.cfg == w.b.cfg
  {
    if acts == [] then w
    else
      var v := Run(wrap, w, acts[..|acts| - 1]);
      StepConfigured(wrap, v, acts[|acts| - 1]);
      Step(wrap, v, acts[|acts| - 1])
  }

  function Start(ca: Config, cb: Config): World
  {
    World(Created(ca), Created(cb), [], [], [], [], [], [])
  }

  // ---------------------------------------------------------------- the invariant

  /** The header fields that are not sequence numbers fit the wire. */
  predicate HeaderOk(p: Packet, conv: nat)
  {
    p.conv == conv && KnownCommand(p.cmd) && p.frg < 0x100 && p.wnd < 0x1_0000 && p.ts < TWO_32
  }

  /** Clock and pending acknowledgement stamps are 32-bit values. */
  ghost predicate TimesOk(k: Kcb)
  {
    k.tm.current < TWO_32 && forall a :: a in k.rcv.acks ==> a.ts < TWO_32
  }

  /** Every datagram has between 1 and mtu octets and belongs to the conversation. */
  ghost predicate DatagramsOk(net: Network, mtu: nat, conv: nat)
  {
    && (forall i :: 0 <= i < |net| ==> 0 < TotalSize(net[i]) <= mtu)
    && (forall p :: Sent(net, p) ==> HeaderOk(p, conv))
  }

  ghost predicate Half(snd: Kcb, rcv: Kcb, fwd: Network, back: Network, sent: seq<Msg>, got: seq<Msg>)
  {
    && ValidConfig(snd.cfg)
    && Flow(snd.snd, snd.cfg.sndWnd, snd.cfg.Mss(), rcv.rcv, rcv.cfg.rcvWnd, fwd, back, sent, got)
    && DatagramsOk(fwd, snd.cfg.mtu, snd.cfg.conv)
  }

  ghost predicate Inv(w: World)
  {
    && Configured(w) && TimesOk(w.a) && TimesOk(w.b)
    && Half(w.a, w.b, w.ab, w.ba, w.sentA, w.gotB)
    && Half(w.b, w.a, w.ba, w.ab, w.sentB, w.gotA)
  }

  lemma {:induction false} InvMirror(w: World)
    ensures Inv(Mirror(w)) <==> Inv(w)
  {
    hide Half;
  }

  lemma {:induction false} StartInv(ca: Config, cb: Config)
    requires Configured(Start(ca, cb))
    ensures Inv(Start(ca, cb))
  {
    var w := Start(ca, cb);
    FreshHalf(w.a, w.b, ca, cb);
    FreshHalf(w.b, w.a, cb, ca);
    hide Half;
  }

  lemma {:induction false} FreshHalf(snd: Kcb, rcv: Kcb, cs: Config, cr: Config)
    requires ValidConfig(cs) && snd == Created(cs) && rcv == Created(cr)
    ensures Half(snd, rcv, [], [], [], [])
  {
    hide Has;
  }

  // ---------------------------------------------------------------- each event keeps it

  lemma {:induction false} SendInv(w: World, msg: Msg)
    requires Inv(w)
    ensures Inv(StepA(false, w, SendMessage(msg)))
  {
    hide Flow, DatagramsOk, Fragments;
    var mss := w.a.cfg.Mss();
    assert msg[0..] == msg;
    if FragmentCount(|msg|, mss) < WND_RCV {
      SendKeeps(w.a.snd, w.a.cfg.sndWnd, mss, w.b.rcv, w.b.cfg.rcvWnd, w.ab, w.ba, w.sentA, w.gotB, msg);
    }
  }

  lemma {:induction false} RecvInv(w: World, len: int)
    requires Inv(w)
    ensures Inv(StepA(false, w, Receive(len)))
  {
    hide Flow, DatagramsOk, Recv;
    RecvFlow(w.b.snd, w.b.cfg.sndWnd, w.b.cfg.Mss(), w.a, w.ba, w.ab, w.sentB, w.gotA, len);
    RecvFrame(w.a, len);
  }

  lemma {:induction false} DrainAcks(r: Receiver, wnd: nat)
    ensures Drain(false, r, wnd).acks == r.acks
  {
    var n := DrainSpec(r, wnd);
  }

  lemma {:induction false} RecvFrame(k: Kcb, len: int)
    ensures var k' := Recv(false, k, len).0;
            k'.cfg == k.cfg && k'.snd == k.snd && k'.rcv.acks == k.rcv.acks && k'.tm.current == k.tm.current
  {
    DrainAcks(k.rcv, k.cfg.rcvWnd);
    DrainAcks(k.rcv.(queue := k.rcv.queue[MessageEnd(k.rcv.queue)..]), k.cfg.rcvWnd);
    hide Drain, Join, MessageEnd, PeekSize;
  }

  // one packet of a delivered datagram

  ghost predicate InvWith(w: World, k: Kcb)
  {
    Inv(w.(a := k))
  }

  lemma {:induction false} HeaderInv(w: World, k: Kcb, p: Packet)
    requires InvWith(w, k) && Sent(w.ba, p)
    ensures InvWith(w, TakeHeader(false, k, p))
  {
    hide Flow, DatagramsOk, Sent, DropAcked;
    var k' := TakeHeader(false, k, p);
    assert Flow(k'.snd, k'.cfg.sndWnd, k'.cfg.Mss(), w.b.rcv, w.b.cfg.rcvWnd, w.ab, w.ba, w.sentA, w.gotB) by {
      HeaderFlow(k.snd, p, k.cfg.sndWnd, k.cfg.Mss(), w.b.rcv, w.b.cfg.rcvWnd, w.ab, w.ba, w.sentA, w.gotB);
    }
  }

  lemma {:induction false} HeaderFlow(snd: Sender, p: Packet, sw: nat, mss: nat, r: Receiver, rw: nat, fwd: Network,
                                      back: Network,
                   sent: seq<Msg>, got: seq<Msg>)
    requires Flow(snd, sw, mss, r, rw, fwd, back, sent, got) && Sent(back, p)
    ensures Flow(Shrink(snd.(buf := DropAcked(false, snd.buf, p.una))), sw, mss, r, rw, fwd, back, sent, got)
  {
    assert AckGenuine(p, r);
    HeaderForgets(snd, r, p.una);
    ForgetsKeeps(snd, Shrink(snd.(buf := DropAcked(false, snd.buf, p.una))), sw, mss, r, rw, fwd, back, sent, got);
  }

  lemma {:induction false} AckFlow(snd: Sender, p: Packet, sw: nat, mss: nat, r: Receiver, rw: nat, fwd: Network,
                                   back: Network,
                sent: seq<Msg>, got: seq<Msg>)
    requires Flow(snd, sw, mss, r, rw, fwd, back, sent, got) && Sent(back, p) && p.cmd == CMD_ACK as int
    ensures Flow(Shrink(ParseAck(false, snd, p.sn)), sw, mss, r, rw, fwd, back, sent, got)
  {
    assert AckGenuine(p, r);
    AckForgets(snd, r, p.sn);
    ForgetsKeeps(snd, Shrink(ParseAck(false, snd, p.sn)), sw, mss, r, rw, fwd, back, sent, got);
  }

  lemma {:induction false} AckInv(w: World, k: Kcb, p: Packet)
    requires InvWith(w, k) && Sent(w.ba, p) && p.cmd == CMD_ACK as int
    ensures InvWith(w, TakeAck(false, k, p))
  {
    AckFlow(k.snd, p, k.cfg.sndWnd, k.cfg.Mss(), w.b.rcv, w.b.cfg.rcvWnd, w.ab, w.ba, w.sentA, w.gotB);
    hide Flow, DatagramsOk, Sent, TimeDiff, ParseAck, Shrink;
  }

  lemma {:induction false} PushAcks(r: Receiver, wnd: nat, p: Packet)
    ensures forall a :: a in TakePush(false, r, wnd, p).acks ==> a in r.acks || a.ts == p.ts
  {
    var r1 := r.(acks := r.acks + [Ack(p.sn, p.ts)]);
    DrainAcks(r1.(buf := Insert(false, r1.buf, Arrived(p))), wnd);
    hide Insert, Drain;
  }

  lemma {:induction false} PushInv(w: World, k: Kcb, p: Packet)
    requires InvWith(w, k) && Sent(w.ba, p) && p.cmd == CMD_PUSH as int
    ensures InvWith(w, k.(rcv := TakePush(false, k.rcv, k.cfg.rcvWnd, p)))
  {
    PushFlow(w.b.snd, w.b.cfg.sndWnd, w.b.cfg.Mss(), k.rcv, k.cfg.rcvWnd, w.ba, w.ab, w.sentB, w.gotA, p);
    PushAcks(k.rcv, k.cfg.rcvWnd, p);
    assert HeaderOk(p, w.b.cfg.conv);
    hide Flow, DatagramsOk, Sent, TakePush;
  }

  lemma {:induction false} PacketInv(w: World, st: InputState, p: Packet)
    requires InvWith(w, st.k) && Sent(w.ba, p)
    ensures InvWith(w, InputPacket(false, st, p).k)
  {
    HeaderInv(w, st.k, p);
    var k := TakeHeader(false, st.k, p);
    if p.cmd == CMD_ACK as int {
      AckInv(w, k, p);
    } else if p.cmd == CMD_PUSH as int {
      PushInv(w, k, p);
    } else {
      AskInv(w, k);
    }
    hide InvWith, Sent, TakeHeader, TakeAck, TakePush;
  }

  lemma {:induction false} AskInv(w: World, k: Kcb)
    requires InvWith(w, k)
    ensures InvWith(w, k.(tm := k.tm.(askTell := true)))
  {
    hide Flow, DatagramsOk;
  }

  lemma {:induction false} PacketsInv(w: World, k: Kcb, ps: seq<Packet>)
    requires InvWith(w, k) && forall p :: p in ps ==> Sent(w.ba, p)
    ensures InvWith(w, InputPackets(false, InputState(k, NoAck), ps).k)
    decreases |ps|
  {
    if ps != [] {
      hide InvWith, Sent, InputPacket;
      PacketsInv(w, k, ps[..|ps| - 1]);
      PacketInv(w, InputPackets(false, InputState(k, NoAck), ps[..|ps| - 1]), ps[|ps| - 1]);
    }
  }

  lemma {:induction false} FinishInv(w: World, prevUna: nat, st: InputState)
    requires InvWith(w, st.k)
    ensures InvWith(w, FinishInput(false, prevUna, st))
  {
    hide Flow, DatagramsOk, ParseFastAck, GrowWindow;
    if st.scan.Latest? {
      FastAckFlow(st.k.snd, st.scan.sn, st.scan.ts, st.k.cfg.sndWnd, st.k.cfg.Mss(),
                  w.b.rcv, w.b.cfg.rcvWnd, w.ab, w.ba, w.sentA, w.gotB);
    }
  }

  lemma {:induction false} DeliverInv(w: World, i: nat)
    requires Inv(w)
    ensures Inv(StepA(false, w, Deliver(i)))
  {
    if i < |w.ba| {
      assert forall p :: p in w.ba[i] ==> Sent(w.ba, p);
      assert w.(a := w.a) == w;
      hide Inv, FinishInput, InputPackets, Sent;
      PacketsInv(w, w.a, w.ba[i]);
      FinishInv(w, w.a.snd.una, InputPackets(false, InputState(w.a, NoAck), w.ba[i]));
    }
  }

  // flushing

  lemma {:induction false} DatagramMembers(mtu: nat, ps: seq<Packet>)
    requires forall p :: p in ps ==> WireSize(p) <= mtu
    ensures forall i, p :: 0 <= i < |Datagrams(mtu, ps)| && p in Datagrams(mtu, ps)[i] ==> p in ps
    ensures forall i :: 0 <= i < |Datagrams(mtu, ps)| ==> 0 < TotalSize(Datagrams(mtu, ps)[i]) <= mtu
  {
    DatagramsCarry(mtu, ps);
    var ds := Datagrams(mtu, ps);
    hide Datagrams, Flatten;
    forall i, p | 0 <= i < |ds| && p in ds[i]
      ensures p in ps
    {
      var j :| 0 <= j < |ds[i]| && p == ds[i][j];
      FlattenMember(ds, i, j);
    }
  }

  /** The parts of a flush: what it sends and the sender it leaves. */
  lemma {:induction false} FlushParts(k: Kcb)
    requires ValidConfig(k.cfg) && k.tm.updated
    ensures var launched := Launch(false, Quiet(k), SendWindow(k));
            var s := SweepUpto(launched, |launched.snd.buf|);
            var r := Flush(false, k);
            && r.ps == ControlPackets(k) + s.ps
            && r.k.snd == launched.snd.(buf := s.segs)
            && r.k.rcv == k.rcv.(acks := [])
            && r.k.tm.current == k.tm.current && launched.tm.current == k.tm.current
  {
    FlushIsTail(false, k);
    LaunchKeeps(false, Quiet(k), SendWindow(k));
    assert ProbeTimer(k.tm, k.cc.rmtWnd).current == k.tm.current;
    hide Launch, SweepUpto, ProbeTimer, AckPackets, ProbePackets, Adjusted, SendWindow;
  }

  lemma {:induction false} SenderFits(k: Kcb, sent: seq<Msg>, r: Receiver, rw: nat, fwd: Network, back: Network,
                                      got: seq<Msg>)
    requires ValidConfig(k.cfg)
    requires Flow(k.snd, k.cfg.sndWnd, k.cfg.Mss(), r, rw, fwd, back, sent, got)
    ensures forall i :: 0 <= i < |Stream(sent, k.cfg.Mss())| ==>
              Stream(sent, k.cfg.Mss())[i].frg < WND_RCV - 1 && |Stream(sent, k.cfg.Mss())[i].data| <= k.cfg.Mss()
    ensures Ordered(k.snd.buf, k.snd.una, k.snd.nxt) && Carries(k.snd.buf, Stream(sent, k.cfg.Mss()))
    ensures forall i :: 0 <= i < |k.snd.buf| ==> |k.snd.buf[i].data| <= k.cfg.Mss()
  {
    StreamFits(sent, k.cfg.Mss());
    hide ReceiverOk, Forward, Backward, NoLoss, Delivered, Ordered;
    var s := Stream(sent, k.cfg.Mss());
    forall i | 0 <= i < |k.snd.buf|
      ensures |k.snd.buf[i].data| <= k.cfg.Mss()
    {
      assert FragOf(k.snd.buf[i]) == s[k.snd.buf[i].sn];
    }
    hide Stream;
  }

  /** Every packet of a flush fits a datagram and its header. */
  lemma {:induction false} FlushPacketsFit(k: Kcb, launched: Kcb)
    requires ValidConfig(k.cfg) && launched.cfg == k.cfg && TimesOk(k) && launched.tm.current == k.tm.current
    requires forall i :: 0 <= i < |launched.snd.buf| ==> |launched.snd.buf[i].data| <= k.cfg.Mss()
    ensures forall p :: p in ControlPackets(k) + SweepUpto(launched, |launched.snd.buf|).ps ==>
              WireSize(p) <= k.cfg.mtu && HeaderOk(p, k.cfg.conv)
  {
    SweepSpec(launched, |launched.snd.buf|);
    hide SweepUpto, ProbeTimer, Unused;
  }

  lemma {:induction false} FlushFlow(k: Kcb, r: Receiver, rw: nat, fwd: Network, back: Network, sent: seq<Msg>,
                                     got: seq<Msg>)
    requires ValidConfig(k.cfg) && k.tm.updated && TimesOk(k)
    requires Flow(k.snd, k.cfg.sndWnd, k.cfg.Mss(), r, rw, fwd, back, sent, got)
    requires forall a :: a in k.rcv.acks ==> Held(k.rcv, a.sn)
    ensures var f := Flush(false, k);
            && Flow(f.k.snd, k.cfg.sndWnd, k.cfg.Mss(), r, rw, fwd, back, sent, got)
            && GoodOutput(f.ps, f.k.snd.nxt, Stream(sent, k.cfg.Mss()), k.rcv)
            && (forall p :: p in f.ps ==> WireSize(p) <= k.cfg.mtu && HeaderOk(p, k.cfg.conv))
  {
    hide Flow, Launch, SweepUpto, Stream, Held, Flush, ProbeTimer;
    var launched := Launch(false, Quiet(k), SendWindow(k));
    var n := |launched.snd.buf|;
    LaunchFlow(Quiet(k), SendWindow(k), k.cfg.Mss(), r, rw, fwd, back, sent, got);
    SenderFits(launched, sent, r, rw, fwd, back, got);
    SweepSpec(launched, n);
    assert launched.snd.buf[..n] == launched.snd.buf;
    SameFlow(launched.snd, SweepUpto(launched, n).segs, k.cfg.sndWnd, k.cfg.Mss(), r, rw, fwd, back, sent, got);
    FlushParts(k);
    FlushPacketsFit(k, launched);
    ControlGood(k, ProbeTimer(k.tm, k.cc.rmtWnd), launched.snd.nxt, Stream(sent, k.cfg.Mss()));
    SweepGood(launched, k.rcv, Stream(sent, k.cfg.Mss()), n);
  }

  lemma {:induction false} WireGrows(net: Network, ds: Network, ps: seq<Packet>, mtu: nat, conv: nat)
    requires DatagramsOk(net, mtu, conv)
    requires forall i, p :: 0 <= i < |ds| && p in ds[i] ==> p in ps
    requires forall i :: 0 <= i < |ds| ==> 0 < TotalSize(ds[i]) <= mtu
    requires forall p :: p in ps ==> HeaderOk(p, conv)
    ensures DatagramsOk(net + ds, mtu, conv)
  {
    hide HeaderOk;
    forall p | Sent(net + ds, p)
      ensures Sent(net, p) || p in ps
    {
      var i :| 0 <= i < |net + ds| && p in (net + ds)[i];
      if i < |net| {
        assert p in net[i];
      } else {
        assert p in ds[i - |net|];
      }
    }
    hide Sent;
  }

  /** The sending half after a flush. */
  lemma {:induction false} FlushSendHalf(w: World, ds: Network)
    requires Inv(w) && w.a.tm.updated && ds == Datagrams(w.a.cfg.mtu, Flush(false, w.a).ps)
    ensures Half(Flush(false, w.a).k, w.b, w.ab + ds, w.ba, w.sentA, w.gotB)
    ensures Backward(w.ab + ds, w.a.rcv) && DatagramsOk(w.ab + ds, w.a.cfg.mtu, w.a.cfg.conv)
  {
    var k := w.a;
    var f := Flush(false, k);
    assert forall a :: a in k.rcv.acks ==> Held(k.rcv, a.sn);
    FlushConfig(false, k);
    FlushFlow(k, w.b.rcv, w.b.cfg.rcvWnd, w.ab, w.ba, w.sentA, w.gotB);
    hide Datagrams, Flush, Stream, Held, GoodOutput, SenderOk, ReceiverOk, Delivered, NoLoss, Forward, Backward,
         DatagramsOk, AllSendable;
    DatagramMembers(k.cfg.mtu, f.ps);
    WireGrows(w.ab, ds, f.ps, k.cfg.mtu, k.cfg.conv);
    NetworkGrows(w.ab, ds, f.ps, f.k.snd.nxt, Stream(w.sentA, k.cfg.Mss()), k.rcv);
  }

  lemma {:induction false} AcksLeave(r: Receiver, snd: Sender, wnd: nat, s: seq<Frag>)
    requires ReceiverOk(r, wnd, snd.nxt, s) && NoLoss(snd, r)
    ensures ReceiverOk(r.(acks := []), wnd, snd.nxt, s) && NoLoss(snd, r.(acks := []))
    ensures forall net :: Backward(net, r) ==> Backward(net, r.(acks := []))
  {
    hide Has, Ordered, Sent, Carries, FragsOf;
  }

  lemma {:induction false} AcksLeaveHalf(snd: Kcb, k: Kcb, k': Kcb, fwd: Network, back: Network, back': Network,
                                         sent: seq<Msg>, got: seq<Msg>)
    requires Half(snd, k, fwd, back, sent, got) && Backward(back', k.rcv)
    requires k'.cfg == k.cfg && k'.rcv == k.rcv.(acks := [])
    ensures Half(snd, k', fwd, back', sent, got)
  {
    AcksLeave(k.rcv, snd.snd, k.cfg.rcvWnd, Stream(sent, snd.cfg.Mss()));
    hide Stream, ReceiverOk, SenderOk, NoLoss, Forward, Backward, DatagramsOk, AllSendable;
  }

  /** The receiving half after a flush: the acknowledgements have left. */
  lemma {:induction false} FlushRecvHalf(w: World, ds: Network)
    requires Inv(w) && Backward(w.ab + ds, w.a.rcv) && w.a.tm.updated
    ensures Half(w.b, Flush(false, w.a).k, w.ba, w.ab + ds, w.sentB, w.gotA)
    ensures TimesOk(Flush(false, w.a).k)
  {
    hide Half, Flush, Launch, SweepUpto, Backward;
    FlushConfig(false, w.a);
    FlushParts(w.a);
    AcksLeaveHalf(w.b, w.a, Flush(false, w.a).k, w.ba, w.ab, w.ab + ds, w.sentB, w.gotA);
  }

  lemma {:induction false} FlushInv(w: World)
    requires Inv(w)
    ensures Inv(StepA(false, w, FlushNow))
  {
    hide Half, Datagrams, Flush;
    var ds := Datagrams(w.a.cfg.mtu, Flush(false, w.a).ps);
    if w.a.tm.updated {
      FlushConfig(false, w.a);
      FlushSendHalf(w, ds);
      FlushRecvHalf(w, ds);
    } else {
      FlushIdle(w);
    }
  }

  lemma {:induction false} FlushIdle(w: World)
    requires Inv(w) && !w.a.tm.updated
    ensures StepA(false, w, FlushNow) == w
  {
    hide Half;
    assert Flush(false, w.a) == FlushResult(w.a, []);
    assert Datagrams(w.a.cfg.mtu, []) == [];
    assert w.ab + [] == w.ab;
  }

  lemma {:induction false} TimeInv(w: World, t: Timing)
    requires Inv(w) && t.current < TWO_32
    ensures Inv(w.(a := w.a.(tm := t)))
  {
    hide Flow, DatagramsOk;
  }

  lemma {:induction false} TickInv(w: World, now: nat)
    requires Inv(w)
    ensures Inv(StepA(false, w, Tick(now)))
  {
    var k1 := UpdateClock(w.a, U32(now));
    assert k1 == w.a.(tm := k1.tm) && k1.tm.current < TWO_32;
    assert Datagrams(w.a.cfg.mtu, []) == [];
    assert w.ab + [] == w.ab;
    hide Half, Datagrams, Flush, Update, UpdateClock, TimesOk, U32;
    UpdateIsFlush(false, w.a, U32(now));
    TimeInv(w, k1.tm);
    if UpdateFlushes(w.a, U32(now)) {
      FlushInv(w.(a := k1));
    }
  }

  /** ikcp_update sets the clock and the next flush time, and then possibly flushes. */
  ghost function UpdateClock(k: Kcb, now: nat): Kcb
  {
    k.(tm := Ticked(k.tm, k.cfg.interval, now).tm)
  }

  ghost predicate UpdateFlushes(k: Kcb, now: nat)
  {
    Ticked(k.tm, k.cfg.interval, now).due
  }

  lemma {:induction false} UpdateIsFlush(wrap: bool, k: Kcb, now: nat)
    requires ValidConfig(k.cfg)
    ensures Update(wrap, k, now)
            == if UpdateFlushes(k, now) then Flush(wrap, UpdateClock(k, now)) else FlushResult(UpdateClock(k, now), [])
  {
    hide Flush, TimeDiff, U32;
  }

  lemma {:induction false} StepInv(w: World, act: Action)
    requires Inv(w)
    ensures Inv(Step(false, w, act))
  {
    var v := if act.atA then w else Mirror(w);
    InvMirror(w);
    assert Configured(v);
    hide Inv;
    match act.event {
      case SendMessage(msg) => SendInv(v, msg);
      case Tick(now) => TickInv(v, now);
      case FlushNow => FlushInv(v);
      case Deliver(i) => DeliverInv(v, i);
      case Receive(len) => RecvInv(v, len);
    }
    InvMirror(StepA(false, v, act.event));
    hide StepA;
  }

  // ---------------------------------------------------------------- safety over whole runs

  lemma {:induction false} RunInv(w: World, acts: seq<Action>)
    requires Inv(w)
    ensures Inv(Run(false, w, acts))
    decreases |acts|
  {
    if acts != [] {
      hide Inv, Step;
      RunInv(w, acts[..|acts| - 1]);
      StepInv(Run(false, w, acts[..|acts| - 1]), acts[|acts| - 1]);
    }
  }

  ghost predicate Safe(w: World)
  {
    // messages come out as they went in: same octets, boundaries and order
    && w.gotB <= w.sentA && w.gotA <= w.sentB
    // no segment is forgotten before the far side holds it
    && NoLoss(w.a.snd, w.b.rcv) && NoLoss(w.b.snd, w.a.rcv)
    // the windows
    && WindowOk(w.a) && WindowOk(w.b)
    // a full receive window can always be read
    && Readable(w.a) && Readable(w.b)
  }

  ghost predicate WindowOk(k: Kcb)
  {
    && k.snd.una <= k.snd.nxt && k.snd.nxt - k.snd.una <= k.cfg.sndWnd
    && Ordered(k.snd.buf, k.snd.una, k.snd.nxt) && UnaIsHead(k.snd)
    && Ordered(k.rcv.buf, k.rcv.nxt, k.rcv.nxt + k.cfg.rcvWnd) && |k.rcv.queue| <= k.cfg.rcvWnd
  }

  ghost predicate Readable(k: Kcb)
  {
    |k.rcv.queue| >= k.cfg.rcvWnd ==>
      PeekSize(k.rcv.queue) >= 0 && |Join(k.rcv.queue[..MessageEnd(k.rcv.queue)])| == PeekSize(k.rcv.queue)
  }

  lemma {:induction false} HalfSafe(snd: Kcb, rcv: Kcb, fwd: Network, back: Network, sent: seq<Msg>, got: seq<Msg>)
    requires Half(snd, rcv, fwd, back, sent, got) && ValidConfig(rcv.cfg)
    ensures got <= sent && NoLoss(snd.snd, rcv.rcv) && Readable(rcv)
    ensures snd.snd.una <= snd.snd.nxt && snd.snd.nxt - snd.snd.una <= snd.cfg.sndWnd
    ensures Ordered(snd.snd.buf, snd.snd.una, snd.snd.nxt) && UnaIsHead(snd.snd)
    ensures Ordered(rcv.rcv.buf, rcv.rcv.nxt, rcv.rcv.nxt + rcv.cfg.rcvWnd) && |rcv.rcv.queue| <= rcv.cfg.rcvWnd
  {
    if |rcv.rcv.queue| >= rcv.cfg.rcvWnd {
      NeverWedged(rcv.rcv, rcv.cfg.rcvWnd, snd.snd.nxt, sent, got, snd.cfg.Mss());
    }
    hide Ordered, Stream, PeekSize, Join, MessageEnd, Has, Held;
  }

  lemma {:induction false} InvSafe(w: World)
    requires Inv(w)
    ensures Safe(w)
  {
    HalfSafe(w.a, w.b, w.ab, w.ba, w.sentA, w.gotB);
    HalfSafe(w.b, w.a, w.ba, w.ab, w.sentB, w.gotA);
    hide Half, Ordered, NoLoss, Readable;
  }

  /** Every run of the unbounded protocol is safe. */
  lemma {:induction false} EveryRunSafe(ca: Config, cb: Config, acts: seq<Action>)
    requires Configured(Start(ca, cb))
    ensures Safe(Run(false, Start(ca, cb), acts))
  {
    StartInv(ca, cb);
    RunInv(Start(ca, cb), acts);
    InvSafe(Run(false, Start(ca, cb), acts));
  }
}
