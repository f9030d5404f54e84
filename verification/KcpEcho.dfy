/**
 Every acknowledgement, pending or in the network, echoes the number and stamp of a data packet that
 was sent the other way, so a round-trip sample is the time since that packet left.
 */
module KcpEcho {
  import opened Bytes
  import opened KcpSpec
  import opened KcpFlow
  import opened KcpWorld
  import opened KcpWrap
  import opened KcpRefine
  import KcpTimers
  import opened KcpFlushing
  import opened KcpProgress
  import opened KcpTunnel

  /** A data packet with this number and stamp was put on the wire. */
  ghost predicate Stamped(net: Network, sn: nat, ts: nat)
  {
    exists p :: Sent(net, p) && p.cmd == CMD_PUSH as int && p.sn == sn && p.ts == ts
  }

  ghost predicate Echoes(acks: seq<Ack>, data: Network)
  {
    forall a :: a in acks ==> Stamped(data, a.sn, a.ts)
  }

  ghost predicate NetEchoes(net: Network, data: Network)
  {
    forall p :: Sent(net, p) && p.cmd == CMD_ACK as int ==> Stamped(data, p.sn, p.ts)
  }

  /** What a acknowledges was sent by b. */
  ghost predicate EchoesOf(w: World)
  {
    Echoes(w.a.rcv.acks, w.ba) && NetEchoes(w.ab, w.ba)
  }

  ghost predicate Echoing(w: World)
  {
    EchoesOf(w) && EchoesOf(Mirror(w))
  }

  lemma {:induction false} StampedStays(net: Network, more: Network, sn: nat, ts: nat)
    requires Stamped(net, sn, ts)
    ensures Stamped(net + more, sn, ts)
  {
    var p :| Sent(net, p) && p.cmd == CMD_PUSH as int && p.sn == sn && p.ts == ts;
    var i :| 0 <= i < |net| && p in net[i];
    assert (net + more)[i] == net[i];
    assert Sent(net + more, p);
  }

  lemma {:induction false} EchoesStay(acks: seq<Ack>, net: Network, data: Network, more: Network)
    ensures Echoes(acks, data) ==> Echoes(acks, data + more)
    ensures NetEchoes(net, data) ==> NetEchoes(net, data + more)
  {
    hide Sent, Stamped;
    forall sn: nat, ts: nat | Stamped(data, sn, ts)
      ensures Stamped(data + more, sn, ts)
    {
      StampedStays(data, more, sn, ts);
    }
  }

  // ---------------------------------------------------------------- arriving packets

  lemma {:induction false} PacketAcks(st: InputState, p: Packet, data: Network)
    requires Echoes(st.k.rcv.acks, data) && Sent(data, p)
    ensures Echoes(InputPacket(false, st, p).k.rcv.acks, data)
  {
    hide Sent;
    if p.cmd == CMD_PUSH as int {
      PushReceiver(st, p);
      PushedAcks(st.k.rcv, st.k.cfg.rcvWnd, p);
    } else {
      OtherReceiver(st, p);
    }
    hide TakePush, InputPacket;
  }

  lemma {:induction false} PushedAcks(r: Receiver, wnd: nat, p: Packet)
    ensures forall a :: a in TakePush(false, r, wnd, p).acks ==> a in r.acks || a == Ack(p.sn, p.ts)
  {
    var r1 := r.(acks := r.acks + [Ack(p.sn, p.ts)]);
    DrainAcks(r1.(buf := Insert(false, r1.buf, Arrived(p))), wnd);
    hide Insert, Drain;
  }

  lemma {:induction false} PacketsAcks(st: InputState, ps: seq<Packet>, data: Network)
    requires Echoes(st.k.rcv.acks, data) && forall p :: p in ps ==> Sent(data, p)
    ensures Echoes(InputPackets(false, st, ps).k.rcv.acks, data)
    decreases |ps|
  {
    if ps != [] {
      hide Sent, Echoes, InputPacket;
      InputSnoc(false, st, ps);
      PacketsAcks(st, ps[..|ps| - 1], data);
      PacketAcks(InputPackets(false, st, ps[..|ps| - 1]), ps[|ps| - 1], data);
    }
  }

  // ---------------------------------------------------------------- leaving packets

  lemma {:induction false} FlushEchoes(w: World, k: Kcb)
    requires ValidConfig(k.cfg) && k.cfg == w.a.cfg && k.rcv == w.a.rcv && Inv(w.(a := k))
    requires Echoes(w.a.rcv.acks, w.ba) && NetEchoes(w.ab, w.ba)
    ensures var f := Flush(false, k);
            Echoes(f.k.rcv.acks, w.ba) && NetEchoes(Emits(w, f).ab, w.ba) && w.ab <= Emits(w, f).ab
  {
    var f := Flush(false, k);
    if k.tm.updated {
      FlushTells(w, k);
      hide Flush, Datagrams, Inv, Stamped, ControlOf, DataOf;
      var c, idx := FlushSpeaks(false, k);
      forall p | p in f.ps && p.cmd == CMD_ACK as int
        ensures Stamped(w.ba, p.sn, p.ts)
      {
        AckOfPending(k, f, c, idx, p);
      }
      MoreEchoes(w.ab, Datagrams(k.cfg.mtu, f.ps), f.ps, w.ba);
    } else {
      assert f == FlushResult(k, []);
      assert Datagrams(w.a.cfg.mtu, []) == [];
      assert w.ab + [] == w.ab;
      hide Stamped, Inv, Flush, Datagrams, Sent;
    }
  }

  lemma {:induction false} FlushTells(w: World, k: Kcb)
    requires k.tm.updated && Inv(w.(a := k))
    ensures ValidConfig(k.cfg)
    ensures forall i, p ::
              0 <= i < |Datagrams(k.cfg.mtu, Flush(false, k).ps)| && p in Datagrams(k.cfg.mtu, Flush(false, k).ps)[i]
              ==> p in Flush(false, k).ps
  {
    assert forall a :: a in k.rcv.acks ==> Held(k.rcv, a.sn);
    hide Flow, Held, Flush, Datagrams, DatagramsOk;
    FlushFlow(k, w.b.rcv, w.b.cfg.rcvWnd, w.ab, w.ba, w.sentA, w.gotB);
    DatagramMembers(k.cfg.mtu, Flush(false, k).ps);
  }

  /** An acknowledgement stands among the control packets. */
  lemma {:induction false} AckPlace(k: Kcb, f: FlushResult, c: nat, idx: seq<nat>, p: Packet) returns (i: nat)
    requires Speaks(k, f, c, idx) && p in f.ps && p.cmd == CMD_ACK as int
    ensures i < c <= |f.ps| && f.ps[..c][i] == p
  {
    hide ControlOf, DataOf;
    i :| 0 <= i < |f.ps| && f.ps[i] == p;
    if i >= c {
      assert f.ps[c..][i - c] == p;
      DataCommands(k, f.ps[c..], f.k.snd.buf, idx, i - c);
    }
  }

  lemma {:induction false} DataCommands(k: Kcb, ps: seq<Packet>, buf: seq<Segment>, idx: seq<nat>, j: nat)
    requires DataOf(k, ps, buf, idx) && j < |ps|
    ensures ps[j].cmd == CMD_PUSH as int
  {
    hide Free;
  }

  lemma {:induction false} AckOfPending(k: Kcb, f: FlushResult, c: nat, idx: seq<nat>, p: Packet)
    requires Speaks(k, f, c, idx) && p in f.ps && p.cmd == CMD_ACK as int
    ensures exists a :: a in k.rcv.acks && a == Ack(p.sn, p.ts)
  {
    var i := AckPlace(k, f, c, idx, p);
    hide TimeDiff, KcpTimers.Due, Free, DataOf;
    assert k.rcv.acks[i] in k.rcv.acks;
  }

  lemma {:induction false} MoreEchoes(net: Network, ds: Network, ps: seq<Packet>, data: Network)
    requires NetEchoes(net, data)
    requires forall i, p :: 0 <= i < |ds| && p in ds[i] ==> p in ps
    requires forall p :: p in ps && p.cmd == CMD_ACK as int ==> Stamped(data, p.sn, p.ts)
    ensures NetEchoes(net + ds, data)
  {
    hide Stamped;
    forall p | Sent(net + ds, p)
      ensures Sent(net, p) || p in ps
    {
      var i :| 0 <= i < |net + ds| && p in (net + ds)[i];
      if i < |net| {
        assert p in net[i];
      } else {
        assert p in ds[i - |net|];
      }
    }
  }

  // ---------------------------------------------------------------- whole runs

  lemma {:induction false} DeliverEchoes(w: World, i: nat)
    requires Inv(w) && EchoesOf(w)
    ensures EchoesOf(StepA(false, w, Deliver(i)))
  {
    if i < |w.ba| {
      assert forall p :: p in w.ba[i] ==> Sent(w.ba, p);
      PacketsAcks(InputState(w.a, NoAck), w.ba[i], w.ba);
      InputKeepsConfig(false, InputState(w.a, NoAck), w.ba[i]);
      hide Half, InputPackets, Sent, Stamped, ParseFastAck, GrowWindow;
    }
  }

  lemma {:induction false} ReadEchoes(w: World, e: Event)
    requires Inv(w) && EchoesOf(w) && (e.Receive? || e.SendMessage?)
    ensures EchoesOf(StepA(false, w, e)) && StepA(false, w, e).ab == w.ab
  {
    if e.Receive? {
      RecvFrame(w.a, e.len);
    }
    hide Half, Recv, Stamped, Sent, Fragments, Extended;
  }

  lemma {:induction false} FlushNowEchoes(w: World)
    requires Inv(w) && EchoesOf(w)
    ensures EchoesOf(StepA(false, w, FlushNow)) && w.ab <= StepA(false, w, FlushNow).ab
  {
    assert w.(a := w.a) == w;
    assert ValidConfig(w.a.cfg);
    FlushEchoes(w, w.a);
    hide Half, Flush, Datagrams, Echoes, NetEchoes;
  }

  lemma {:induction false} TickEchoes(w: World, now: nat)
    requires Inv(w) && EchoesOf(w)
    ensures EchoesOf(StepA(false, w, Tick(now))) && w.ab <= StepA(false, w, Tick(now)).ab
  {
    var k := UpdateClock(w.a, U32(now));
    assert k == w.a.(tm := k.tm) && k.tm.current < TWO_32;
    UpdateIsFlush(false, w.a, U32(now));
    TimeInv(w, k.tm);
    EmitsNothing(w, k);
    hide Half, Flush, Datagrams, Echoes, NetEchoes, Update, UpdateClock, UpdateFlushes, U32;
    assert ValidConfig(k.cfg);
    FlushEchoes(w, k);
  }

  lemma {:induction false} StepAEchoes(w: World, e: Event)
    requires Inv(w) && EchoesOf(w)
    ensures EchoesOf(StepA(false, w, e)) && w.ab <= StepA(false, w, e).ab
    ensures StepA(false, w, e).b == w.b && StepA(false, w, e).ba == w.ba
  {
    StepAConfigured(false, w, e);
    match e
    case SendMessage(_) =>
      ReadEchoes(w, e);
      hide Half, EchoesOf, Send;
    case Tick(now) =>
      TickEchoes(w, now);
      hide Half, EchoesOf, Update, Datagrams;
    case FlushNow =>
      FlushNowEchoes(w);
      hide Half, EchoesOf, Flush, Datagrams;
    case Deliver(i) =>
      DeliverEchoes(w, i);
      hide Half, EchoesOf, Input;
    case Receive(_) =>
      ReadEchoes(w, e);
      hide Half, EchoesOf, Recv;
  }

  lemma {:induction false} OtherStillEchoes(w: World, v: World)
    requires EchoesOf(Mirror(w)) && v.b == w.b && v.ba == w.ba && w.ab <= v.ab
    ensures EchoesOf(Mirror(v))
  {
    var more := v.ab[|w.ab|..];
    assert v.ab == w.ab + more;
    EchoesStay(w.b.rcv.acks, w.ba, w.ab, more);
    hide Echoes, NetEchoes;
  }

  lemma {:induction false} StepEchoes(w: World, act: Action)
    requires Inv(w) && Echoing(w)
    ensures Echoing(Step(false, w, act))
  {
    var v := if act.atA then w else Mirror(w);
    InvMirror(w);
    assert Configured(v) && Inv(v) && EchoesOf(v) && EchoesOf(Mirror(v));
    hide Inv, EchoesOf, StepA;
    StepAEchoes(v, act.event);
    OtherStillEchoes(v, StepA(false, v, act.event));
  }

  lemma {:induction false} StartEchoes(ca: Config, cb: Config)
    ensures Echoing(Start(ca, cb))
  {
    hide Stamped;
  }

  /** In every run each acknowledgement, pending or sent, echoes a data packet the far side sent. */
  lemma {:induction false} EveryAckEchoes(ca: Config, cb: Config, acts: seq<Action>)
    requires Configured(Start(ca, cb))
    ensures Echoing(Run(false, Start(ca, cb), acts))
    decreases |acts|
  {
    hide Inv, Echoing, Step, Start;
    StartInv(ca, cb);
    if acts == [] {
      StartEchoes(ca, cb);
    } else {
      EveryAckEchoes(ca, cb, acts[..|acts| - 1]);
      RunInv(Start(ca, cb), acts[..|acts| - 1]);
      StepEchoes(Run(false, Start(ca, cb), acts[..|acts| - 1]), acts[|acts| - 1]);
    }
  }
}
