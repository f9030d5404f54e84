/**
 The stack has no dead ends either.  Whatever happened before, if from now on payloads are sent without
 protection, every datagram has its own packet on the wire, and that packet hands it up whenever it
 arrives; so any run of the control blocks in which only new datagrams arrive is a run of the stack.
 */
module StackProgress {
  import opened Bytes
  import opened KcpSpec
  import opened KcpMessages
  import opened KcpWorld
  import opened KcpTunnel
  import opened KcpOctets
  import opened FecGroups
  import opened FecRuns
  import opened FecSending
  import opened TunnelStack
  import KcpBlock
  import KcpFlow
  import KcpProgress
  import KcpRefine

  // ---------------------------------------------------------------- packets without protection

  /** Since call k0, with base payloads and at packets before it, every call has been without protection. */
  ghost predicate Tail(calls: seq<Call>, k0: nat, base: nat, at: nat)
  {
    && CallsOk(calls) && k0 <= |calls| && Bare(calls, k0)
    && |Payloads(calls[..k0])| == base && CallsOk(calls[..k0]) && |Emitted(calls[..k0])| == at
  }

  lemma {:induction false} TailStarts(calls: seq<Call>)
    requires CallsOk(calls)
    ensures Tail(calls, |calls|, |Payloads(calls)|, |Emitted(calls)|)
  {
    assert calls[..|calls|] == calls;
    hide Payloads, Emitted, CallOk;
  }

  lemma {:induction false} TailGrows(calls: seq<Call>, more: seq<Call>, k0: nat, base: nat, at: nat)
    requires Tail(calls, k0, base, at) && calls <= more && CallsOk(more) && Bare(more, |calls|)
    ensures Tail(more, k0, base, at)
  {
    assert more[..k0] == calls[..k0];
    hide Payloads, Emitted, CallsOk;
    forall i | k0 <= i < |more|
      ensures more[i].Call? && more[i].fecR == 0
    {
      assert i < |calls| ==> more[i] == calls[i];
    }
  }

  /** One packet per payload since then. */
  lemma {:induction false} BareAt(calls: seq<Call>, k0: nat, base: nat, at: nat, d: nat)
    requires Tail(calls, k0, base, at) && base <= d
    ensures |Payloads(calls)| == base + |calls| - k0 && |Emitted(calls)| == at + |calls| - k0
    ensures d < |Payloads(calls)| ==> Emitted(calls)[at + d - base] == Wire(BARE, Payloads(calls)[d])
    decreases |calls|
  {
    if |calls| == k0 {
      assert calls[..k0] == calls;
    } else {
      var init, last := calls[..|calls| - 1], calls[|calls| - 1];
      InitOk(calls);
      assert init[..k0] == calls[..k0];
      hide Emitted, Payloads, CallsOk, CallOk, EncoderAfter;
      BareAt(init, k0, base, at, d);
      CallsSnoc(init, last);
      PayloadsSnoc(init, last);
    }
  }

  /** The packet of a new datagram delivers it. */
  lemma {:induction false} ArrivalDelivers(v: World, v': World, calls: seq<Call>, datagrams: seq<seq<byte>>, k0: nat,
                                           base: nat, at: nat, i: nat)
    requires Configured(v) && Tail(calls, k0, base, at) && base <= i && datagrams == Payloads(calls)
    requires Carried(datagrams, v.ba, v.b.cfg)
    requires Does(StackEvent.Arrive(at + i - base, 0, 0), Emitted(calls), v, v')
    ensures v' == StepA(true, v, Event.Deliver(i))
  {
    assert CallsOk(calls);
    hide *;
    BareAt(calls, k0, base, at, i);
    CarriedLength(datagrams, v.ba, v.b.cfg);
    DoesArrive(v, v', Emitted(calls), at + i - base);
    if i < |datagrams| {
      OctetsDelivered(v, datagrams, i);
    } else {
      NothingThere(v, i);
    }
  }

  lemma {:induction false} DoesArrive(v: World, v': World, wire: seq<Wire>, j: nat)
    requires Configured(v) && Does(StackEvent.Arrive(j, 0, 0), wire, v, v')
    ensures j >= |wire| ==> v' == v
    ensures j < |wire| && wire[j].h == BARE ==> v' == v.(a := KcpBlock.InputData(v.a, wire[j].body).0)
  {
    hide KcpBlock.InputData;
  }

  lemma {:induction false} NothingThere(v: World, i: nat)
    requires Configured(v) && i >= |v.ba|
    ensures StepA(true, v, Event.Deliver(i)) == v
  {
    hide KcpSpec.Input, Update, KcpSpec.Flush, Datagrams;
  }

  lemma {:induction false} CarriedLength(octets: seq<seq<byte>>, net: KcpFlow.Network, cfg: Config)
    requires Carried(octets, net, cfg)
    ensures |octets| == |net|
  {
  }

  /** The stack's counterpart of an event of the control block. */
  function Imitation(e: Event, base: nat, at: nat): (s: StackEvent)
    requires e.Deliver? ==> e.index >= base
    ensures Unprotected(s)
  {
    match e
    case SendMessage(msg) => StackEvent.SendMessage(msg)
    case Tick(now) => StackEvent.Tick(now, 1, 0)
    case FlushNow => StackEvent.FlushNow(1, 0)
    case Deliver(i) => StackEvent.Arrive(at + i - base, 0, 0)
    case Receive(len) => StackEvent.Receive(len)
  }

  lemma {:induction false} Imitates(v: World, v': World, calls: seq<Call>, datagrams: seq<seq<byte>>, k0: nat,
                                    base: nat, at: nat, e: Event)
    requires Configured(v) && Tail(calls, k0, base, at) && datagrams == Payloads(calls)
    requires Carried(datagrams, v.ba, v.b.cfg) && (e.Deliver? ==> e.index >= base)
    requires Does(Imitation(e, base, at), Emitted(calls), v, v')
    ensures v' == StepA(true, v, e)
  {
    if e.Deliver? {
      hide StepA, Does, Tail, Emitted, Payloads, Carried;
      ArrivalDelivers(v, v', calls, datagrams, k0, base, at, e.index);
    } else {
      hide StepA, Tail, Emitted, Payloads, Carried;
    }
  }

  // ---------------------------------------------------------------- the stack follows

  lemma {:induction false} FarSide(a: Side, b: Side)
    requires Joined(a, b)
    ensures CallsOk(a.calls) && CallsOk(b.calls) && Configured(Pair(a, b))
    ensures b.app.block.sent == Payloads(b.calls) && b.enc.wire == Emitted(b.calls)
    ensures Carried(b.app.block.sent, Pair(a, b).ba, Pair(a, b).b.cfg) && |b.app.block.sent| == |Pair(a, b).ba|
  {
    hide Emitted, EncoderAfter, After, KcpBlock.Kcp.Valid, KcpBlock.Kcp.OutOk, OurDatagram, Payloads;
  }

  /** One event of a's control block. */
  method FollowOne(a: Side, b: Side, e: Event, base: nat, at: nat, ghost k0: nat)
    requires Joined(a, b) && Tail(b.calls, k0, base, at) && (e.Deliver? ==> e.index >= base)
    modifies a`calls, a`arrivals, a.enc, a.dec, a.app, a.app.block, a.app.block.out, a.app.block.out.data
    ensures Joined(a, b) && old(a.calls) <= a.calls && Bare(a.calls, |old(a.calls)|)
    ensures Configured(old(Pair(a, b))) && Pair(a, b) == StepA(true, old(Pair(a, b)), e)
  {
    hide *;
    FarSide(a, b);
    DistinctOf(a, b);
    ghost var v, calls, datagrams := Pair(a, b), b.calls, b.app.block.sent;
    ghost var _ := DoAt(a, b, Imitation(e, base, at));
    Imitates(v, Pair(a, b), calls, datagrams, k0, base, at, e);
  }

  /** A schedule of the control blocks in which only new datagrams arrive, carried out by the stacks. */
  method Follow(a: Side, b: Side, plan: seq<Action>)
    requires Joined(a, b) && KcpProgress.OnlyNew(plan, |a.app.block.sent|, |b.app.block.sent|)
    modifies a`calls, a`arrivals, a.enc, a.dec, a.app, a.app.block, a.app.block.out, a.app.block.out.data
    modifies b`calls, b`arrivals, b.enc, b.dec, b.app, b.app.block, b.app.block.out, b.app.block.out.data
    ensures Joined(a, b) && Configured(old(Pair(a, b))) && Pair(a, b) == Run(true, old(Pair(a, b)), plan)
    ensures old(a.calls) <= a.calls && old(b.calls) <= b.calls
  {
    hide *;
    var baseA, atA, baseB, atB := |a.app.block.sent|, |a.enc.wire|, |b.app.block.sent|, |b.enc.wire|;
    ghost var start, kA, kB := Pair(a, b), |a.calls|, |b.calls|;
    JoinedMirror(a, b);
    FarSide(a, b);
    FarSide(b, a);
    TailStarts(a.calls);
    TailStarts(b.calls);
    RunNothing(start);
    assert plan[..0] == [];
    for i := 0 to |plan|
      invariant Joined(a, b) && Configured(start) && Pair(a, b) == Run(true, start, plan[..i])
      invariant Tail(a.calls, kA, baseA, atA) && Tail(b.calls, kB, baseB, atB)
      invariant old(a.calls) <= a.calls && old(b.calls) <= b.calls
    {
      NewAt(plan, baseA, baseB, i);
      RunNext(start, plan, i);
      FollowAction(a, b, plan[i], baseA, atA, baseB, atB, kA, kB);
    }
    assert plan[..|plan|] == plan;
  }

  method FollowAction(a: Side, b: Side, act: Action, baseA: nat, atA: nat, baseB: nat, atB: nat,
                      ghost kA: nat, ghost kB: nat)
    requires Joined(a, b) && Tail(a.calls, kA, baseA, atA) && Tail(b.calls, kB, baseB, atB)
    requires act.event.Deliver? ==> act.event.index >= if act.atA then baseB else baseA
    modifies a`calls, a`arrivals, a.enc, a.dec, a.app, a.app.block, a.app.block.out, a.app.block.out.data
    modifies b`calls, b`arrivals, b.enc, b.dec, b.app, b.app.block, b.app.block.out, b.app.block.out.data
    ensures Joined(a, b) && Tail(a.calls, kA, baseA, atA) && Tail(b.calls, kB, baseB, atB)
    ensures old(a.calls) <= a.calls && old(b.calls) <= b.calls
    ensures Configured(old(Pair(a, b))) && Pair(a, b) == Step(true, old(Pair(a, b)), act)
  {
    hide *;
    ghost var v, callsA, callsB := Pair(a, b), a.calls, b.calls;
    JoinedMirror(a, b);
    FarSide(a, b);
    DistinctOf(a, b);
    if act.atA {
      FollowOne(a, b, act.event, baseB, atB, kB);
      JoinedMirror(a, b);
      TailGrows(callsA, a.calls, kA, baseA, atA);
    } else {
      FollowOne(b, a, act.event, baseA, atA, kA);
      JoinedMirror(b, a);
      TailGrows(callsB, b.calls, kB, baseB, atB);
    }
    StepIs(v, act);
  }

  lemma {:induction false} DistinctOf(a: Side, b: Side)
    requires Joined(a, b)
    ensures a != b && a.enc != b.enc
  {
    hide Side.Valid, Side.Hears;
  }

  lemma {:induction false} StepIs(v: World, act: Action)
    requires Configured(v)
    ensures Configured(Mirror(v))
    ensures Step(true, v, act)
         == if act.atA then StepA(true, v, act.event) else Mirror(StepA(true, Mirror(v), act.event))
  {
    hide StepA;
  }

  lemma {:induction false} NewAt(plan: seq<Action>, ab: nat, ba: nat, i: nat)
    requires KcpProgress.OnlyNew(plan, ab, ba) && i < |plan|
    ensures plan[i].event.Deliver? ==> plan[i].event.index >= if plan[i].atA then ba else ab
  {
  }

  lemma {:induction false} RunNext(w: World, plan: seq<Action>, i: nat)
    requires Configured(w) && i < |plan|
    ensures Configured(Run(true, w, plan[..i]))
    ensures Run(true, w, plan[..i + 1]) == Step(true, Run(true, w, plan[..i]), plan[i])
  {
    assert plan[..i + 1][..i] == plan[..i];
    hide Step;
  }

  // ---------------------------------------------------------------- everything can still arrive

  /** This continuation sends no new message, uses only new datagrams, and delivers everything. */
  ghost predicate Finishes(w: World, plan: seq<Action>)
    requires Configured(w)
  {
    && KcpProgress.NoSends(plan) && KcpProgress.OnlyNew(plan, |w.ab|, |w.ba|)
    && KcpProgress.Finished(Run(true, w, plan))
  }

  lemma {:induction false} PlanExists(kcp: seq<Action>)
    requires KcpRefine.Small(Run(true, TunnelStart(), kcp))
    ensures exists plan :: Finishes(Run(true, TunnelStart(), kcp), plan)
  {
    var plan := KcpProgress.EveryRunCanFinish(kcp);
    hide Run, TunnelStart, KcpProgress.Finished, KcpProgress.NoSends, KcpProgress.OnlyNew;
    KcpProgress.RunAppend(true, TunnelStart(), kcp, plan);
    assert Finishes(Run(true, TunnelStart(), kcp), plan);
  }

  /**
   After any schedule of the two stacks: while they have kept within their bounds, some plan finishes;
   and the stacks carry out every plan that finishes, and with it each application has read exactly
   what the other wrote.
   */
  method FinishStacks(acts: seq<StackAction>, plan: seq<Action>)
    returns (a: Side, b: Side, ghost mid: World, ghost callsA: seq<Call>, ghost callsB: seq<Call>)
    ensures Joined(a, b) && Configured(mid) && callsA <= a.calls && callsB <= b.calls
    ensures Recoverable(callsA) && Recoverable(callsB) && KcpRefine.Small(mid) ==> exists other :: Finishes(mid, other)
    ensures Finishes(mid, plan) ==>
              && Pair(a, b) == Run(true, mid, plan)
              && a.app.got == b.app.sent && b.app.got == a.app.sent
  {
    hide *;
    ghost var kcp;
    a, b, kcp := RunStacks(acts);
    mid, callsA, callsB := Pair(a, b), a.calls, b.calls;
    if Recoverable(callsA) && Recoverable(callsB) && KcpRefine.Small(mid) {
      PlanExists(kcp);
    }
    JoinedMirror(a, b);
    FarSide(a, b);
    FarSide(b, a);
    MirrorNets(mid);
    if KcpProgress.OnlyNew(plan, |a.app.block.sent|, |b.app.block.sent|) {
      Follow(a, b, plan);
      JoinedMirror(a, b);
    }
    if Finishes(mid, plan) {
      FinishesMeans(mid, plan);
      AllOf(a, b);
    }
  }

  lemma {:induction false} MirrorNets(w: World)
    ensures Mirror(w).ba == w.ab
  {
  }

  lemma {:induction false} FinishesMeans(w: World, plan: seq<Action>)
    requires Configured(w) && Finishes(w, plan)
    ensures KcpProgress.OnlyNew(plan, |w.ab|, |w.ba|) && KcpProgress.Finished(Run(true, w, plan))
  {
  }

  lemma {:induction false} AllOf(a: Side, b: Side)
    requires KcpProgress.Finished(Pair(a, b))
    ensures a.app.got == b.app.sent && b.app.got == a.app.sent
  {
  }
}
