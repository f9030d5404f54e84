/**
 The handshake has no dead ends.  From every state two peers can reach, whatever was lost, repeated or
 delivered late, a continuation in which time only moves forward and only new messages arrive leaves
 both connected with mirrored salts, provided one of them is configured with the other's address.
 When neither is, nothing is ever sent.
 */
module HandshakeProgress {
  import opened Bytes
  import opened Handshake
  import AntiReplay

  // ---------------------------------------------------------------- time

  function TimeOf(e: Event): nat
  {
    match e
    case Clock(now, _, _) => now
    case Data(now, _, _) => now
    case Open(_) => 0
    case Deliver(_, now, _, _) => now
  }

  /** No event came after now. */
  predicate Past(acts: seq<Action>, now: nat)
  {
    forall i :: 0 <= i < |acts| ==> TimeOf(acts[i].e) <= now
  }

  /** The times of a peer lie in the past. */
  predicate Stamped(p: Peer, now: nat)
  {
    p.lastRecv <= now && p.lastPing <= now && p.authStart <= now && (p.fixed ==> p.known)
  }

  lemma {:induction false} TickStamped(p: Peer, at: u64, wall: u64, nonce: u64, now: nat)
    requires Stamped(p, now) && at <= now
    ensures Stamped(Tick(p, at, wall, nonce).p, now) && Tick(p, at, wall, nonce).p.fixed == p.fixed
  {
    hide SessionKey, Greater, Since;
  }

  lemma {:induction false} ReceiveStamped(p: Peer, m: Message, at: u64, wall: u64, salt: Salt, now: nat)
    requires Stamped(p, now) && at <= now
    ensures Stamped(Receive(p, m, at, wall, salt).p, now) && Receive(p, m, at, wall, salt).p.fixed == p.fixed
  {
    hide SessionKey, Greater;
  }

  lemma {:induction false} ReactStamped(p: Peer, inbox: seq<Message>, e: Event, now: nat)
    requires Stamped(p, now) && TimeOf(e) <= now
    ensures Stamped(React(p, inbox, e).p, now) && React(p, inbox, e).p.fixed == p.fixed
  {
    hide Tick, Receive, AntiReplay.Passes, AntiReplay.Marked;
    match e
    case Clock(at, wall, nonce) => TickStamped(p, at, wall, nonce, now);
    case Data(_, _, _) =>
    case Open(_) =>
    case Deliver(k, at, wall, salt) =>
      if k < |inbox| {
        ReceiveStamped(p, inbox[k], at, wall, salt, now);
      }
  }

  lemma {:induction false} RunStamped(fixedA: bool, fixedB: bool, acts: seq<Action>, now: nat)
    requires Past(acts, now)
    ensures var w := Run(fixedA, fixedB, acts);
            Stamped(w.a, now) && Stamped(w.b, now) && w.a.fixed == fixedA && w.b.fixed == fixedB
    decreases |acts|
  {
    if acts != [] {
      var init, act := acts[..|acts| - 1], acts[|acts| - 1];
      var w := Run(fixedA, fixedB, init);
      RunStamped(fixedA, fixedB, init, now);
      ReactStamped(w.a, w.ba, act.e, now);
      ReactStamped(w.b, w.ab, act.e, now);
      hide React, Stamped;
    }
  }

  // ---------------------------------------------------------------- continuations

  function After(w: World, acts: seq<Action>): World
  {
    if acts == [] then w else Next(After(w, acts[..|acts| - 1]), acts[|acts| - 1])
  }

  lemma {:induction false} RunAfter(fixedA: bool, fixedB: bool, acts: seq<Action>, more: seq<Action>)
    ensures Run(fixedA, fixedB, acts + more) == After(Run(fixedA, fixedB, acts), more)
    decreases |more|
  {
    hide Next;
    if more == [] {
      assert acts + more == acts;
    } else {
      assert (acts + more)[..|acts + more| - 1] == acts + more[..|more| - 1];
      RunAfter(fixedA, fixedB, acts, more[..|more| - 1]);
    }
  }

  /** Time starts at now and only moves forward, and what arrives was sent after the first ab and ba messages. */
  predicate Onward(acts: seq<Action>, now: nat, ab: nat, ba: nat)
  {
    && (forall i :: 0 <= i < |acts| ==> now <= TimeOf(acts[i].e))
    && (forall i, j :: 0 <= i < j < |acts| ==> TimeOf(acts[i].e) <= TimeOf(acts[j].e))
    && (forall i :: 0 <= i < |acts| && acts[i].e.Deliver? ==> acts[i].e.k >= if acts[i].atA then ba else ab)
  }

  // ---------------------------------------------------------------- the steps

  const QUIET: nat := 30001
  const PAUSE: nat := 2000

  /** A later tick ends a connection or an attempt, and starts punching where the address is known. */
  lemma {:induction false} TickEnds(p: Peer, now: u64, at: u64, wall: u64, nonce: u64)
    requires Stamped(p, now) && at >= now + QUIET
    ensures var q := Tick(p, at, wall, nonce).p;
            && (q.state == Disconnected || q.state == Punching) && Stamped(q, at) && q.fixed == p.fixed
  {
    SinceIs(at, p.lastRecv);
    SinceIs(at, p.authStart);
    TickStamped(p, at, wall, nonce, at);
    hide SessionKey, Greater, Since, Stamped;
  }

  lemma {:induction false} SinceIs(at: u64, then': u64)
    requires then' <= at
    ensures Since(at, then') == at - then'
  {
  }

  lemma {:induction false} TickPunches(p: Peer, at: u64, wall: u64, nonce: u64)
    requires Stamped(p, at) && p.fixed && (p.state == Disconnected || p.state == Punching)
    ensures var q := Tick(p, at, wall, nonce).p;
            q.state == Punching && Stamped(q, at) && q.fixed
  {
    hide SessionKey, Greater, Since;
  }

  lemma {:induction false} TickPings(p: Peer, now: u64, at: u64, wall: u64, nonce: u64)
    requires Stamped(p, now) && p.state == Punching && at >= now + PAUSE
    ensures var r := Tick(p, at, wall, nonce);
            r.p.state == Punching && |r.out| > 0 && r.out[0] == Ping(wall)
  {
    hide SessionKey, Greater;
  }

  /** The peer waits for a response, with this salt of its own and this one of the far side. */
  predicate Waiting(p: Peer, at: u64, own: Salt)
  {
    p.state == Auth && p.local == own && p.authStart == at && p.lastPing == 0
  }

  lemma {:induction false} PingStarts(p: Peer, stamp: u64, at: u64, wall: u64, salt: Salt)
    requires p.state == Disconnected || p.state == Punching
    ensures var r := Receive(p, Ping(stamp), at, wall, salt);
            Waiting(r.p, at, salt) && r.out == [Pong(stamp)]
  {
    hide SessionKey, Greater;
  }

  lemma {:induction false} PongStarts(p: Peer, stamp: u64, at: u64, wall: u64, salt: Salt)
    requires p.state == Punching
    ensures Waiting(Receive(p, Pong(stamp), at, wall, salt).p, at, salt)
  {
    hide SessionKey, Greater;
  }

  lemma {:induction false} TickChallenges(p: Peer, at: u64, wall: u64, nonce: u64, own: Salt)
    requires Waiting(p, at, own) && at > 500
    ensures var r := Tick(p, at, wall, nonce);
            r.out == [Chal(own)] && r.p == p.(lastPing := at)
  {
    hide SessionKey, Greater;
  }

  lemma {:induction false} ChallengeAnswered(p: Peer, c: Salt, at: u64, wall: u64, salt: Salt)
    requires p.state == Auth
    ensures Receive(p, Chal(c), at, wall, salt) == Reply(p.(remote := c), [Resp(p.local, c)])
  {
    hide SessionKey, Greater;
  }

  lemma {:induction false} ResponseConnects(p: Peer, at: u64, wall: u64, salt: Salt)
    requires p.state == Auth
    ensures var q := Receive(p, Resp(p.remote, p.local), at, wall, salt).p;
            q.state == Connected && q.local == p.local && q.remote == p.remote
  {
    hide SessionKey, Greater;
  }

  // ---------------------------------------------------------------- the continuation

  /** Silence ends what there was, and A starts punching. */
  function Silence(at: u64): seq<Action>
  {
    [Action(true, Clock(at, 0, 0)), Action(false, Clock(at, 0, 0)), Action(true, Clock(at, 0, 0))]
  }

  /** From A's ping to its challenge; ab and ba count the messages before. */
  function Greeting(at: u64, ab: nat, ba: nat, saltA: Salt, saltB: Salt): seq<Action>
  {
    [Action(true, Clock(at, 0, 0)), Action(false, Deliver(ab, at, 0, saltB)), Action(true, Deliver(ba, at, 0, saltA))]
  }

  /** A's challenge reaches B, which answers and sends its own. */
  function Challenges(at: u64, ab: nat, any: Salt): seq<Action>
  {
    [Action(true, Clock(at, 0, 0)), Action(false, Deliver(ab, at, 0, any)), Action(false, Clock(at, 0, 0))]
  }

  /** B's challenge reaches A, which answers; then both responses arrive. */
  function Responses(at: u64, ab: nat, ba: nat, any: Salt): seq<Action>
    requires ba > 0
  {
    [Action(true, Deliver(ba, at, 0, any)), Action(false, Deliver(ab, at, 0, any)),
     Action(true, Deliver(ba - 1, at, 0, any))]
  }

  lemma {:induction false} AfterSnoc(w: World, acts: seq<Action>, act: Action)
    ensures After(w, acts + [act]) == Next(After(w, acts), act)
  {
    assert (acts + [act])[..|acts|] == acts;
    hide Next;
  }

  lemma {:induction false} AfterThree(w: World, x: Action, y: Action, z: Action)
    ensures After(w, [x, y, z]) == Next(Next(Next(w, x), y), z)
  {
    hide Next;
    assert [x, y] == [x] + [y] && [x, y, z] == [x, y] + [z] && [x] == [] + [x];
    AfterSnoc(w, [], x);
    AfterSnoc(w, [x], y);
    AfterSnoc(w, [x, y], z);
  }

  lemma {:induction false} AfterBoth(w: World, acts: seq<Action>, more: seq<Action>)
    ensures After(w, acts + more) == After(After(w, acts), more)
    decreases |more|
  {
    hide Next;
    if more == [] {
      assert acts + more == acts;
    } else {
      assert (acts + more)[..|acts + more| - 1] == acts + more[..|more| - 1];
      AfterBoth(w, acts, more[..|more| - 1]);
    }
  }

  predicate Longer(w: World, v: World)
  {
    w.ab <= v.ab && w.ba <= v.ba
  }

  /** A punches, and B waits for a ping. */
  predicate Silent(w: World, at: nat)
  {
    w.a.state == Punching && Stamped(w.a, at) && (w.b.state == Disconnected || w.b.state == Punching)
  }

  /** B has answered A's challenge, and its own is on the way. */
  predicate Challenged(w: World, saltA: Salt, saltB: Salt)
  {
    && w.a.state == Auth && w.b.state == Auth && w.a.local == saltA && w.b.local == saltB && w.b.remote == saltA
    && |w.ba| >= 2 && w.ba[|w.ba| - 2] == Resp(saltB, saltA) && w.ba[|w.ba| - 1] == Chal(saltB)
  }

  /** Both are connected over these salts. */
  predicate Met(w: World, saltA: Salt, saltB: Salt)
  {
    && w.a.state == Connected && w.b.state == Connected && MirroredSalts(w.a, w.b)
    && w.a.local == saltA && w.b.local == saltB
  }

  lemma {:induction false} AfterSilence(w: World, now: u64, at: u64)
    requires Stamped(w.a, now) && Stamped(w.b, now) && w.a.fixed && at >= now + QUIET
    ensures var v := After(w, Silence(at));
            Silent(v, at) && Longer(w, v)
  {
    var s := Silence(at);
    AfterThree(w, s[0], s[1], s[2]);
    TickEnds(w.a, now, at, 0, 0);
    TickEnds(w.b, now, at, 0, 0);
    TickPunches(Tick(w.a, at, 0, 0).p, at, 0, 0);
    hide Tick, Stamped, After;
  }

  lemma {:induction false} AfterGreeting(w: World, now: u64, at: u64, saltA: Salt, saltB: Salt)
    requires Silent(w, now) && at >= now + PAUSE
    ensures var v := After(w, Greeting(at, |w.ab|, |w.ba|, saltA, saltB));
            Waiting(v.a, at, saltA) && Waiting(v.b, at, saltB) && Longer(w, v)
  {
    var s := Greeting(at, |w.ab|, |w.ba|, saltA, saltB);
    AfterThree(w, s[0], s[1], s[2]);
    TickPings(w.a, now, at, 0, 0);
    PingStarts(w.b, 0, at, 0, saltB);
    PongStarts(Tick(w.a, at, 0, 0).p, 0, at, 0, saltA);
    hide Tick, Stamped, After, Receive, Waiting;
  }

  lemma {:induction false} AfterChallenges(w: World, at: u64, saltA: Salt, saltB: Salt, any: Salt)
    requires Waiting(w.a, at, saltA) && Waiting(w.b, at, saltB) && at > 500
    ensures var v := After(w, Challenges(at, |w.ab|, any));
            Challenged(v, saltA, saltB) && Longer(w, v) && |v.ba| == |w.ba| + 2
  {
    var s := Challenges(at, |w.ab|, any);
    AfterThree(w, s[0], s[1], s[2]);
    TickChallenges(w.a, at, 0, 0, saltA);
    ChallengeAnswered(w.b, saltA, at, 0, any);
    TickChallenges(w.b.(remote := saltA), at, 0, 0, saltB);
    hide After, Tick, Receive;
  }

  lemma {:induction false} AfterResponses(w: World, at: u64, saltA: Salt, saltB: Salt, any: Salt)
    requires Challenged(w, saltA, saltB) && |w.ba| >= 2
    ensures Met(After(w, Responses(at, |w.ab|, |w.ba| - 1, any)), saltA, saltB)
  {
    var s := Responses(at, |w.ab|, |w.ba| - 1, any);
    AfterThree(w, s[0], s[1], s[2]);
    ChallengeAnswered(w.a, saltB, at, 0, any);
    ResponseConnects(w.b, at, 0, any);
    ResponseConnects(w.a.(remote := saltB), at, 0, any);
    hide After, Tick, Receive;
  }

  // ---------------------------------------------------------------- from every state

  /** One stretch of a continuation: all of it at one time, with messages from these numbers on. */
  predicate AtOnce(acts: seq<Action>, at: nat, ab: nat, ba: nat)
  {
    forall i :: 0 <= i < |acts| ==>
      TimeOf(acts[i].e) == at && (acts[i].e.Deliver? ==> acts[i].e.k >= if acts[i].atA then ba else ab)
  }

  predicate NoLater(acts: seq<Action>, last: nat)
  {
    forall i :: 0 <= i < |acts| ==> TimeOf(acts[i].e) <= last
  }

  lemma {:induction false} OnwardThen(acts: seq<Action>, more: seq<Action>, now: nat, last: nat, at: nat, ab: nat,
                                      ba: nat)
    requires Onward(acts, now, ab, ba) && AtOnce(more, at, ab, ba) && now <= last <= at && NoLater(acts, last)
    ensures Onward(acts + more, now, ab, ba) && NoLater(acts + more, at)
  {
    hide TimeOf;
  }

  lemma {:induction false} StretchesAtOnce(at: u64, ab: nat, ba: nat, any: Salt, other: Salt)
    ensures AtOnce(Silence(at), at, ab, ba) && AtOnce(Greeting(at, ab, ba, any, other), at, ab, ba)
    ensures AtOnce(Challenges(at, ab, any), at, ab, ba)
    ensures ba > 0 ==> AtOnce(Responses(at, ab, ba, any), at, ab, ba - 1)
  {
  }

  lemma {:induction false} AtOnceLater(acts: seq<Action>, at: nat, ab: nat, ba: nat, ab': nat, ba': nat)
    requires AtOnce(acts, at, ab, ba) && ab' <= ab && ba' <= ba
    ensures AtOnce(acts, at, ab', ba')
  {
    hide TimeOf;
  }

  /** Silence, and then the greeting. */
  lemma {:induction false} FirstHalf(w: World, now: u64, quiet: u64, at: u64, saltA: Salt, saltB: Salt)
    returns (acts: seq<Action>, v: World)
    requires Stamped(w.a, now) && Stamped(w.b, now) && w.a.fixed && quiet >= now + QUIET && at >= quiet + PAUSE
    ensures v == After(w, acts) && Waiting(v.a, at, saltA) && Waiting(v.b, at, saltB) && Longer(w, v)
    ensures Onward(acts, now, |w.ab|, |w.ba|) && NoLater(acts, at)
  {
    var s0 := Silence(quiet);
    var w1 := After(w, s0);
    AfterSilence(w, now, quiet);
    LongerNets(w, w1);
    var s1 := Greeting(at, |w1.ab|, |w1.ba|, saltA, saltB);
    hide After, Silence, Greeting, Silent, Waiting, Stamped, Onward, AtOnce, NoLater, Longer;
    AfterGreeting(w1, quiet, at, saltA, saltB);
    v := After(w1, s1);
    LongerTwice(w, w1, v);
    AfterBoth(w, s0, s1);
    StretchesAtOnce(quiet, |w.ab|, |w.ba|, saltA, saltB);
    StretchesAtOnce(at, |w1.ab|, |w1.ba|, saltA, saltB);
    AtOnceLater(s1, at, |w1.ab|, |w1.ba|, |w.ab|, |w.ba|);
    NothingYet(now, |w.ab|, |w.ba|);
    OnwardThen([], s0, now, now, quiet, |w.ab|, |w.ba|);
    assert [] + s0 == s0;
    OnwardThen(s0, s1, now, quiet, at, |w.ab|, |w.ba|);
    acts := s0 + s1;
  }

  /** The challenges, and then the responses. */
  lemma {:induction false} SecondHalf(w: World, at: u64, saltA: Salt, saltB: Salt) returns (acts: seq<Action>)
    requires Waiting(w.a, at, saltA) && Waiting(w.b, at, saltB) && at > 500
    ensures Met(After(w, acts), saltA, saltB) && AtOnce(acts, at, |w.ab|, |w.ba|)
  {
    var any := ZeroSalt();
    var s0 := Challenges(at, |w.ab|, any);
    var v := After(w, s0);
    hide After, Challenges, Responses, Challenged, Waiting, Met, AtOnce, Longer, ZeroSalt;
    AfterChallenges(w, at, saltA, saltB, any);
    LongerNets(w, v);
    var s1 := Responses(at, |v.ab|, |v.ba| - 1, any);
    AfterResponses(v, at, saltA, saltB, any);
    AfterBoth(w, s0, s1);
    StretchesAtOnce(at, |w.ab|, |w.ba|, any, any);
    StretchesAtOnce(at, |v.ab|, |v.ba| - 1, any, any);
    AtOnceLater(s1, at, |v.ab|, |v.ba| - 2, |w.ab|, |w.ba|);
    AtOnceJoin(s0, s1, at, |w.ab|, |w.ba|);
    acts := s0 + s1;
  }

  lemma {:induction false} AtOnceJoin(acts: seq<Action>, more: seq<Action>, at: nat, ab: nat, ba: nat)
    requires AtOnce(acts, at, ab, ba) && AtOnce(more, at, ab, ba)
    ensures AtOnce(acts + more, at, ab, ba)
  {
    hide TimeOf;
  }

  lemma {:induction false} LongerTwice(w: World, v: World, u: World)
    requires Longer(w, v) && Longer(v, u)
    ensures Longer(w, u)
  {
  }

  /** The whole continuation where A has the address. */
  lemma {:induction false} Connects(w: World, now: u64, saltA: Salt, saltB: Salt) returns (more: seq<Action>)
    requires Stamped(w.a, now) && Stamped(w.b, now) && w.a.fixed && now + QUIET + PAUSE < 0x1_0000_0000_0000_0000
    ensures Onward(more, now, |w.ab|, |w.ba|) && Met(After(w, more), saltA, saltB)
  {
    var at := now + QUIET + PAUSE;
    var first, v := FirstHalf(w, now, now + QUIET, at, saltA, saltB);
    var second := SecondHalf(v, at, saltA, saltB);
    hide After, Waiting, Stamped, Onward, AtOnce, NoLater, Longer, Met;
    LongerNets(w, v);
    AfterBoth(w, first, second);
    AtOnceLater(second, at, |v.ab|, |v.ba|, |w.ab|, |w.ba|);
    OnwardThen(first, second, now, at, at, |w.ab|, |w.ba|);
    more := first + second;
  }

  lemma {:induction false} LongerNets(w: World, v: World)
    requires Longer(w, v)
    ensures |w.ab| <= |v.ab| && |w.ba| <= |v.ba|
  {
  }

  lemma {:induction false} NothingYet(now: nat, ab: nat, ba: nat)
    ensures Onward([], now, ab, ba) && NoLater([], now)
  {
  }

  lemma {:induction false} OnwardMirrors(acts: seq<Action>, now: nat, ab: nat, ba: nat)
    requires Onward(acts, now, ab, ba)
    ensures Onward(MirrorActions(acts), now, ba, ab)
  {
  }

  lemma {:induction false} AfterMirrors(w: World, acts: seq<Action>)
    ensures After(Mirror(w), MirrorActions(acts)) == Mirror(After(w, acts))
    decreases |acts|
  {
    hide React;
    if acts != [] {
      AfterMirrors(w, acts[..|acts| - 1]);
      assert MirrorActions(acts)[..|acts| - 1] == MirrorActions(acts[..|acts| - 1]);
    }
  }

  /**
   From every state of every run, if a peer is configured with the other's address: some continuation,
   in which time moves forward and only new messages arrive, leaves both connected over the two salts
   drawn in it, with one key, and with opposite roles unless the salts are equal.
   */
  lemma {:induction false} EveryRunCanConnect(fixedA: bool, fixedB: bool, acts: seq<Action>, now: u64,
                                              saltA: Salt, saltB: Salt)
    returns (more: seq<Action>)
    requires (fixedA || fixedB) && Past(acts, now) && now + QUIET + PAUSE < 0x1_0000_0000_0000_0000
    ensures Onward(more, now, |Run(fixedA, fixedB, acts).ab|, |Run(fixedA, fixedB, acts).ba|)
    ensures var v := Run(fixedA, fixedB, acts + more);
            && v.a.state == Connected && v.b.state == Connected && MirroredSalts(v.a, v.b)
            && v.a.local == saltA && v.b.local == saltB
            && v.a.key == v.b.key && (v.a.odd != v.b.odd <==> saltA != saltB)
  {
    var w := Run(fixedA, fixedB, acts);
    RunStamped(fixedA, fixedB, acts, now);
    hide Run, After, Onward, Stamped;
    if fixedA {
      more := Connects(w, now, saltA, saltB);
    } else {
      var other := Connects(Mirror(w), now, saltB, saltA);
      more := MirrorActions(other);
      OnwardMirrors(other, now, |w.ba|, |w.ab|);
      AfterMirrors(Mirror(w), other);
      assert Mirror(Mirror(w)) == w;
    }
    RunAfter(fixedA, fixedB, acts, more);
    AgreedKeysAndRoles(fixedA, fixedB, acts + more);
  }

  /** A peer without an address does nothing on its own. */
  lemma {:induction false} IdleStays(p: Peer, e: Event)
    requires p.state == Disconnected && !p.known
    ensures var r := React(p, [], e);
            r.out == [] && r.p.state == Disconnected && !r.p.known
  {
    hide AntiReplay.Passes, AntiReplay.Marked;
  }

  lemma {:induction false} NobodyStarts(acts: seq<Action>)
    ensures var w := Run(false, false, acts);
            && w.ab == [] && w.ba == [] && w.a.state == Disconnected && w.b.state == Disconnected
            && !w.a.known && !w.b.known
    decreases |acts|
  {
    if acts != [] {
      var init, act := acts[..|acts| - 1], acts[|acts| - 1];
      NobodyStarts(init);
      var w := Run(false, false, init);
      IdleStays(w.a, act.e);
      IdleStays(w.b, act.e);
      hide React;
    }
  }

  /** Two peers can ever be connected to each other exactly when one is configured with an address. */
  lemma {:induction false} CanConnectExactly(fixedA: bool, fixedB: bool)
    ensures (exists acts :: var w := Run(fixedA, fixedB, acts); w.a.state == Connected && w.b.state == Connected)
       <==> fixedA || fixedB
  {
    if fixedA || fixedB {
      var more := EveryRunCanConnect(fixedA, fixedB, [], 0, ZeroSalt(), ZeroSalt());
      assert Run(fixedA, fixedB, [] + more).a.state == Connected;
    } else {
      forall acts
        ensures Run(fixedA, fixedB, acts).a.state != Connected
      {
        NobodyStarts(acts);
      }
    }
  }
}
