/**
 What each handshake datagram and each turn of the clock does to a peer, field by field, and what the
 record of accepted reset requests is worth: nothing survives in it, so a request is accepted again
 for as long as its stamp is timely.
 */
module HandshakeSteps {
  import opened Bytes
  import opened Handshake
  import AntiReplay

  // ---------------------------------------------------------------- the order of salts

  /** The first octet in which they differ is larger in a. */
  ghost predicate FirstLarger(a: seq<byte>, b: seq<byte>)
    requires |a| == |b|
  {
    exists i :: 0 <= i < |a| && a[..i] == b[..i] && a[i] > b[i]
  }

  lemma {:induction false} GreaterIsFirstLarger(a: seq<byte>, b: seq<byte>)
    requires |a| == |b|
    ensures Greater(a, b) <==> FirstLarger(a, b)
    decreases |a|
  {
    if a != [] {
      GreaterIsFirstLarger(a[1..], b[1..]);
      if a[0] > b[0] {
        assert a[..0] == b[..0];
      } else if a[0] == b[0] {
        SameHead(a, b);
      } else {
        SmallerHead(a, b);
      }
    }
  }

  lemma {:induction false} SmallerHead(a: seq<byte>, b: seq<byte>)
    requires |a| == |b| && a != [] && a[0] < b[0]
    ensures !FirstLarger(a, b)
  {
    forall i | 0 <= i < |a|
      ensures a[..i] != b[..i] || a[i] <= b[i]
    {
      if i > 0 {
        assert a[..i][0] == a[0] && b[..i][0] == b[0];
      }
    }
  }

  lemma {:induction false} SameHead(a: seq<byte>, b: seq<byte>)
    requires |a| == |b| && a != [] && a[0] == b[0]
    ensures FirstLarger(a, b) <==> FirstLarger(a[1..], b[1..])
  {
    if FirstLarger(a, b) {
      var i :| 0 <= i < |a| && a[..i] == b[..i] && a[i] > b[i];
      assert a[1..][..i - 1] == a[..i][1..] && b[1..][..i - 1] == b[..i][1..];
      assert a[1..][i - 1] > b[1..][i - 1];
    }
    if FirstLarger(a[1..], b[1..]) {
      var i :| 0 <= i < |a| - 1 && a[1..][..i] == b[1..][..i] && a[1..][i] > b[1..][i];
      assert a[..i + 1] == [a[0]] + a[1..][..i] && b[..i + 1] == [b[0]] + b[1..][..i];
      assert a[i + 1] > b[i + 1];
    }
  }

  /** The session key is derived from both salts, the larger first, and the larger salt's owner is odd. */
  lemma {:induction false} KeyAndRole(p: Peer)
    requires PeerOk(p) && p.state == Connected
    ensures p.odd <==> FirstLarger(p.local, p.remote)
    ensures p.key == Derived(if FirstLarger(p.local, p.remote) then p.local + p.remote else p.remote + p.local)
  {
    GreaterIsFirstLarger(p.local, p.remote);
    hide FirstLarger, Greater;
  }

  // ---------------------------------------------------------------- reset requests

  predicate Timely(stamp: nat, wall: nat)
  {
    stamp <= wall + 5000 && wall <= stamp + 5000
  }

  /** Later than the recorded request, or of the same time with another nonce. */
  predicate Later(p: Peer, stamp: u64, nonce: u64)
  {
    stamp > p.resetStamp || (stamp == p.resetStamp && nonce != p.resetNonce)
  }

  /** Back to AUTH with a new salt; control block, key, channels, window and reset record are gone. */
  predicate StartedOver(p: Peer, q: Peer, now: u64, salt: Salt)
  {
    q == Peer(Auth, salt, p.remote, NoKey, p.odd, false, if p.kcp then p.live - 1 else p.live,
              true, p.fixed, p.lastRecv, p.lastKeepalive, 0, now, 0, 0, AntiReplay.Window(0, 0), {})
  }

  /** A reset request restarts the peer exactly when it is timely and later than the recorded one. */
  lemma {:induction false} ResetExactly(p: Peer, stamp: u64, nonce: u64, now: u64, wall: u64, salt: Salt)
    ensures var r := Receive(p, Reset(stamp, nonce), now, wall, salt);
            && r.out == []
            && if Timely(stamp, wall) && Later(p, stamp, nonce) then StartedOver(p, r.p, now, salt) else r.p == p
  {
  }

  /** Nothing is ever recorded: accepting a request erases the record with the rest. */
  predicate NoRecord(p: Peer)
  {
    p.resetStamp == 0 && p.resetNonce == 0
  }

  lemma {:induction false} TickKeepsNoRecord(p: Peer, now: u64, wall: u64, nonce: u64)
    requires NoRecord(p)
    ensures NoRecord(Tick(p, now, wall, nonce).p)
  {
    hide Since;
  }

  lemma {:induction false} ReceiveKeepsNoRecord(p: Peer, m: Message, now: u64, wall: u64, salt: Salt)
    requires NoRecord(p)
    ensures NoRecord(Receive(p, m, now, wall, salt).p)
  {
    hide SessionKey, Greater;
  }

  lemma {:induction false} ReactKeepsNoRecord(p: Peer, inbox: seq<Message>, e: Event)
    requires NoRecord(p)
    ensures NoRecord(React(p, inbox, e).p)
  {
    hide Tick, Receive, AntiReplay.Passes, AntiReplay.Marked;
    match e
    case Clock(now, wall, nonce) => TickKeepsNoRecord(p, now, wall, nonce);
    case Data(_, _, _) =>
    case Open(_) =>
    case Deliver(k, now, wall, salt) =>
      if k < |inbox| {
        ReceiveKeepsNoRecord(p, inbox[k], now, wall, salt);
      }
  }

  lemma {:induction false} NeverRecorded(fixedA: bool, fixedB: bool, acts: seq<Action>)
    ensures NoRecord(Run(fixedA, fixedB, acts).a) && NoRecord(Run(fixedA, fixedB, acts).b)
    decreases |acts|
  {
    hide React;
    if acts != [] {
      var w, act := Run(fixedA, fixedB, acts[..|acts| - 1]), acts[|acts| - 1];
      NeverRecorded(fixedA, fixedB, acts[..|acts| - 1]);
      ReactKeepsNoRecord(w.a, w.ba, act.e);
      ReactKeepsNoRecord(w.b, w.ab, act.e);
    }
  }

  /**
   So in every run a peer accepts a reset request, be it the first time or a repetition, exactly when
   its stamp is within five seconds of the clock, the request of time 0 and nonce 0 apart.
   */
  lemma {:induction false} RepeatsExactly(fixedA: bool, fixedB: bool, acts: seq<Action>, stamp: u64, nonce: u64,
                                          now: u64, wall: u64, salt: Salt)
    ensures var p := Run(fixedA, fixedB, acts).a;
            var q := Receive(p, Reset(stamp, nonce), now, wall, salt).p;
            if Timely(stamp, wall) && !(stamp == 0 && nonce == 0) then StartedOver(p, q, now, salt) else q == p
  {
    NeverRecorded(fixedA, fixedB, acts);
    ResetExactly(Run(fixedA, fixedB, acts).a, stamp, nonce, now, wall, salt);
    hide Run, Receive;
  }

  /** A concrete repetition: one request, delivered twice within its five seconds, resets the peer twice. */
  lemma {:induction false} RepeatedResetAccepted(salt: Salt, again: Salt)
    ensures var first := Receive(Initial(true), Reset(100000, 7), 10, 100000, salt).p;
            var second := Receive(first, Reset(100000, 7), 20, 100020, again).p;
            first.state == Auth && first.local == salt && second.state == Auth && second.local == again
  {
    ResetExactly(Initial(true), 100000, 7, 10, 100000, salt);
    var first := Receive(Initial(true), Reset(100000, 7), 10, 100000, salt).p;
    ResetExactly(first, 100000, 7, 20, 100020, again);
    hide Receive;
  }

  // ---------------------------------------------------------------- the other datagrams

  /** In AUTH with a new salt since now; everything else as in p. */
  predicate InAuth(p: Peer, q: Peer, now: u64, salt: Salt)
  {
    q == p.(state := Auth, local := salt, authStart := now, lastPing := 0)
  }

  /** A ping is answered with its stamp and makes its sender known; it starts AUTH before AUTH has started. */
  lemma {:induction false} PingExactly(p: Peer, stamp: u64, now: u64, wall: u64, salt: Salt)
    ensures var r := Receive(p, Ping(stamp), now, wall, salt);
            && r.out == [Pong(stamp)]
            && if p.state in {Disconnected, Punching} then InAuth(p.(known := true), r.p, now, salt)
               else r.p == p.(known := true)
  {
  }

  /** A pong starts AUTH exactly while punching. */
  lemma {:induction false} PongExactly(p: Peer, stamp: u64, now: u64, wall: u64, salt: Salt)
    ensures var r := Receive(p, Pong(stamp), now, wall, salt);
            && r.out == []
            && if p.state == Punching then InAuth(p, r.p, now, salt) else r.p == p
  {
  }

  /**
   A challenge is answered, in every state, with the own salt and the one it brings, which is kept;
   a connected peer changes key, role and control block with it and stays connected.
   */
  lemma {:induction false} ChallengeExactly(p: Peer, c: Salt, now: u64, wall: u64, salt: Salt)
    ensures var r := Receive(p, Chal(c), now, wall, salt);
            && r.out == [Resp(p.local, c)]
            && (p.state != Connected ==> r.p == p.(remote := c))
            && (p.state == Connected ==>
                  r.p == p.(remote := c, key := SessionKey(p.local, c), odd := Greater(p.local, c),
                            kcp := true, live := if p.kcp then p.live else p.live + 1))
  {
    hide SessionKey, Greater;
  }

  /** A response connects exactly in AUTH and for the salts held; then key, role, control block and times are set. */
  lemma {:induction false} ResponseExactly(p: Peer, own: Salt, other: Salt, now: u64, wall: u64, salt: Salt)
    ensures var r := Receive(p, Resp(own, other), now, wall, salt);
            && r.out == []
            && if p.state == Auth && own == p.remote && other == p.local
               then r.p == p.(state := Connected, key := SessionKey(p.local, p.remote),
                              odd := Greater(p.local, p.remote), kcp := true, live := p.live + 1,
                              lastRecv := now, lastKeepalive := now)
               else r.p == p
  {
    hide SessionKey, Greater;
  }

  // ---------------------------------------------------------------- the clock

  /** Nothing of the connection is left, and a learned peer is forgotten. */
  predicate Cleared(p: Peer, q: Peer)
  {
    q == p.(state := Disconnected, key := NoKey, kcp := false, live := if p.kcp then p.live - 1 else p.live,
            known := p.fixed, resetStamp := 0, resetNonce := 0, window := AntiReplay.Window(0, 0), channels := {})
  }

  /**
   A turn of the clock.  Connected: the end after 30 s without a packet, else a keepalive every 10 s.
   Disconnected: punching starts once there is a peer.  Punching: a ping more than a second after the
   last, with a reset request if there is a peer.  AUTH: the end after 5 s, else a challenge more than
   half a second after the last.
   */
  lemma {:induction false} TickExactly(p: Peer, now: u64, wall: u64, nonce: u64)
    ensures var r := Tick(p, now, wall, nonce);
            && (p.state == Connected ==>
                  && r.out == []
                  && if Since(now, p.lastRecv) > 30000 then Cleared(p, r.p)
                     else if Since(now, p.lastKeepalive) > 10000 then r.p == p.(lastKeepalive := now) else r.p == p)
            && (p.state == Disconnected ==>
                  r == Reply(if p.known then p.(state := Punching, lastPing := 0) else p, []))
            && (p.state == Punching ==>
                  if Since(now, p.lastPing) <= 1000 then r == Reply(p, [])
                  else if p.known then r == Reply(p.(lastPing := now), [Ping(wall), Reset(wall, nonce)])
                  else r == Reply(p.(lastPing := now), [Ping(wall)]))
            && (p.state == Auth ==>
                  if Since(now, p.authStart) > 5000 then Cleared(p, r.p) && r.out == []
                  else if Since(now, p.lastPing) <= 500 then r == Reply(p, [])
                  else r == Reply(p.(lastPing := now), [Chal(p.local)]))
  {
    hide Since;
  }

  /** A clock that has not passed the other reads as a distance around 2^64. */
  lemma {:induction false} SinceExactly(now: u64, then': u64)
    ensures Since(now, then') < 0x1_0000_0000_0000_0000
    ensures exists k :: Since(now, then') == now - then' + k * 0x1_0000_0000_0000_0000
  {
    if now >= then' {
      assert Since(now, then') == now - then' + 0 * 0x1_0000_0000_0000_0000;
    } else {
      assert Since(now, then') == now - then' + 1 * 0x1_0000_0000_0000_0000;
    }
  }

  /** A data packet counts exactly when connected, passed by the window and genuine; then it puts off the end. */
  lemma {:induction false} DataExactly(p: Peer, now: u64, sn: u64, genuine: bool)
    ensures var r := Heard(p, now, sn, genuine);
            && r.out == []
            && if p.state == Connected && AntiReplay.Passes(p.window, sn) && genuine
               then r.p == p.(lastRecv := now, window := AntiReplay.Marked(p.window, sn)) else r.p == p
  {
    hide AntiReplay.Passes, AntiReplay.Marked;
  }

  /** After a genuine packet a connection lasts thirty seconds more. */
  lemma {:induction false} PacketPutsOffEnd(p: Peer, now: u64, sn: u64, later: u64, wall: u64, nonce: u64)
    requires p.state == Connected && AntiReplay.Passes(p.window, sn)
    ensures Tick(Heard(p, now, sn, true).p, later, wall, nonce).p.state == Connected <==> Since(later, now) <= 30000
  {
    DataExactly(p, now, sn, true);
    TickExactly(Heard(p, now, sn, true).p, later, wall, nonce);
    hide AntiReplay.Passes, AntiReplay.Marked, Heard, Tick, Since;
  }

  /** Opening a channel touches nothing else. */
  lemma {:induction false} OpenExactly(p: Peer, id: u32)
    ensures var r := OpenChannel(p, id);
            && r.out == [] && r.p == p.(channels := r.p.channels)
            && forall c :: c in r.p.channels <==> c in p.channels || c == id
  {
  }
}
