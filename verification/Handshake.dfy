/**
 The handshake of tunnel.c: two peers that challenge each other with random salts, derive a
 session key from the pair and open a KCP control block.  The keyed hash and the key derivation
 are injective constructors; clocks and random octets are inputs.
 */
module Handshake {
  import opened Bytes
  import AntiReplay

  type Salt = s: seq<byte> | |s| == 32 witness seq(32, i => 0)

  // ---------------------------------------------------------------- salts, keys and roles

  /** memcmp(a, b) > 0 on octet strings of one length. */
  predicate Greater(a: seq<byte>, b: seq<byte>)
    requires |a| == |b|
  {
    a != [] && (a[0] > b[0] || (a[0] == b[0] && Greater(a[1..], b[1..])))
  }

  lemma {:induction false} GreaterTotal(a: seq<byte>, b: seq<byte>)
    requires |a| == |b|
    ensures !(Greater(a, b) && Greater(b, a))
    ensures a == b <==> !Greater(a, b) && !Greater(b, a)
    decreases |a|
  {
    if a != [] {
      GreaterTotal(a[1..], b[1..]);
      assert a == [a[0]] + a[1..] && b == [b[0]] + b[1..];
    }
  }

  lemma {:induction false} GreaterTransitive(a: seq<byte>, b: seq<byte>, c: seq<byte>)
    requires |a| == |b| == |c| && Greater(a, b) && Greater(b, c)
    ensures Greater(a, c)
    decreases |a|
  {
    if a[0] == b[0] == c[0] {
      GreaterTransitive(a[1..], b[1..], c[1..]);
    }
  }

  /** A session key: none, or what key derivation makes of the salt it is given. */
  datatype Key = NoKey | Derived(salt: seq<byte>)

  /** derive_session_key: both salts, the greater first. */
  function SessionKey(a: Salt, b: Salt): Key
  {
    Derived(if Greater(a, b) then a + b else b + a)
  }

  /** Equal keys come from the same pair of salts, in either order, and from no other. */
  lemma {:induction false} SameKeySamePair(a: Salt, b: Salt, c: Salt, d: Salt)
    ensures SessionKey(a, b) == SessionKey(c, d) <==> (a == c && b == d) || (a == d && b == c)
  {
    GreaterTotal(a, b);
    GreaterTotal(c, d);
    hide Greater;
    Halves(a, b, c, d);
    Halves(a, b, d, c);
    Halves(b, a, c, d);
    Halves(b, a, d, c);
  }

  lemma {:induction false} Halves(a: Salt, b: Salt, c: Salt, d: Salt)
    ensures a + b == c + d <==> a == c && b == d
  {
    assert (a + b)[..32] == a && (a + b)[32..] == b;
    assert (c + d)[..32] == c && (c + d)[32..] == d;
  }

  // ---------------------------------------------------------------- one peer

  datatype State = Disconnected | Punching | Auth | Connected

  /** Handshake datagrams with their signatures; a response signs the sender's salt and then the other's. */
  datatype Message =
    | Ping(stamp: u64)
    | Pong(stamp: u64)
    | Chal(salt: Salt)
    | Resp(own: Salt, other: Salt)
    | Reset(stamp: u64, nonce: u64)

  /**
   kcp: a control block is in place; live: control blocks created and not released; window: the
   anti-replay window; channels: the open channels.
   */
  datatype Peer = Peer(
    state: State, local: Salt, remote: Salt, key: Key, odd: bool, kcp: bool, live: int,
    known: bool, fixed: bool,
    lastRecv: u64, lastKeepalive: u64, lastPing: u64, authStart: u64, resetStamp: u64, resetNonce: u64,
    window: AntiReplay.Window, channels: set<u32>)

  datatype Reply = Reply(p: Peer, out: seq<Message>)

  /** Elapsed time in unsigned 64-bit arithmetic. */
  function Since(now: u64, then': u64): nat
  {
    if now >= then' then now - then' else now + 0x1_0000_0000_0000_0000 - then'
  }

  function ZeroSalt(): Salt
  {
    seq(32, i => 0)
  }

  /** anti_replay_init */
  function NothingReceived(): AntiReplay.Window
  {
    AntiReplay.Window(0, 0)
  }

  /** tunnel_init and the reset before the event loop. */
  function Initial(fixed: bool): Peer
  {
    Peer(Disconnected, ZeroSalt(), ZeroSalt(), NoKey, true, false, 0, fixed, fixed, 0, 0, 0, 0, 0, 0,
        NothingReceived(), {})
  }

  /** The control block, if any, is released. */
  function Released(p: Peer): Peer
  {
    p.(live := if p.kcp then p.live - 1 else p.live, kcp := false)
  }

  /** Key, anti-replay window, reset record and channels are gone, and a learned peer is forgotten. */
  function Forgotten(p: Peer): Peer
  {
    p.(key := NoKey, resetStamp := 0, resetNonce := 0, known := p.fixed, window := NothingReceived(), channels := {})
  }

  /** reset_tunnel */
  function ResetPeer(p: Peer): Peer
  {
    Forgotten(Released(p)).(state := Disconnected)
  }

  function EnterAuth(p: Peer, now: u64, salt: Salt): Peer
  {
    p.(state := Auth, local := salt, authStart := now, lastPing := 0)
  }

  /** Key and channel-number role from the current pair. */
  function Keyed(p: Peer): Peer
  {
    p.(key := SessionKey(p.local, p.remote), odd := Greater(p.local, p.remote))
  }

  function OnPing(p: Peer, stamp: u64, now: u64, salt: Salt): Reply
  {
    var q := p.(known := true);
    Reply(if p.state == Disconnected || p.state == Punching then EnterAuth(q, now, salt) else q, [Pong(stamp)])
  }

  function OnPong(p: Peer, now: u64, salt: Salt): Reply
  {
    Reply(if p.state == Punching then EnterAuth(p, now, salt) else p, [])
  }

  /** A challenge is stored and answered in every state; a connected peer re-keys and starts a new control block. */
  function OnChal(p: Peer, salt: Salt): Reply
  {
    var q := p.(remote := salt);
    var replaced := q.(live := (if q.kcp then q.live - 1 else q.live) + 1, kcp := true);
    Reply(if p.state == Connected then Keyed(replaced) else q,
          [Resp(q.local, q.remote)])
  }

  /** A response counts when it signs the salts this peer holds, seen from the other side. */
  function OnResp(p: Peer, own: Salt, other: Salt, now: u64): Reply
  {
    if own == p.remote && other == p.local && p.state == Auth then
      Reply(Keyed(p).(live := p.live + 1, kcp := true, state := Connected, lastRecv := now, lastKeepalive := now), [])
    else Reply(p, [])
  }

  /** An accepted request is recorded, resets the tunnel and starts authentication with a new salt. */
  function Restarted(p: Peer, stamp: u64, nonce: u64, now: u64, salt: Salt): Peer
  {
    EnterAuth(ResetPeer(p.(resetStamp := stamp, resetNonce := nonce)).(known := true), now, salt)
  }

  function OnReset(p: Peer, stamp: u64, nonce: u64, now: u64, wall: u64, salt: Salt): Reply
  {
    var skew := if wall > stamp then wall - stamp else stamp - wall;
    if skew > 5000 then Reply(p, [])
    else if stamp < p.resetStamp || (stamp == p.resetStamp && nonce == p.resetNonce) then Reply(p, [])
    else Reply(Restarted(p, stamp, nonce, now, salt), [])
  }

  function Receive(p: Peer, m: Message, now: u64, wall: u64, salt: Salt): Reply
  {
    match m
    case Ping(stamp) => OnPing(p, stamp, now, salt)
    case Pong(_) => OnPong(p, now, salt)
    case Chal(c) => OnChal(p, c)
    case Resp(own, other) => OnResp(p, own, other, now)
    case Reset(stamp, nonce) => OnReset(p, stamp, nonce, now, wall, salt)
  }

  /** The keepalive and retransmission part of the event loop. */
  function Tick(p: Peer, now: u64, wall: u64, nonce: u64): Reply
  {
    match p.state
    case Connected =>
      Reply(if Since(now, p.lastRecv) > 30000 then ResetPeer(p)
            else if Since(now, p.lastKeepalive) > 10000 then p.(lastKeepalive := now) else p, [])
    case Disconnected => Reply(if p.known then p.(state := Punching, lastPing := 0) else p, [])
    case Punching =>
      if Since(now, p.lastPing) > 1000 then
        Reply(p.(lastPing := now), [Ping(wall)] + (if p.known then [Reset(wall, nonce)] else []))
      else Reply(p, [])
    case Auth =>
      if Since(now, p.authStart) > 5000 then Reply(ResetPeer(p), [])
      else if Since(now, p.lastPing) > 500 then Reply(p.(lastPing := now), [Chal(p.local)])
      else Reply(p, [])
  }

  /** A data packet: it counts when it passes the anti-replay check and decrypts. */
  function Heard(p: Peer, now: u64, sn: u64, genuine: bool): Reply
  {
    Reply(if p.state == Connected && AntiReplay.Passes(p.window, sn) && genuine
          then p.(window := AntiReplay.Marked(p.window, sn), lastRecv := now) else p, [])
  }

  /** A channel is opened from either side. */
  function OpenChannel(p: Peer, id: u32): Reply
  {
    Reply(p.(channels := p.channels + {id}), [])
  }

  // ---------------------------------------------------------------- two peers and a network

  datatype Event =
    | Clock(now: u64, wall: u64, nonce: u64)
    | Data(now: u64, sn: u64, genuine: bool)
    | Open(id: u32)
    | Deliver(k: nat, now: u64, wall: u64, salt: Salt)

  /** An event at one of the peers. */
  datatype Action = Action(atA: bool, e: Event)

  /** Both peers and all messages each has ever sent: any of them may arrive at the other, any number of times. */
  datatype World = World(a: Peer, b: Peer, ab: seq<Message>, ba: seq<Message>)

  function React(p: Peer, inbox: seq<Message>, e: Event): Reply
  {
    match e
    case Clock(now, wall, nonce) => Tick(p, now, wall, nonce)
    case Data(now, sn, genuine) => Heard(p, now, sn, genuine)
    case Open(id) => OpenChannel(p, id)
    case Deliver(k, now, wall, salt) => if k < |inbox| then Receive(p, inbox[k], now, wall, salt) else Reply(p, [])
  }

  function Next(w: World, act: Action): World
  {
    if act.atA then
      var r := React(w.a, w.ba, act.e);
      World(r.p, w.b, w.ab + r.out, w.ba)
    else
      var r := React(w.b, w.ab, act.e);
      World(w.a, r.p, w.ab, w.ba + r.out)
  }

  function Run(fixedA: bool, fixedB: bool, acts: seq<Action>): World
  {
    if acts == [] then World(Initial(fixedA), Initial(fixedB), [], [])
    else Next(Run(fixedA, fixedB, acts[..|acts| - 1]), acts[|acts| - 1])
  }

  function Mirror(w: World): World
  {
    World(w.b, w.a, w.ba, w.ab)
  }

  // ---------------------------------------------------------------- control block, key and role

  /**
   A control block exists exactly when connected, none is leaked, key and role are those of the
   current salts, and a connection starts with an empty anti-replay window.
   */
  predicate PeerOk(p: Peer)
  {
    && (p.kcp <==> p.state == Connected)
    && p.live == (if p.state == Connected then 1 else 0)
    && (p.state == Connected ==> p.key == SessionKey(p.local, p.remote) && p.odd == Greater(p.local, p.remote))
    && (p.state != Connected ==> p.window == NothingReceived())
  }

  lemma {:induction false} ReactKeepsOk(p: Peer, inbox: seq<Message>, e: Event)
    requires PeerOk(p)
    ensures PeerOk(React(p, inbox, e).p)
  {
    hide SessionKey, Greater, Since, AntiReplay.Passes, AntiReplay.Marked, Receive, Tick;
    match e
    case Clock(now, wall, nonce) => TickKeepsOk(p, now, wall, nonce);
    case Data(_, _, _) =>
    case Open(_) =>
    case Deliver(k, now, wall, salt) =>
      if k < |inbox| {
        ReceiveKeepsOk(p, inbox[k], now, wall, salt);
      }
  }

  lemma {:induction false} TickKeepsOk(p: Peer, now: u64, wall: u64, nonce: u64)
    requires PeerOk(p)
    ensures PeerOk(Tick(p, now, wall, nonce).p)
  {
    hide SessionKey, Greater, Since;
  }

  lemma {:induction false} ReceiveKeepsOk(p: Peer, m: Message, now: u64, wall: u64, salt: Salt)
    requires PeerOk(p)
    ensures PeerOk(Receive(p, m, now, wall, salt).p)
  {
    hide SessionKey, Greater;
  }

  lemma {:induction false} EveryPeerOk(fixedA: bool, fixedB: bool, acts: seq<Action>)
    ensures PeerOk(Run(fixedA, fixedB, acts).a) && PeerOk(Run(fixedA, fixedB, acts).b)
    decreases |acts|
  {
    hide PeerOk, React;
    if acts == [] {
      InitialOk(fixedA);
      InitialOk(fixedB);
    } else {
      var w, act := Run(fixedA, fixedB, acts[..|acts| - 1]), acts[|acts| - 1];
      EveryPeerOk(fixedA, fixedB, acts[..|acts| - 1]);
      ReactKeepsOk(w.a, w.ba, act.e);
      ReactKeepsOk(w.b, w.ab, act.e);
    }
  }

  lemma {:induction false} InitialOk(fixed: bool)
    ensures PeerOk(Initial(fixed))
  {
  }

  predicate MirroredSalts(p: Peer, q: Peer)
  {
    p.local == q.remote && p.remote == q.local
  }

  /**
   Connected peers with mirrored salts share the key, and number channels differently exactly when the
   salts differ.
   */
  lemma {:induction false} AgreedKeysAndRoles(fixedA: bool, fixedB: bool, acts: seq<Action>)
    ensures var w := Run(fixedA, fixedB, acts);
            w.a.state == Connected && w.b.state == Connected && MirroredSalts(w.a, w.b) ==>
              && w.a.key == w.b.key
              && (w.a.odd != w.b.odd <==> w.a.local != w.a.remote)
  {
    var w := Run(fixedA, fixedB, acts);
    EveryPeerOk(fixedA, fixedB, acts);
    hide Run;
    GreaterTotal(w.a.local, w.a.remote);
    SameKeySamePair(w.a.local, w.a.remote, w.b.local, w.b.remote);
    hide Greater, SessionKey;
  }

  /** And connected peers with equal keys hold the same two salts. */
  lemma {:induction false} EqualKeysMeanSharedSalts(fixedA: bool, fixedB: bool, acts: seq<Action>)
    ensures var w := Run(fixedA, fixedB, acts);
            w.a.state == Connected && w.b.state == Connected && w.a.key == w.b.key ==>
              MirroredSalts(w.a, w.b) || (w.a.local == w.b.local && w.a.remote == w.b.remote)
  {
    var w := Run(fixedA, fixedB, acts);
    EveryPeerOk(fixedA, fixedB, acts);
    hide Run, Greater, SessionKey;
    SameKeySamePair(w.a.local, w.a.remote, w.b.local, w.b.remote);
  }

  // ---------------------------------------------------------------- who let a peer connect

  /** Sending a response means holding its two salts. */
  lemma {:induction false} ResponseHolds(p: Peer, inbox: seq<Message>, e: Event, own: Salt, other: Salt)
    requires Resp(own, other) in React(p, inbox, e).out
    ensures React(p, inbox, e).p.local == own && React(p, inbox, e).p.remote == other
  {
    hide SessionKey, Greater, Since, AntiReplay.Passes, AntiReplay.Marked;
  }

  /** After the first k actions peer B held these salts and had answered with them. */
  predicate BAnswered(fixedA: bool, fixedB: bool, acts: seq<Action>, k: nat, own: Salt, other: Salt)
    requires k <= |acts|
  {
    var w := Run(fixedA, fixedB, acts[..k]);
    w.b.local == own && w.b.remote == other && Resp(own, other) in w.ba
  }

  lemma {:induction false} ResponseOrigin(fixedA: bool, fixedB: bool, acts: seq<Action>, own: Salt, other: Salt)
    returns (k: nat)
    requires Resp(own, other) in Run(fixedA, fixedB, acts).ba
    ensures k <= |acts| && BAnswered(fixedA, fixedB, acts, k, own, other)
    decreases |acts|
  {
    hide React;
    var init, act := acts[..|acts| - 1], acts[|acts| - 1];
    var w := Run(fixedA, fixedB, init);
    if Resp(own, other) in w.ba {
      k := ResponseOrigin(fixedA, fixedB, init, own, other);
      assert init[..k] == acts[..k];
    } else {
      k := |acts|;
      assert acts[..k] == acts;
      ResponseHolds(w.b, w.ab, act.e, own, other);
    }
  }

  /** Only the awaited response, in AUTH, connects a peer. */
  lemma {:induction false} OnlyAwaitedResponseConnects(p: Peer, m: Message, now: u64, wall: u64, salt: Salt)
    requires p.state != Connected && Receive(p, m, now, wall, salt).p.state == Connected
    ensures var q := Receive(p, m, now, wall, salt).p;
            p.state == Auth && m == Resp(p.remote, p.local) && q.local == p.local && q.remote == p.remote
  {
    hide SessionKey, Greater;
  }

  /** Only a timely, new reset request disconnects a connected peer that receives a message. */
  lemma {:induction false} OnlyResetsDisconnect(p: Peer, m: Message, now: u64, wall: u64, salt: Salt)
    requires p.state == Connected && Receive(p, m, now, wall, salt).p.state != Connected
    ensures m.Reset? && Receive(p, m, now, wall, salt).p.state == Auth && Receive(p, m, now, wall, salt).p.local == salt
    ensures m.stamp <= wall + 5000 && wall <= m.stamp + 5000
    ensures m.stamp >= p.resetStamp && (m.stamp != p.resetStamp || m.nonce != p.resetNonce)
  {
    hide SessionKey, Greater;
  }

  /** Time never connects; it disconnects a peer exactly after 30 s of silence and ends AUTH exactly after 5 s. */
  lemma {:induction false} TimeOutsExact(p: Peer, now: u64, wall: u64, nonce: u64)
    ensures var q := Tick(p, now, wall, nonce).p;
            && (q.state == Connected <==> p.state == Connected && Since(now, p.lastRecv) <= 30000)
            && (p.state == Auth ==> (q.state == Disconnected <==> Since(now, p.authStart) > 5000))
            && (q.state == Punching <==> p.state == Punching || (p.state == Disconnected && p.known))
  {
    hide SessionKey, Greater, Since;
  }

  lemma {:induction false} OnlyResponsesConnect(p: Peer, inbox: seq<Message>, e: Event)
    requires p.state != Connected && React(p, inbox, e).p.state == Connected
    ensures var q := React(p, inbox, e).p;
            Resp(q.remote, q.local) in inbox && q.local == p.local && q.remote == p.remote
  {
    hide Receive, Tick, AntiReplay.Passes, AntiReplay.Marked;
    match e
    case Clock(now, wall, nonce) => TimeOutsExact(p, now, wall, nonce);
    case Data(_, _, _) =>
    case Open(_) =>
    case Deliver(k, now, wall, salt) =>
      if k < |inbox| {
        OnlyAwaitedResponseConnects(p, inbox[k], now, wall, salt);
      }
  }

  /**
   Peer A enters CONNECTED only if peer B, at some earlier point of the run, held the same two salts
   the other way round and had answered A's challenge with them.
   */
  lemma {:induction false} ConnectedNeedsAnswer(fixedA: bool, fixedB: bool, acts: seq<Action>, act: Action)
    returns (k: nat)
    requires Run(fixedA, fixedB, acts).a.state != Connected
    requires Run(fixedA, fixedB, acts + [act]).a.state == Connected
    ensures var p := Run(fixedA, fixedB, acts + [act]).a;
            k <= |acts| && BAnswered(fixedA, fixedB, acts, k, p.remote, p.local)
  {
    hide React;
    assert (acts + [act])[..|acts|] == acts;
    var w := Run(fixedA, fixedB, acts);
    var p := Run(fixedA, fixedB, acts + [act]).a;
    OnlyResponsesConnect(w.a, w.ba, act.e);
    k := ResponseOrigin(fixedA, fixedB, acts, p.remote, p.local);
  }

  // ---------------------------------------------------------------- the same for the other peer

  function MirrorActions(acts: seq<Action>): (r: seq<Action>)
    ensures |r| == |acts|
  {
    seq(|acts|, i requires 0 <= i < |acts| => acts[i].(atA := !acts[i].atA))
  }

  /** Swapping the peers of a run swaps its outcome, so whatever is shown of A holds of B. */
  lemma {:induction false} RunMirrors(fixedA: bool, fixedB: bool, acts: seq<Action>)
    ensures Run(fixedB, fixedA, MirrorActions(acts)) == Mirror(Run(fixedA, fixedB, acts))
    decreases |acts|
  {
    hide React;
    if acts != [] {
      RunMirrors(fixedA, fixedB, acts[..|acts| - 1]);
      assert MirrorActions(acts)[..|acts| - 1] == MirrorActions(acts[..|acts| - 1]);
    }
  }
}
