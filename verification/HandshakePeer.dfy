/** The connection state of a tunnel, updated in place by the event loop, proved against Handshake. */
module HandshakePeer {
  import opened Bytes
  import opened Handshake
  import opened HandshakeSteps
  import AntiReplay

  class Tunnel {
    var state: State
    var rLocal: Salt
    var rRemote: Salt
    var sessionKey: Key
    var isOdd: bool
    var hasKcp: bool
    var liveKcps: int
    var peerValid: bool
    const fixedPeer: bool
    var lastRecv: u64
    var lastKeepalive: u64
    var lastPing: u64
    var authStart: u64
    var lastResetStamp: u64
    var lastResetNonce: u64
    var window: AntiReplay.Window
    var channels: set<u32>
    var sent: seq<Message>

    ghost function Abs(): Peer
      reads this
    {
      Peer(state, rLocal, rRemote, sessionKey, isOdd, hasKcp, liveKcps, peerValid, fixedPeer,
           lastRecv, lastKeepalive, lastPing, authStart, lastResetStamp, lastResetNonce, window, channels)
    }

    /**
     A control block exactly when connected, none leaked, key and role of the current salts, and an
     empty anti-replay window until connected.
     */
    ghost predicate Valid()
      reads this
    {
      PeerOk(Abs())
    }

    /** The tunnel has become p and sent these messages. */
    twostate predicate Became(r: Reply)
      reads this
    {
      Abs() == r.p && sent == old(sent) + r.out
    }

    /** tunnel_init */
    constructor (fixed: bool)
      ensures Valid() && Abs() == Initial(fixed) && sent == []
    {
      state, rLocal, rRemote, sessionKey, isOdd := Disconnected, ZeroSalt(), ZeroSalt(), NoKey, true;
      hasKcp, liveKcps, peerValid, fixedPeer := false, 0, fixed, fixed;
      lastRecv, lastKeepalive, lastPing, authStart, lastResetStamp, lastResetNonce := 0, 0, 0, 0, 0, 0;
      window, channels := NothingReceived(), {};
      sent := [];
    }

    method Send(m: Message)
      modifies `sent
      ensures sent == old(sent) + [m]
    {
      sent := sent + [m];
    }

    /** ikcp_release and the NULL assignment after it. */
    method ReleaseKcp()
      modifies `hasKcp, `liveKcps
      ensures Abs() == Released(old(Abs()))
      ensures !hasKcp && liveKcps == if old(hasKcp) then old(liveKcps) - 1 else old(liveKcps)
    {
      if hasKcp {
        liveKcps := liveKcps - 1;
        hasKcp := false;
      }
    }

    /** What a reset erases besides the control block. */
    method Forget()
      modifies `sessionKey, `window, `lastResetStamp, `lastResetNonce, `channels, `peerValid
      ensures Abs() == Forgotten(old(Abs())) && channels == {} && window == NothingReceived() && sessionKey == NoKey
    {
      sessionKey := NoKey;
      window := NothingReceived();
      lastResetStamp, lastResetNonce := 0, 0;
      channels := {};
      peerValid := fixedPeer;
    }

    /** ikcp_create, assigned to the tunnel. */
    method CreateKcp()
      modifies `hasKcp, `liveKcps
      ensures hasKcp && liveKcps == old(liveKcps) + 1
    {
      liveKcps := liveKcps + 1;
      hasKcp := true;
    }

    /** Key and channel-number role from the two salts. */
    method Negotiate()
      modifies `sessionKey, `isOdd
      ensures sessionKey == SessionKey(rLocal, rRemote) && isOdd == Greater(rLocal, rRemote)
    {
      sessionKey := SessionKey(rLocal, rRemote);
      isOdd := Greater(rLocal, rRemote);
    }

    /** reset_tunnel: nothing of the connection survives it. */
    method ResetTunnel()
      requires Valid()
      modifies `state, `hasKcp, `liveKcps, `sessionKey, `window, `lastResetStamp, `lastResetNonce, `channels, `peerValid
      ensures Valid() && Abs() == ResetPeer(old(Abs()))
      ensures state == Disconnected && !hasKcp && liveKcps == 0 && channels == {} && window == NothingReceived()
    {
      hide SessionKey, Greater, NothingReceived, Released, Forgotten;
      ReleaseKcp();
      Forget();
      state := Disconnected;
    }

    method StartAuth(now: u64, salt: Salt)
      modifies `state, `rLocal, `authStart, `lastPing
      ensures Abs() == EnterAuth(old(Abs()), now, salt)
    {
      state := Auth;
      rLocal := salt;
      authStart := now;
      lastPing := 0;
    }

    /** Every valid ping is answered; it starts authentication unless that is under way or done. */
    method OnPing(stamp: u64, now: u64, salt: Salt)
      requires Valid()
      modifies this
      ensures Valid() && Became(Handshake.OnPing(old(Abs()), stamp, now, salt))
      ensures sent == old(sent) + [Pong(stamp)] && peerValid
      ensures state == if old(state) == Connected then Connected else Auth
    {
      hide SessionKey, Greater;
      if !peerValid {
        peerValid := true;
      }
      Send(Pong(stamp));
      if state == Disconnected || state == Punching {
        StartAuth(now, salt);
      }
    }

    /** A pong counts only while punching. */
    method OnPong(now: u64, salt: Salt)
      requires Valid()
      modifies this
      ensures Valid() && Became(Handshake.OnPong(old(Abs()), now, salt))
      ensures state == if old(state) == Punching then Auth else old(state)
    {
      hide SessionKey, Greater;
      if state == Punching {
        StartAuth(now, salt);
      }
    }

    /** Re-keying a connected tunnel replaces its control block. */
    method Rekey()
      requires state == Connected && hasKcp && liveKcps == 1
      modifies `sessionKey, `isOdd, `hasKcp, `liveKcps
      ensures hasKcp && liveKcps == 1 && sessionKey == SessionKey(rLocal, rRemote) && isOdd == Greater(rLocal, rRemote)
    {
      hide SessionKey, Greater;
      ReleaseKcp();
      Negotiate();
      CreateKcp();
    }

    /** A challenge is answered with both salts, and from then on this peer holds them. */
    method OnChal(salt: Salt)
      requires Valid()
      modifies this
      ensures Valid() && Became(Handshake.OnChal(old(Abs()), salt))
      ensures state == old(state) && rLocal == old(rLocal) && rRemote == salt
              && sent == old(sent) + [Resp(rLocal, rRemote)]
    {
      hide SessionKey, Greater;
      rRemote := salt;
      if state == Connected {
        Rekey();
      }
      Send(Resp(rLocal, rRemote));
    }

    /** The peer connects exactly when it is in AUTH and the response signs the salts it holds. */
    method OnResp(own: Salt, other: Salt, now: u64)
      requires Valid()
      modifies this
      ensures Valid() && Became(Handshake.OnResp(old(Abs()), own, other, now))
      ensures state == Connected <==>
              old(state) == Connected || (old(state) == Auth && own == rRemote && other == rLocal)
      ensures rLocal == old(rLocal) && rRemote == old(rRemote) && sent == old(sent)
    {
      hide SessionKey, Greater;
      if own == rRemote && other == rLocal {
        if state == Auth {
          Negotiate();
          CreateKcp();
          state := Connected;
          lastRecv := now;
          lastKeepalive := now;
        }
      }
    }

    /** An accepted reset request. */
    method Restart(stamp: u64, nonce: u64, now: u64, salt: Salt)
      requires Valid()
      modifies this
      ensures Valid() && Abs() == Restarted(old(Abs()), stamp, nonce, now, salt) && sent == old(sent)
      ensures state == Auth && !hasKcp && rLocal == salt && window == NothingReceived()
    {
      hide SessionKey, Greater, NothingReceived, ResetPeer;
      lastResetStamp := stamp;
      lastResetNonce := nonce;
      ResetTunnel();
      peerValid := true;
      StartAuth(now, salt);
    }

    /**
     A request restarts authentication exactly when it is within 5 s of the clock and later than the
     recorded one; any other changes nothing.
     */
    method OnReset(stamp: u64, nonce: u64, now: u64, wall: u64, salt: Salt)
      requires Valid()
      modifies this
      ensures Valid() && Became(Handshake.OnReset(old(Abs()), stamp, nonce, now, wall, salt))
      ensures if Timely(stamp, wall) && Later(old(Abs()), stamp, nonce)
              then StartedOver(old(Abs()), Abs(), now, salt) else Abs() == old(Abs())
      ensures sent == old(sent)
    {
      ResetExactly(Abs(), stamp, nonce, now, wall, salt);
      hide SessionKey, Greater, Restarted, NothingReceived, PeerOk;
      var diff := if wall > stamp then wall - stamp else stamp - wall;
      if diff > 5000 {
        return;
      }
      if stamp < lastResetStamp || (stamp == lastResetStamp && nonce == lastResetNonce) {
        return;
      }
      Restart(stamp, nonce, now, salt);
    }

    /**
     Dispatch on the magic of a received datagram.  Only the awaited response in AUTH connects, and
     then with a control block, the key and the role of the current salts; only a timely reset
     request disconnects.
     */
    method OnMessage(m: Message, now: u64, wall: u64, salt: Salt)
      requires Valid()
      modifies this
      ensures Valid() && Became(Receive(old(Abs()), m, now, wall, salt))
      ensures old(state) != Connected && state == Connected ==>
                && old(state) == Auth && m == Resp(old(rRemote), old(rLocal)) && rLocal == old(rLocal)
                   && rRemote == old(rRemote)
                && hasKcp && sessionKey == SessionKey(rLocal, rRemote) && isOdd == Greater(rLocal, rRemote)
      ensures old(state) == Connected && state != Connected ==>
                m.Reset? && m.stamp <= wall + 5000 && wall <= m.stamp + 5000 && state == Auth && !hasKcp
    {
      hide Handshake.OnPing, Handshake.OnPong, Handshake.OnChal, Handshake.OnResp, Handshake.OnReset, SessionKey,
           Greater;
      ghost var p := Abs();
      match m {
        case Ping(stamp) => OnPing(stamp, now, salt);
        case Pong(_) => OnPong(now, salt);
        case Chal(c) => OnChal(c);
        case Resp(own, other) => OnResp(own, other, now);
        case Reset(stamp, nonce) => OnReset(stamp, nonce, now, wall, salt);
      }
      hide Receive;
      if p.state != Connected && state == Connected {
        OnlyAwaitedResponseConnects(p, m, now, wall, salt);
      }
      if p.state == Connected && state != Connected {
        OnlyResetsDisconnect(p, m, now, wall, salt);
      }
    }

    /** A data packet: anti-replay check, decryption, update. */
    method OnData(now: u64, sn: u64, genuine: bool)
      requires Valid()
      modifies `window, `lastRecv
      ensures Valid() && Abs() == Heard(old(Abs()), now, sn, genuine).p
    {
      hide AntiReplay.Passes, AntiReplay.Marked, SessionKey, Greater;
      if state == Connected {
        if AntiReplay.Passes(window, sn) && genuine {
          window := AntiReplay.Marked(window, sn);
          lastRecv := now;
        }
      }
    }

    /**
     Keepalives, time-outs and retransmissions of one turn of the event loop: a connection ends
     exactly after 30 s of silence and AUTH exactly after 5 s, and time alone never connects.
     */
    method OnTick(now: u64, wall: u64, nonce: u64)
      requires Valid()
      modifies this
      ensures Valid() && Became(Tick(old(Abs()), now, wall, nonce))
      ensures state == Connected <==> old(state) == Connected && Since(now, old(lastRecv)) <= 30000
      ensures old(state) == Auth ==> (state == Disconnected <==> Since(now, old(authStart)) > 5000)
      ensures rLocal == old(rLocal) && rRemote == old(rRemote)
    {
      hide Since, SessionKey, Greater;
      if state == Connected {
        if Since(now, lastRecv) > 30000 {
          ResetTunnel();
        } else if Since(now, lastKeepalive) > 10000 {
          lastKeepalive := now;
        }
      } else if state == Disconnected {
        if peerValid {
          state := Punching;
          lastPing := 0;
        }
      } else if state == Punching {
        if Since(now, lastPing) > 1000 {
          Send(Ping(wall));
          if peerValid {
            Send(Reset(wall, nonce));
          }
          lastPing := now;
        }
      } else {
        if Since(now, authStart) > 5000 {
          ResetTunnel();
        } else if Since(now, lastPing) > 500 {
          Send(Chal(rLocal));
          lastPing := now;
        }
      }
    }
  }
}
