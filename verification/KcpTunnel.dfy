/** The run theorems at the settings every tunnel uses. */
module KcpTunnel {
  import opened KcpSpec
  import opened KcpWorld
  import opened KcpRefine
  import opened KcpCongestion

  /** Two freshly connected tunnels. */
  function TunnelStart(): (w: World)
    ensures Configured(w)
  {
    Start(TunnelConfig(), TunnelConfig())
  }

  /** What the settings of a tunnel amount to: message mode, no congestion window, windows 32 and 128. */
  predicate Plain(cfg: Config)
  {
    ValidConfig(cfg) && cfg.noCwnd && !cfg.stream && cfg.rcvWnd == 128 && cfg.sndWnd == 32
  }

  lemma {:induction false} TunnelIsPlain()
    ensures Plain(TunnelConfig())
  {
  }

  /** The settings in numbers, and the state before the first call: nothing queued, a time-out of 200 ms. */
  lemma {:induction false} TunnelSettings()
    ensures TunnelConfig() == Config(0x11223344, 1400, 32, 128, 1, 20, 30, 20, 2, 5, true, false)
    ensures forall cfg :: Created(cfg)
                       == Kcb(cfg, Sender(0, 0, [], []), Receiver(0, [], [], []), Congestion(0, 0, 2, 128),
                              Timing(0, 100, false, 0, 0, 200, 0, 0, false, false, 0, false))
  {
  }

  lemma {:induction false} TunnelIsModest()
    ensures Modest(TunnelConfig())
  {
  }

  /**
   Between two tunnels, whatever the network does, as long as each side has sent at most 2^31 + 1
   segments: messages arrive as a prefix of what was sent, nothing is lost, windows hold, a full
   receive window can be read, and the congestion arithmetic stays balanced.
   */
  lemma {:induction false} EveryTunnelRun(acts: seq<Action>)
    requires Small(Run(true, TunnelStart(), acts))
    ensures Run(true, TunnelStart(), acts) == WrapWorld(Run(false, TunnelStart(), acts))
            && Safe(Run(false, TunnelStart(), acts))
    ensures WrappedSafe(Run(true, TunnelStart(), acts)) && BothBalanced(Run(true, TunnelStart(), acts))
  {
    var t := TunnelConfig();
    TunnelIsModest();
    EveryShortRunSafe(t, t, acts);
    EveryRunSafe(t, t, acts);
    StartInv(t, t);
    WrapStart(t, t);
    hide WrappedSafe, Safe, WrapWorld, Small, Inv, BothBalanced, Run, Modest, TunnelConfig, FreshRun;
    SmallRunFresh(TunnelStart(), acts);
    EveryFreshRunBalanced(t, t, acts);
  }
}
