/** What the timing rules of ikcp.c mean: settings, round trips, window probes and retransmission. */
module KcpTimers {
  import opened Bytes
  import opened KcpSpec
  import opened KcpWrap

  // ---------------------------------------------------------------- settings

  function Distance(a: int, b: int): nat
  {
    if a >= b then a - b else b - a
  }

  lemma {:induction false} NearestInterval(interval: int)
    ensures var c := Min(Max(interval, 10), 5000);
            10 <= c <= 5000 && forall x :: 10 <= x <= 5000 ==> Distance(c, interval) <= Distance(x, interval)
  {
  }

  lemma {:induction false} NoDelayInterval(cfg: Config, nodelay: int, interval: int, resend: int, nc: int)
    ensures WithNoDelay(cfg, nodelay, interval, resend, nc).interval
         == if interval >= 0 then Min(Max(interval, 10), 5000) else cfg.interval
  {
  }

  lemma {:induction false} NoDelayTwice(cfg: Config, nodelay: int, interval: int, resend: int, nc: int)
    ensures var c := WithNoDelay(cfg, nodelay, interval, resend, nc);
            WithNoDelay(c, nodelay, interval, resend, nc) == c
  {
  }

  lemma {:induction false} NoDelayRest(cfg: Config, nodelay: int, interval: int, resend: int, nc: int)
    ensures var c := WithNoDelay(cfg, nodelay, interval, resend, nc);
            && (nodelay >= 0 ==> c.nodelay == nodelay && c.minRto == if nodelay == 0 then 100 else 30)
            && (nodelay < 0 ==> c.nodelay == cfg.nodelay && c.minRto == cfg.minRto)
            && c.fastResend == (if resend >= 0 then resend else cfg.fastResend)
            && c.noCwnd == (if nc >= 0 then nc != 0 else cfg.noCwnd)
            && (ValidConfig(cfg) ==> ValidConfig(c))
  {
  }

  /**
   ikcp_nodelay: the interval becomes the value of 10..5000 nearest to the argument, a negative
   argument leaves its setting alone, and setting the same values again changes nothing.
   */
  lemma {:induction false} NoDelaySpec(cfg: Config, nodelay: int, interval: int, resend: int, nc: int)
    ensures var c := WithNoDelay(cfg, nodelay, interval, resend, nc);
            && (interval >= 0 ==> 10 <= c.interval <= 5000
                                  && forall x :: 10 <= x <= 5000 ==>
                                     Distance(c.interval, interval) <= Distance(x, interval))
            && (interval < 0 ==> c.interval == cfg.interval)
            && (nodelay >= 0 ==> c.nodelay == nodelay && c.minRto == if nodelay == 0 then 100 else 30)
            && (nodelay < 0 ==> c.nodelay == cfg.nodelay && c.minRto == cfg.minRto)
            && c.fastResend == (if resend >= 0 then resend else cfg.fastResend)
            && c.noCwnd == (if nc >= 0 then nc != 0 else cfg.noCwnd)
            && (ValidConfig(cfg) ==> ValidConfig(c))
            && WithNoDelay(c, nodelay, interval, resend, nc) == c
  {
    hide *;
    NearestInterval(interval);
    NoDelayInterval(cfg, nodelay, interval, resend, nc);
    NoDelayTwice(cfg, nodelay, interval, resend, nc);
    NoDelayRest(cfg, nodelay, interval, resend, nc);
  }

  /** ikcp_wndsize: a positive argument sets its window, the receive window to 128 at least; nothing else changes. */
  lemma {:induction false} WindowsSpec(cfg: Config, snd: int, rcv: int)
    ensures var c := WithWindows(cfg, snd, rcv);
            && (snd > 0 ==> c.sndWnd == snd) && (snd <= 0 ==> c.sndWnd == cfg.sndWnd)
            && (rcv > 0 ==> c.rcvWnd >= 128 && c.rcvWnd >= rcv && (c.rcvWnd == 128 || c.rcvWnd == rcv))
            && (rcv <= 0 ==> c.rcvWnd == cfg.rcvWnd)
            && c == cfg.(sndWnd := c.sndWnd, rcvWnd := c.rcvWnd)
  {
  }

  // ---------------------------------------------------------------- round trips

  /**
   ikcp_update_ack: the first sample sets the estimates; after it the smoothed round trip moves one
   eighth of the way to the sample and the deviation one quarter of the way to their distance, both
   rounded down, the round trip not below 1.  The time-out is their sum, the deviation taken four
   times and not below the flush interval, between the configured minimum and a minute.
   */
  lemma {:induction false} RttSpec(cfg: Config, tm: Timing, rtt: nat)
    requires cfg.minRto <= RTO_MAX
    ensures var t, off := UpdateRtt(cfg, tm, rtt), Distance(rtt, tm.srtt);
            && (tm.srtt == 0 ==> t.srtt == rtt && rtt - 1 <= 2 * t.rttVal <= rtt)
            && (tm.srtt > 0 ==>
                  && (8 * t.srtt <= 7 * tm.srtt + rtt < 8 * t.srtt + 8 || (t.srtt == 1 && 7 * tm.srtt + rtt < 8))
                  && 4 * t.rttVal <= 3 * tm.rttVal + off < 4 * t.rttVal + 4)
            && (var sum := t.srtt + Max(cfg.interval, 4 * t.rttVal);
                t.rto == if sum < cfg.minRto then cfg.minRto else if sum > RTO_MAX then RTO_MAX else sum)
            && t == tm.(srtt := t.srtt, rttVal := t.rttVal, rto := t.rto)
  {
  }

  /**
   So the smoothed round trip stays between its old value and the sample, a steady round trip is a
   fixed point, and the time-out is never below the smoothed round trip unless capped.
   */
  lemma {:induction false} RttSteady(cfg: Config, tm: Timing, rtt: nat)
    requires cfg.minRto <= RTO_MAX
    ensures var t := UpdateRtt(cfg, tm, rtt);
            && cfg.minRto <= t.rto <= RTO_MAX && t.rto >= Min(t.srtt, RTO_MAX)
            && (tm.srtt > 0 ==> Max(1, Min(tm.srtt, rtt)) <= t.srtt <= Max(tm.srtt, rtt))
            && (tm.srtt > 0 && rtt == tm.srtt ==> t.srtt == rtt && t.rttVal <= tm.rttVal)
  {
  }

  // ---------------------------------------------------------------- window probes

  /** The probe wait is off or within its limits. */
  predicate ProbeOk(tm: Timing)
  {
    tm.probeWait == 0 || PROBE_INIT <= tm.probeWait <= PROBE_LIMIT
  }

  lemma {:induction false} Ahead(current: nat, wait: nat)
    requires current < TWO_32 && wait < TWO_31
    ensures TimeDiff(U32(current + wait), current) == wait
  {
    assert U32(current) == current;
    DiffExact(current + wait, current);
  }

  /**
   While the peer's window is zero the wait starts at 5 seconds and grows by half, up to 120, with
   each probe; a probe is asked for exactly when the wait is over, and the next one is then a whole
   wait ahead.
   */
  lemma {:induction false} ProbeSpec(tm: Timing, rmtWnd: nat)
    requires ProbeOk(tm) && tm.current < TWO_32
    ensures var t := ProbeTimer(tm, rmtWnd);
            var due := rmtWnd == 0 && tm.probeWait != 0 && TimeDiff(tm.current, tm.tsProbe) >= 0;
            && ProbeOk(t)
            && (rmtWnd != 0 ==> t.probeWait == 0 && t.tsProbe == 0)
            && (rmtWnd == 0 && tm.probeWait == 0 ==> t.probeWait == 5000)
            && (rmtWnd == 0 && tm.probeWait != 0 ==>
                  t.probeWait == if due then Min(tm.probeWait + tm.probeWait / 2, 120000) else tm.probeWait)
            && (rmtWnd == 0 && tm.probeWait != 0 && !due ==> t.tsProbe == tm.tsProbe)
            && (t.askSend <==> tm.askSend || due)
            && (due || (rmtWnd == 0 && tm.probeWait == 0) ==> TimeDiff(t.tsProbe, tm.current) == t.probeWait)
            && t == tm.(tsProbe := t.tsProbe, probeWait := t.probeWait, askSend := t.askSend)
  {
    var t := ProbeTimer(tm, rmtWnd);
    Ahead(tm.current, t.probeWait);
    hide U32, TimeDiff;
  }

  // ---------------------------------------------------------------- retransmission

  /** How long after this transmission the segment is due again. */
  function Wait(k: Kcb, seg: Segment): nat
  {
    if WhySend(k, seg).First? then k.tm.rto + (if k.cfg.nodelay == 0 then k.tm.rto / 8 else 0)
    else if WhySend(k, seg).Timeout? then BackedOff(k, seg.rto)
    else seg.rto
  }

  /** Skipped by enough later acknowledgements, and not sent too often to be resent for that. */
  predicate Overtaken(cfg: Config, seg: Segment)
  {
    && seg.fastAck >= (if cfg.fastResend > 0 then cfg.fastResend else 0xffff_ffff)
    && (cfg.fastLimit <= 0 || Signed(U32(seg.xmit)) <= cfg.fastLimit)
  }

  /** Never sent, timed out, or overtaken. */
  predicate Due(cfg: Config, now: nat, seg: Segment)
  {
    seg.xmit == 0 || TimeDiff(now, seg.resendTs) >= 0 || Overtaken(cfg, seg)
  }

  /**
   A segment is sent exactly when it is due, for the first reason that applies.  One that is not
   sent is left alone.  One that is sent keeps its number, fragment and octets, counts one more
   transmission, carries the current clock and window, and is due again exactly one wait later; only
   a fast retransmission starts the count of overtaking acknowledgements anew.
   */
  lemma {:induction false} RetimeSpec(k: Kcb, seg: Segment)
    requires k.tm.current < TWO_32 && seg.xmit < TWO_32
    ensures var why, s := WhySend(k, seg), Flushed(k, seg);
            var expired := TimeDiff(k.tm.current, seg.resendTs) >= 0;
            && (why.Idle? <==> !Due(k.cfg, k.tm.current, seg))
            && (why.First? <==> seg.xmit == 0)
            && (why.Timeout? <==> seg.xmit > 0 && expired)
            && (why.Fast? <==> seg.xmit > 0 && !expired && Overtaken(k.cfg, seg))
            && (why.Idle? ==> s == seg)
            && (!why.Idle? ==> s.xmit == U32(seg.xmit + 1) && s.ts == k.tm.current && s.una == k.rcv.nxt
                               && s.wnd == Unused(k)
                               && (Wait(k, seg) < TWO_31 ==> TimeDiff(s.resendTs, k.tm.current) == Wait(k, seg)))
            && s.sn == seg.sn && s.frg == seg.frg && s.data == seg.data
            && s.fastAck == (if why.Fast? then 0 else seg.fastAck)
            && s.rto == (if why.First? then k.tm.rto else if why.Timeout? then BackedOff(k, seg.rto) else seg.rto)
  {
    if Wait(k, seg) < TWO_31 {
      Ahead(k.tm.current, Wait(k, seg));
    }
    hide U32, TimeDiff, Signed, BackedOff, Unused;
  }

  /** Within one clock value a segment times out at most once. */
  lemma {:induction false} NotDueTwice(k: Kcb, seg: Segment)
    requires k.tm.current < TWO_32 && seg.xmit + 1 < TWO_32 && 0 < Wait(k, seg) < TWO_31 && !WhySend(k, seg).Idle?
    ensures !WhySend(k, Flushed(k, seg)).First? && !WhySend(k, Flushed(k, seg)).Timeout?
  {
    RetimeSpec(k, seg);
    var s := Flushed(k, seg);
    Antisymmetric(k.tm.current, Wait(k, seg));
    assert s.resendTs == U32(k.tm.current + Wait(k, seg));
    assert U32(seg.xmit + 1) == seg.xmit + 1;
    hide U32, TimeDiff, Flushed, Wait, BackedOff;
  }

  lemma {:induction false} Antisymmetric(current: nat, wait: nat)
    requires current < TWO_32 && 0 < wait < TWO_31
    ensures TimeDiff(current, U32(current + wait)) < 0
  {
    assert U32(current) == current;
    DiffExact(current, current + wait);
  }

  /**
   A time-out lengthens the wait: without nodelay by itself or the current time-out, whichever is
   longer, with nodelay 1 by half, and above by half the current time-out.
   */
  lemma {:induction false} BackoffGrows(k: Kcb, rto: nat)
    requires rto < 0x4000_0000 && k.tm.rto < 0x4000_0000
    ensures BackedOff(k, rto) >= rto
    ensures k.cfg.nodelay == 0 ==> BackedOff(k, rto) == Max(2 * rto, rto + k.tm.rto)
    ensures k.cfg.nodelay == 1 ==> BackedOff(k, rto) == rto + rto / 2
    ensures k.cfg.nodelay >= 2 ==> BackedOff(k, rto) == rto + k.tm.rto / 2
  {
    assert U32(rto) == rto && Signed(U32(rto)) == rto;
    var step := HalfTowardZero(if k.cfg.nodelay < 2 then rto else k.tm.rto);
    assert 0 <= step < 0x4000_0000;
    assert U32(rto + step) == rto + step && U32(rto + Max(rto, k.tm.rto)) == rto + Max(rto, k.tm.rto);
    hide U32, Signed;
  }
}
