/** The built-in congestion arithmetic: incr is the window in octets, always within one segment of cwnd segments. */
module KcpCongestion {
  import opened Bytes
  import opened KcpSpec
  import opened KcpWire
  import opened KcpLists
  import opened KcpMessages
  import opened KcpFlow
  import opened KcpWorld
  import opened KcpWrap
  import opened KcpRefine

  /** No window the arithmetic can reach is larger than this. */
  const BOUND: nat := 0x1_0000

  /** The fast-retransmission threshold is small; 0, which turns it off, included. */
  ghost predicate Modest(cfg: Config)
  {
    ValidConfig(cfg) && cfg.fastResend <= 0x8000
  }

  ghost predicate Balanced(cc: Congestion, cfg: Config)
    requires cfg.mtu >= OVERHEAD
  {
    && cc.ssthresh >= THRESH_MIN
    && cc.cwnd <= BOUND
    && Product(cc.cwnd, cfg.Mss()) < cc.incr + cfg.Mss()
    && cc.incr < Product(cc.cwnd, cfg.Mss()) + cfg.Mss()
    && cc.rmtWnd < 0x1_0000
  }

  // ---------------------------------------------------------------- products and quotients

  lemma {:induction false} ProductStep(a: nat, m: nat)
    ensures Product(a + 1, m) == Product(a, m) + m
  {
  }

  lemma {:induction false} ProductMonotone(a: nat, b: nat, m: nat)
    requires a <= b
    ensures Product(a, m) <= Product(b, m)
    decreases b - a
  {
    if a < b {
      ProductMonotone(a, b - 1, m);
      ProductStep(b - 1, m);
    }
  }

  lemma {:induction false} QuotientSpec(a: nat, b: nat)
    requires b > 0
    ensures Product(Quotient(a, b), b) <= a < Product(Quotient(a, b), b) + b
  {
    assert a == a / b * b + a % b;
  }

  lemma {:induction false} SquareShare(m: nat, base: nat)
    requires base >= m > 0
    ensures Quotient(Product(m, m), base) <= m
  {
    var q := Quotient(Product(m, m), base);
    QuotientSpec(Product(m, m), base);
    ProductMonotone(m, base, m);
    ProductComm(m, base);
    hide Product, Quotient;
    if q > m {
      ProductMonotone(m + 1, q, base);
      ProductStep(m, base);
    }
  }

  lemma {:induction false} ProductComm(a: nat, b: nat)
    ensures Product(a, b) == Product(b, a)
  {
  }

  lemma {:induction false} Small32(x: nat)
    requires x < TWO_32
    ensures U32(x) == x
  {
  }

  lemma {:induction false} BoundFits(m: nat)
    requires m <= 0xffe7
    ensures Product(BOUND + 5, m) < TWO_32
  {
    ProductMonotone(m, 0xffe7, BOUND + 5);
    ProductComm(m, BOUND + 5);
    assert Product(0xffe7, BOUND + 5) == 0xffe7 * 0x1_0005;
  }

  /** (B + 5) m below 2^32 bounds every multiple in use. */
  lemma {:induction false} Room(cwnd: nat, cfg: Config)
    requires Modest(cfg) && cwnd <= BOUND
    ensures Product(cwnd, cfg.Mss()) + 5 * cfg.Mss() < TWO_32
    ensures Product(cwnd + 1, cfg.Mss()) == Product(cwnd, cfg.Mss()) + cfg.Mss()
  {
    var b, m := BOUND, cfg.Mss();
    BoundFits(m);
    ProductMonotone(cwnd, b, m);
    ProductStep(cwnd, m);
    ProductStep(b, m);
    ProductStep(b + 1, m);
    ProductStep(b + 2, m);
    ProductStep(b + 3, m);
    ProductStep(b + 4, m);
    hide Product;
  }

  // ---------------------------------------------------------------- growth

  lemma {:induction false} AvoidBounds(cc: Congestion, cfg: Config)
    requires Modest(cfg) && Balanced(cc, cfg)
    ensures var m := cfg.Mss();
            Max(cc.incr, m) <= Avoid(cc.incr, m) <= Max(cc.incr, m) + 2 * m
            && Avoid(cc.incr, m) < Product(cc.cwnd, m) + 4 * m
  {
    var m := cfg.Mss();
    Room(cc.cwnd, cfg);
    var base := Max(cc.incr, m);
    SquareShare(m, base);
    hide Product, Quotient, U32;
    Small32(base + Quotient(Product(m, m), base) + m / 16);
  }

  lemma {:induction false} RoundUp(incr: nat, m: nat, bound: nat)
    requires m > 0 && incr + m < TWO_32 && incr <= Product(bound, m)
    ensures var q := Quotient(U32(incr + m - 1), m);
            Product(q, m) < incr + m && incr <= Product(q, m) && q <= bound
  {
    Small32(incr + m - 1);
    var q := Quotient(incr + m - 1, m);
    QuotientSpec(incr + m - 1, m);
    hide U32, Quotient;
    if q > bound {
      ProductMonotone(bound + 1, q, m);
      ProductStep(bound, m);
    }
  }

  ghost predicate NearProduct(cwnd: nat, incr: nat, m: nat)
  {
    Product(cwnd, m) < incr + m && incr < Product(cwnd, m) + m
  }

  /** Slow start and congestion avoidance, before the clamp to the peer's window. */
  lemma {:induction false} GrownBalanced(cc: Congestion, cfg: Config)
    requires Modest(cfg) && Balanced(cc, cfg) && cc.cwnd < cc.rmtWnd
    ensures var m := cfg.Mss();
            var incr := Avoid(cc.incr, m);
            && U32(cc.cwnd + 1) == cc.cwnd + 1 && NearProduct(U32(cc.cwnd + 1), U32(cc.incr + m), m)
            && (U32(Product(cc.cwnd + 1, m)) <= incr ==> NearProduct(Quotient(U32(incr + m - 1), m), incr, m))
            && (U32(Product(cc.cwnd + 1, m)) > incr ==> NearProduct(cc.cwnd, incr, m))
  {
    var m := cfg.Mss();
    var incr := Avoid(cc.incr, m);
    Room(cc.cwnd, cfg);
    AvoidBounds(cc, cfg);
    Small32(cc.cwnd + 1);
    Small32(cc.incr + m);
    Small32(Product(cc.cwnd + 1, m));
    hide Avoid, U32, Quotient;
    ProductStep(cc.cwnd, m);
    ProductStep(cc.cwnd + 1, m);
    ProductStep(cc.cwnd + 2, m);
    ProductStep(cc.cwnd + 3, m);
    hide Product;
    RoundUp(incr, m, cc.cwnd + 4);
  }

  lemma {:induction false} GrowBalanced(cc: Congestion, cfg: Config)
    requires Modest(cfg) && Balanced(cc, cfg)
    ensures Balanced(GrowWindow(cc, cfg.Mss()), cfg)
  {
    var m := cfg.Mss();
    if cc.cwnd < cc.rmtWnd {
      GrownBalanced(cc, cfg);
      Room(cc.rmtWnd, cfg);
      Small32(Product(cc.rmtWnd, m));
      assert cc.rmtWnd <= BOUND;
      hide Product, Quotient, U32, Avoid, Modest, ValidConfig;
    }
  }

  /** What congestion avoidance makes of incr: a share of mss / incr of a segment and a sixteenth more. */
  function Avoided(incr: nat, m: nat): nat
    requires m > 0
  {
    var base := if incr < m then m else incr;
    base + Quotient(Product(m, m), base) + m / 16
  }

  lemma {:induction false} AvoidedFits(cc: Congestion, cfg: Config)
    requires Modest(cfg) && Balanced(cc, cfg)
    ensures Avoid(cc.incr, cfg.Mss()) == Avoided(cc.incr, cfg.Mss())
    ensures Avoided(cc.incr, cfg.Mss()) < Product(cc.cwnd, cfg.Mss()) + 4 * cfg.Mss()
  {
    var m := cfg.Mss();
    AvoidBounds(cc, cfg);
    Room(cc.cwnd, cfg);
    var base := Max(cc.incr, m);
    SquareShare(m, base);
    Small32(base + Quotient(Product(m, m), base) + m / 16);
    hide Product, Quotient, U32;
  }

  /**
   Growth: nothing once the window has reached the peer's; one segment in slow start; in congestion
   avoidance incr grows by its share, and the window to the least number of segments that holds incr
   once that is at least one more, but never past the peer's window.
   */
  ghost predicate Grown(cc: Congestion, c: Congestion, m: nat)
    requires m > 0
  {
    var full := Avoided(cc.incr, m);
    && c.ssthresh == cc.ssthresh && c.rmtWnd == cc.rmtWnd
    && (cc.cwnd >= cc.rmtWnd ==> c == cc)
    && (cc.cwnd < cc.rmtWnd && cc.cwnd < cc.ssthresh ==> c.cwnd == cc.cwnd + 1 && c.incr == cc.incr + m)
    && (cc.cwnd < cc.rmtWnd && cc.cwnd >= cc.ssthresh ==>
          && (full < Product(cc.cwnd + 1, m) ==> c.cwnd == cc.cwnd && c.incr == full)
          && (Product(cc.cwnd + 1, m) <= full <= Product(cc.rmtWnd, m) ==>
                full <= Product(c.cwnd, m) < full + m && c.incr == full)
          && (full > Product(cc.rmtWnd, m) ==> c.cwnd == cc.rmtWnd && c.incr == Product(cc.rmtWnd, m)))
  }

  lemma {:induction false} GrowExactly(cc: Congestion, cfg: Config)
    requires Modest(cfg) && Balanced(cc, cfg)
    ensures Grown(cc, GrowWindow(cc, cfg.Mss()), cfg.Mss())
  {
    var m := cfg.Mss();
    if cc.cwnd < cc.rmtWnd {
      if cc.cwnd < cc.ssthresh {
        SlowStart(cc, cfg);
      } else {
        Avoidance(cc, cfg);
      }
    }
    hide Product, Quotient, U32, Avoid, Modest, ValidConfig;
  }

  lemma {:induction false} SlowStart(cc: Congestion, cfg: Config)
    requires Modest(cfg) && Balanced(cc, cfg) && cc.cwnd < cc.rmtWnd && cc.cwnd < cc.ssthresh
    ensures GrowWindow(cc, cfg.Mss()) == cc.(cwnd := cc.cwnd + 1, incr := cc.incr + cfg.Mss())
  {
    Room(cc.cwnd, cfg);
    Small32(cc.cwnd + 1);
    Small32(cc.incr + cfg.Mss());
    hide Product, Quotient, U32, Avoid;
  }

  lemma {:induction false} Avoidance(cc: Congestion, cfg: Config)
    requires Modest(cfg) && Balanced(cc, cfg) && cc.cwnd < cc.rmtWnd && cc.cwnd >= cc.ssthresh
    ensures Grown(cc, GrowWindow(cc, cfg.Mss()), cfg.Mss())
  {
    var m, full := cfg.Mss(), Avoided(cc.incr, cfg.Mss());
    AvoidedFits(cc, cfg);
    Room(cc.cwnd, cfg);
    Room(cc.rmtWnd, cfg);
    Small32(Product(cc.cwnd + 1, m));
    Small32(Product(cc.rmtWnd, m));
    var q := Quotient(U32(full + m - 1), m);
    ProductStep(cc.cwnd, m);
    ProductStep(cc.cwnd + 1, m);
    ProductStep(cc.cwnd + 2, m);
    ProductStep(cc.cwnd + 3, m);
    hide Product, Quotient, U32, Avoid, Avoided, Modest, ValidConfig;
    if Product(cc.cwnd + 1, m) <= full {
      RoundUp(full, m, cc.cwnd + 4);
      Within(full, q, cc.rmtWnd, m);
    } else {
      ProductMonotone(cc.cwnd + 1, cc.rmtWnd, m);
    }
  }

  /** q, the least number of segments that holds full, is past w exactly when w segments do not hold it. */
  lemma {:induction false} Within(full: nat, q: nat, w: nat, m: nat)
    requires m > 0 && full <= Product(q, m) < full + m
    ensures q > w <==> full > Product(w, m)
  {
    hide Product;
    if q > w {
      ProductMonotone(w + 1, q, m);
      ProductStep(w, m);
    } else {
      ProductMonotone(q, w, m);
    }
  }

  /** The window after n acknowledgements that each advance snd_una. */
  function GrowTimes(cc: Congestion, m: nat, n: nat): Congestion
    requires m > 0
    decreases n
  {
    if n == 0 then cc else GrowTimes(GrowWindow(cc, m), m, n - 1)
  }

  lemma {:induction false} GrowStep(cc: Congestion, cfg: Config)
    requires Modest(cfg) && Balanced(cc, cfg) && cc.cwnd < cc.rmtWnd
    ensures var c, m := GrowWindow(cc, cfg.Mss()), cfg.Mss();
            && c.rmtWnd == cc.rmtWnd && (c.cwnd == c.rmtWnd || cc.incr < c.incr)
            && cc.incr < Product(cc.rmtWnd, m)
  {
    var m := cfg.Mss();
    GrowExactly(cc, cfg);
    ProductMonotone(cc.cwnd + 1, cc.rmtWnd, m);
    ProductStep(cc.cwnd, m);
    hide Product, Quotient, GrowWindow;
  }

  lemma {:induction false} BalancedRoom(cc: Congestion, cfg: Config)
    requires Modest(cfg) && Balanced(cc, cfg)
    ensures ValidConfig(cfg) && cfg.mtu >= OVERHEAD && cfg.Mss() > 0
  {
    hide Product;
  }

  lemma {:induction false} GrowMore(cc: Congestion, m: nat, n: nat)
    requires m > 0
    ensures GrowTimes(cc, m, 0) == cc && GrowTimes(cc, m, n + 1) == GrowTimes(GrowWindow(cc, m), m, n)
  {
    hide GrowWindow;
  }

  lemma {:induction false} GrowsFrom(cc: Congestion, cfg: Config, left: nat) returns (n: nat)
    requires Modest(cfg) && Balanced(cc, cfg)
    requires cc.cwnd < cc.rmtWnd ==> Product(cc.rmtWnd, cfg.Mss()) <= cc.incr + left
    ensures ValidConfig(cfg) && GrowTimes(cc, cfg.Mss(), n).cwnd >= GrowTimes(cc, cfg.Mss(), n).rmtWnd == cc.rmtWnd
    decreases left
  {
    hide *;
    BalancedRoom(cc, cfg);
    n := 0;
    GrowMore(cc, cfg.Mss(), 0);
    if cc.cwnd < cc.rmtWnd {
      var c := GrowWindow(cc, cfg.Mss());
      GrowStep(cc, cfg);
      GrowBalanced(cc, cfg);
      n := GrowsFrom(c, cfg, left - 1);
      GrowMore(cc, cfg.Mss(), n);
      n := n + 1;
    }
  }

  /** Undisturbed by loss, the window grows to the peer's. */
  lemma {:induction false} GrowsToPeer(cc: Congestion, cfg: Config) returns (n: nat)
    requires Modest(cfg) && Balanced(cc, cfg)
    ensures ValidConfig(cfg) && GrowTimes(cc, cfg.Mss(), n).cwnd >= GrowTimes(cc, cfg.Mss(), n).rmtWnd == cc.rmtWnd
  {
    BalancedRoom(cc, cfg);
    n := GrowsFrom(cc, cfg, Product(cc.rmtWnd, cfg.Mss()));
  }

  // ---------------------------------------------------------------- loss

  /** A window set afresh, with incr its exact size in octets. */
  lemma {:induction false} SetBalanced(cfg: Config, cc: Congestion, th: nat, w: nat)
    requires Modest(cfg) && Balanced(cc, cfg) && th >= THRESH_MIN && w <= BOUND
    ensures Balanced(cc.(ssthresh := th, cwnd := w, incr := Product(w, cfg.Mss())), cfg)
    ensures U32(Product(w, cfg.Mss())) == Product(w, cfg.Mss()) && U32(w) == w
  {
    Room(w, cfg);
    Small32(w);
    Small32(Product(w, cfg.Mss()));
    hide Product, U32;
  }

  /** With fast retransmission off the threshold added is 2^32 - 1, which takes one away. */
  lemma {:induction false} Restart(th: nat, cfg: Config)
    requires 0 < th && Modest(cfg) && th <= BOUND && th + cfg.fastResend <= BOUND
    ensures U32(th + ResendThreshold(cfg)) == if cfg.fastResend > 0 then th + cfg.fastResend else th - 1
  {
    Room(th + cfg.fastResend, cfg);
    Room(th, cfg);
    ProductMonotone(th + cfg.fastResend, BOUND, cfg.Mss());
    ProductAtLeast(th + cfg.fastResend, cfg.Mss());
  }

  lemma {:induction false} ProductAtLeast(a: nat, m: nat)
    requires m > 0
    ensures a <= Product(a, m)
  {
    ProductComm(a, m);
    ProductMonotone(1, m, a);
    ProductComm(a, 1);
    assert Product(1, a) == a;
  }

  lemma {:induction false} AdjustBalanced(cfg: Config, cc: Congestion, inflight: nat, fasts: nat, timeouts: nat)
    requires Modest(cfg) && Balanced(cc, cfg) && inflight <= 0xffff
    ensures Balanced(Adjusted(cfg, cc, inflight, fasts, timeouts), cfg)
    ensures Adjusted(cfg, cc, inflight, fasts, timeouts).cwnd >= 1
  {
    var th := Max(inflight / 2, THRESH_MIN);
    var w := if cfg.fastResend > 0 then th + cfg.fastResend else th - 1;
    assert Product(1, cfg.Mss()) == cfg.Mss();
    assert w <= BOUND && 1 <= BOUND;
    assert U32(th + ResendThreshold(cfg)) == w by {
      Restart(th, cfg);
    }
    SetBalanced(cfg, cc, th, w);
    hide Balanced, Product, U32, ResendThreshold, Modest;
    var c1 := if fasts > 0 then cc.(ssthresh := th, cwnd := w, incr := Product(w, cfg.Mss())) else cc;
    SetBalanced(cfg, c1, Max(cc.cwnd / 2, THRESH_MIN), 1);
    var c2 := if timeouts > 0 then c1.(ssthresh := Max(cc.cwnd / 2, THRESH_MIN), cwnd := 1, incr := cfg.Mss()) else c1;
    FloorBalanced(cfg, c2);
  }

  lemma {:induction false} FloorBalanced(cfg: Config, cc: Congestion)
    requires Modest(cfg) && Balanced(cc, cfg)
    ensures Balanced(cc.(cwnd := 1, incr := cfg.Mss()), cfg)
  {
    assert Product(1, cfg.Mss()) == cfg.Mss();
    SetBalanced(cfg, cc, cc.ssthresh, 1);
    hide Product;
  }

  // ---------------------------------------------------------------- whole runs

  /** No more outstanding than a 16-bit window lets through, whatever the configured window. */
  predicate FewOutstanding(snd: Sender)
  {
    snd.una <= snd.nxt <= snd.una + 0xffff
  }

  ghost predicate BothBalanced(w: World)
  {
    && Modest(w.a.cfg) && Modest(w.b.cfg)
    && Balanced(w.a.cc, w.a.cfg) && Balanced(w.b.cc, w.b.cfg)
  }

  lemma {:induction false} InputBalanced(st: InputState, ps: seq<Packet>)
    requires ValidConfig(st.k.cfg) && Balanced(st.k.cc, st.k.cfg) && forall p :: p in ps ==> p.wnd < 0x1_0000
    ensures Balanced(InputPackets(false, st, ps).k.cc, st.k.cfg)
    decreases |ps|
  {
    if ps != [] {
      InputBalanced(st, ps[..|ps| - 1]);
      InputKeepsConfig(false, st, ps[..|ps| - 1]);
      hide TakePush, Shrink, ParseAck, DropAcked, UpdateRtt, InputPackets, Product;
      var before := InputPackets(false, st, ps[..|ps| - 1]);
      PacketWindow(before, ps[|ps| - 1]);
    }
  }

  lemma {:induction false} PacketWindow(st: InputState, p: Packet)
    ensures InputPacket(false, st, p).k.cc == st.k.cc.(rmtWnd := p.wnd)
  {
    hide TakePush, Shrink, ParseAck, DropAcked, UpdateRtt;
  }

  lemma {:induction false} FlushBalanced(k: Kcb)
    requires Modest(k.cfg) && Balanced(k.cc, k.cfg) && FewOutstanding(k.snd)
    requires k.tm.updated
    ensures Balanced(Flush(false, k).k.cc, k.cfg) && Flush(false, k).k.cc.cwnd >= 1
    ensures FewOutstanding(Flush(false, k).k.snd)
  {
    var launched := Launch(false, Quiet(k), SendWindow(k));
    LaunchWindow(Quiet(k), SendWindow(k), 0xffff);
    var s := SweepUpto(launched, |launched.snd.buf|);
    var inflight := U32(launched.snd.nxt - launched.snd.una);
    Small32(launched.snd.nxt - launched.snd.una);
    assert Flush(false, k).k.cc == Adjusted(k.cfg, k.cc, inflight, s.fasts, s.timeouts) by {
      hide Launch, SweepUpto, ProbeTimer, AckPackets, ProbePackets, Adjusted, U32;
    }
    AdjustBalanced(k.cfg, k.cc, inflight, s.fasts, s.timeouts);
    assert Flush(false, k).k.snd.una == launched.snd.una && Flush(false, k).k.snd.nxt == launched.snd.nxt by {
      hide Launch, SweepUpto, ProbeTimer, AckPackets, ProbePackets, Adjusted, U32;
    }
    hide Flush, Adjusted, U32, Launch;
  }

  lemma {:induction false} LaunchWindow(k: Kcb, cwnd: nat, limit: nat)
    requires k.snd.una <= k.snd.nxt <= k.snd.una + limit && cwnd <= limit
    ensures var s := Launch(false, k, cwnd).snd;
            s.una == k.snd.una && k.snd.nxt <= s.nxt <= k.snd.una + limit
    decreases |k.snd.queue|
  {
    if k.snd.queue != [] && k.snd.nxt < k.snd.una + cwnd {
      var seg := Launched(k, k.snd.queue[0]);
      LaunchWindow(k.(snd := k.snd.(nxt := k.snd.nxt + 1, queue := k.snd.queue[1..], buf := k.snd.buf + [seg])),
          cwnd, limit);
    }
  }

  lemma {:induction false} FinishBalanced(prevUna: nat, st: InputState)
    requires Modest(st.k.cfg) && Balanced(st.k.cc, st.k.cfg)
    ensures Balanced(FinishInput(false, prevUna, st).cc, st.k.cfg)
  {
    GrowBalanced(st.k.cc, st.k.cfg);
    hide GrowWindow, Product, ParseFastAck;
  }

  /** Input only moves snd_una forward. */
  lemma {:induction false} InputOutstanding(w: World, ps: seq<Packet>)
    requires Inv(w) && ValidConfig(w.a.cfg) && FewOutstanding(w.a.snd) && forall p :: p in ps ==> Sent(w.ba, p)
    ensures FewOutstanding(Input(false, w.a, ps).snd)
  {
    var st := InputPackets(false, InputState(w.a, NoAck), ps);
    assert InvWith(w, w.a) by {
      assert w.(a := w.a) == w;
    }
    hide Inv, InvWith, Sent, InputPackets;
    UnaMoves(w, w.a, ps);
    PacketsInv(w, w.a, ps);
    InvWindows(w, st.k);
    InputKeepsConfig(false, InputState(w.a, NoAck), ps);
    FastAckUna(st.k.snd, st.scan);
    hide ParseFastAck, GrowWindow;
  }

  lemma {:induction false} StepABalanced(w: World, e: Event)
    requires Inv(w) && BothBalanced(w) && FewOutstanding(w.a.snd)
    ensures Balanced(StepA(false, w, e).a.cc, w.a.cfg) && FewOutstanding(StepA(false, w, e).a.snd)
    ensures (e.FlushNow? && w.a.tm.updated) || (e.Tick? && UpdateFlushes(w.a, U32(e.now))) ==>
            StepA(false, w, e).a.cc.cwnd >= 1
  {
    HalfSafe(w.a, w.b, w.ab, w.ba, w.sentA, w.gotB);
    assert Configured(w);
    match e
    case SendMessage(msg) =>
      hide Product, Inv;
    case Tick(now) =>
      var k1 := UpdateClock(w.a, U32(now));
      assert k1.cfg == w.a.cfg && k1.cc == w.a.cc && k1.snd == w.a.snd && k1.tm.updated;
      hide Update, UpdateClock, Flush, Datagrams, Inv, Balanced, Modest;
      UpdateIsFlush(false, w.a, U32(now));
      FlushBalanced(k1);
    case FlushNow =>
      hide Datagrams, Inv, Balanced, Modest;
      if w.a.tm.updated {
        FlushBalanced(w.a);
      }
    case Deliver(i) =>
      if i < |w.ba| {
        forall p | p in w.ba[i]
          ensures p.wnd < 0x1_0000
        {
          assert Sent(w.ba, p);
          assert HeaderOk(p, w.b.cfg.conv);
        }
        hide Inv, Balanced, Modest, FinishInput, InputPackets, Sent, FewOutstanding;
        assert forall p :: p in w.ba[i] ==> Sent(w.ba, p);
        InputOutstanding(w, w.ba[i]);
        ModestValid(w.a.cfg);
        InputBalanced(InputState(w.a, NoAck), w.ba[i]);
        InputKeepsConfig(false, InputState(w.a, NoAck), w.ba[i]);
        FinishBalanced(w.a.snd.una, InputPackets(false, InputState(w.a, NoAck), w.ba[i]));
      }
    case Receive(len) =>
      hide Drain, Join, MessageEnd, PeekSize, Inv, Balanced;
  }

  lemma {:induction false} ModestValid(cfg: Config)
    requires Modest(cfg)
    ensures ValidConfig(cfg)
  {
  }

  /** Throughout every run both windows stay balanced. */
  lemma {:induction false} EveryRunBalanced(ca: Config, cb: Config, acts: seq<Action>)
    requires Configured(Start(ca, cb)) && Modest(ca) && Modest(cb)
    ensures BothBalanced(Run(false, Start(ca, cb), acts))
    ensures FewOutstanding(Run(false, Start(ca, cb), acts).a.snd)
            && FewOutstanding(Run(false, Start(ca, cb), acts).b.snd)
    decreases |acts|
  {
    var w := Start(ca, cb);
    if acts == [] {
      assert Product(0, ca.Mss()) == 0 && Product(0, cb.Mss()) == 0;
      hide Product;
    } else {
      var init, act := acts[..|acts| - 1], acts[|acts| - 1];
      var v := Run(false, w, init);
      hide Inv, Balanced, Modest, StepA, Start;
      EveryRunBalanced(ca, cb, init);
      StartInv(ca, cb);
      RunInv(w, init);
      InvMirror(v);
      InvConfigured(v);
      StepABalanced(if act.atA then v else Mirror(v), act.event);
      StepAConfigured(false, if act.atA then v else Mirror(v), act.event);
    }
  }

  /** The same holds of 32-bit endpoints. */
  lemma {:induction false} EveryFreshRunBalanced(ca: Config, cb: Config, acts: seq<Action>)
    requires Configured(Start(ca, cb)) && Modest(ca) && Modest(cb) && FreshRun(Start(ca, cb), acts)
    ensures BothBalanced(Run(true, Start(ca, cb), acts))
  {
    EveryRunBalanced(ca, cb, acts);
    hide WrappedSafe, Balanced, Modest, FreshRun, Run;
    EveryFreshRunSafe(ca, cb, acts);
  }

  lemma {:induction false} InvConfigured(w: World)
    requires Inv(w)
    ensures Configured(w) && Configured(Mirror(w))
  {
  }
}
