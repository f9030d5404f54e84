/**
 What ikcp_input, ikcp_recv and the clock of ikcp_update make of the control block, stated by the
 packets that arrive and the segments that are there.
 */
module KcpInputs {
  import opened Bytes
  import opened KcpSpec
  import opened KcpLists
  import opened KcpMessages
  import opened KcpFlow
  import opened KcpWorld
  import opened KcpWrap
  import opened KcpRefine
  import opened KcpTimers
  import opened KcpCongestion

  // ---------------------------------------------------------------- data packets

  /** The packet lies inside the receive window. */
  predicate Expected(r: Receiver, wnd: nat, p: Packet)
  {
    r.nxt <= p.sn < r.nxt + wnd
  }

  /**
   A data packet below the end of the window, and not more than half the range below it, is
   acknowledged with its own number and stamp.  Inside the window it is stored unless its number is
   stored already, and then every segment that is next in line moves to rcv_queue while there is
   room.  Otherwise nothing is stored or moved.
   */
  ghost predicate Pushed(r: Receiver, wnd: nat, p: Packet, r': Receiver)
  {
    && r'.acks == (if p.sn < r.nxt + wnd <= p.sn + 0x8000_0000 then r.acks + [Ack(p.sn, p.ts)] else r.acks)
    && (!Expected(r, wnd, p) ==> r' == r.(acks := r'.acks))
    && (Expected(r, wnd, p) ==>
          && |r.queue| <= |r'.queue| && r'.queue[..|r.queue|] == r.queue
          && Kept(r.buf, p, r'.queue[|r.queue|..], r'.buf)
          && r'.nxt == r.nxt + (|r'.queue| - |r.queue|)
          && (forall i :: |r.queue| <= i < |r'.queue| ==> r'.queue[i].sn == r.nxt + (i - |r.queue|))
          && (r'.buf == [] || r'.buf[0].sn != r'.nxt || |r'.queue| >= wnd)
          && Ordered(r'.buf, r.nxt, r.nxt + wnd))
  }

  /** What was moved and what stays is what was stored and the packet, unless its number was stored. */
  ghost predicate Kept(buf: seq<Segment>, p: Packet, moved: seq<Segment>, left: seq<Segment>)
  {
    forall s :: s in moved || s in left <==>
                  s in buf || (!Has(buf, p.sn) && s == Segment(p.frg, p.wnd, p.ts, p.sn, p.una, 0, 0, 0, 0, p.data))
  }

  lemma {:induction false} PushExactly(r: Receiver, wnd: nat, p: Packet)
    requires Ordered(r.buf, r.nxt, r.nxt + wnd) && wnd < TWO_31
    ensures Pushed(r, wnd, p, TakePush(false, r, wnd, p))
  {
    EdgeMeans(p.sn, r.nxt + wnd);
    hide BelowEdge, Insert, Drain;
    if Expected(r, wnd, p) {
      var acked := r.(acks := r.acks + [Ack(p.sn, p.ts)]);
      StoreExactly(acked, wnd, p);
    }
    hide Kept, Ordered;
  }

  /** ikcp_parse_data ignores what lies outside the window, also when it is called by itself. */
  lemma {:induction false} OutsideIgnored(r: Receiver, wnd: nat, seg: Segment)
    requires seg.sn < r.nxt || seg.sn >= r.nxt + wnd
    ensures ParseData(false, r, wnd, seg) == r
  {
    hide Insert, Drain;
  }

  lemma {:induction false} StoreExactly(r: Receiver, wnd: nat, p: Packet)
    requires Ordered(r.buf, r.nxt, r.nxt + wnd) && Expected(r, wnd, p)
    ensures var r' := ParseData(false, r, wnd, Arrived(p));
            && r'.acks == r.acks && |r.queue| <= |r'.queue| && r'.queue[..|r.queue|] == r.queue
            && Kept(r.buf, p, r'.queue[|r.queue|..], r'.buf)
            && r'.nxt == r.nxt + (|r'.queue| - |r.queue|)
            && (forall i :: |r.queue| <= i < |r'.queue| ==> r'.queue[i].sn == r.nxt + (i - |r.queue|))
            && (r'.buf == [] || r'.buf[0].sn != r'.nxt || |r'.queue| >= wnd)
            && Ordered(r'.buf, r.nxt, r.nxt + wnd)
  {
    hide Insert, Drain, Has, Ordered;
    InsertSpec(r.buf, Arrived(p), r.nxt, r.nxt + wnd);
    var buf := Insert(false, r.buf, Arrived(p));
    var n := DrainSpec(r.(buf := buf), wnd);
    KeptSplit(r.buf, p, buf, n);
    OrderedRest(buf, n, r.nxt, r.nxt + wnd);
    hide Kept;
    assert (r.queue + buf[..n])[|r.queue|..] == buf[..n] && (r.queue + buf[..n])[..|r.queue|] == r.queue;
  }

  lemma {:induction false} KeptSplit(stored: seq<Segment>, p: Packet, buf: seq<Segment>, n: nat)
    requires n <= |buf| && forall s :: s in buf <==> s in stored || (s == Arrived(p) && !Has(stored, p.sn))
    ensures Kept(stored, p, buf[..n], buf[n..])
  {
    hide Has;
    assert buf == buf[..n] + buf[n..];
  }

  lemma {:induction false} OrderedRest(buf: seq<Segment>, n: nat, lo: nat, hi: nat)
    requires n <= |buf| && Ordered(buf, lo, hi)
    ensures Ordered(buf[n..], lo, hi)
  {
  }

  // ---------------------------------------------------------------- what a datagram changes besides

  /** Other packets leave the receiver alone; only a window probe asks for an answer. */
  lemma {:induction false} PacketFrame(wrap: bool, st: InputState, p: Packet)
    ensures var k, k' := st.k, InputPacket(wrap, st, p).k;
            && k'.cfg == k.cfg && k'.cc == k.cc.(rmtWnd := p.wnd)
            && (p.cmd != CMD_PUSH as int ==> k'.rcv == k.rcv)
            && (p.cmd != CMD_ACK as int ==> k'.tm == k.tm.(askTell := k.tm.askTell || p.cmd == CMD_WASK as int))
            && (p.cmd == CMD_ACK as int ==>
                  var rtt := TimeDiff(k.tm.current, p.ts);
                  if rtt < 0 then k'.tm == k.tm else k'.tm == UpdateRtt(k.cfg, k.tm, rtt))
  {
    hide TakePush, Shrink, ParseAck, DropAcked, UpdateRtt, TimeDiff;
  }

  ghost predicate Asks(ps: seq<Packet>)
  {
    exists i :: 0 <= i < |ps| && ps[i].cmd == CMD_WASK as int
  }

  lemma {:induction false} AsksMore(ps: seq<Packet>)
    requires ps != []
    ensures Asks(ps) <==> Asks(ps[..|ps| - 1]) || ps[|ps| - 1].cmd == CMD_WASK as int
  {
    if Asks(ps) {
      var i :| 0 <= i < |ps| && ps[i].cmd == CMD_WASK as int;
      if i < |ps| - 1 {
        assert ps[..|ps| - 1][i] == ps[i];
      }
    }
    if Asks(ps[..|ps| - 1]) {
      var i :| 0 <= i < |ps| - 1 && ps[..|ps| - 1][i].cmd == CMD_WASK as int;
      assert ps[i].cmd == CMD_WASK as int;
    }
  }

  lemma {:induction false} RttFrame(cfg: Config, tm: Timing, rtt: nat)
    ensures var t := UpdateRtt(cfg, tm, rtt); t == tm.(srtt := t.srtt, rttVal := t.rttVal, rto := t.rto)
  {
  }

  lemma {:induction false} PacketsFrame(wrap: bool, st: InputState, ps: seq<Packet>)
    ensures var k, k' := st.k, InputPackets(wrap, st, ps).k;
            && k'.cfg == k.cfg && k'.cc == k.cc.(rmtWnd := if ps == [] then k.cc.rmtWnd else ps[|ps| - 1].wnd)
            && k'.tm == k.tm.(srtt := k'.tm.srtt, rttVal := k'.tm.rttVal, rto := k'.tm.rto,
                              askTell := k.tm.askTell || Asks(ps))
    decreases |ps|
  {
    if ps != [] {
      hide InputPackets, InputPacket, UpdateRtt, TimeDiff, Asks;
      var init, last := ps[..|ps| - 1], ps[|ps| - 1];
      InputSnoc(wrap, st, ps);
      PacketsFrame(wrap, st, init);
      var mid := InputPackets(wrap, st, init);
      PacketFrame(wrap, mid, last);
      AsksMore(ps);
      if last.cmd == CMD_ACK as int && TimeDiff(mid.k.tm.current, last.ts) >= 0 {
        RttFrame(mid.k.cfg, mid.k.tm, TimeDiff(mid.k.tm.current, last.ts));
      }
    }
  }

  lemma {:induction false} FinishFrame(wrap: bool, prevUna: nat, st: InputState)
    requires ValidConfig(st.k.cfg)
    ensures var k' := FinishInput(wrap, prevUna, st);
            && k'.cfg == st.k.cfg && k'.rcv == st.k.rcv && k'.tm == st.k.tm && k'.snd.una == st.k.snd.una
            && k'.cc == if Diff(wrap, k'.snd.una, prevUna) > 0 then GrowWindow(st.k.cc, st.k.cfg.Mss()) else st.k.cc
  {
    hide GrowWindow, FastAckBuf, Diff;
  }

  /**
   A datagram leaves the peer's window at what its last packet said, asks for an answer exactly when
   it holds a window probe, and changes no timer.
   */
  lemma {:induction false} InputFrame(wrap: bool, k: Kcb, ps: seq<Packet>)
    requires ValidConfig(k.cfg) && ps != []
    ensures var k' := Input(wrap, k, ps);
            && k'.cfg == k.cfg && k'.cc.rmtWnd == ps[|ps| - 1].wnd
            && k'.tm == k.tm.(srtt := k'.tm.srtt, rttVal := k'.tm.rttVal, rto := k'.tm.rto,
                              askTell := k.tm.askTell || Asks(ps))
  {
    var st := InputPackets(wrap, InputState(k, NoAck), ps);
    PacketsFrame(wrap, InputState(k, NoAck), ps);
    FinishFrame(wrap, k.snd.una, st);
    GrowFrame(st.k.cc, st.k.cfg.Mss());
    hide InputPackets, FinishInput, GrowWindow, Asks;
  }

  lemma {:induction false} GrowFrame(cc: Congestion, m: nat)
    requires m > 0
    ensures GrowWindow(cc, m).rmtWnd == cc.rmtWnd && GrowWindow(cc, m).ssthresh == cc.ssthresh
  {
    hide Product, Quotient, Avoid, U32;
  }

  /** The congestion window grows, by the rule of Grown, exactly when the datagram moved snd_una on. */
  lemma {:induction false} DeliveryGrows(w: World, i: nat)
    requires Inv(w) && BothBalanced(w) && i < |w.ba|
    ensures ValidConfig(w.a.cfg) && w.ba[i] != []
    ensures var k' := Input(false, w.a, w.ba[i]);
            var cc := w.a.cc.(rmtWnd := w.ba[i][|w.ba[i]| - 1].wnd);
            && w.a.snd.una <= k'.snd.una
            && (w.a.snd.una < k'.snd.una ==> Grown(cc, k'.cc, w.a.cfg.Mss()))
            && (w.a.snd.una == k'.snd.una ==> k'.cc == cc)
  {
    hide *;
    InvDatagram(w, i);
    var ps := w.ba[i];
    var st := InputPackets(false, InputState(w.a, NoAck), ps);
    PacketsFrame(false, InputState(w.a, NoAck), ps);
    FinishFrame(false, w.a.snd.una, st);
    UnaMoves(w, w.a, ps);
    var cc := w.a.cc.(rmtWnd := ps[|ps| - 1].wnd);
    SizedMss(w.a.cfg);
    BalancedBelow(w, ps[|ps| - 1].wnd);
    GrowExactly(cc, w.a.cfg);
    InputParts(w.a, ps);
  }

  lemma {:induction false} InputParts(k: Kcb, ps: seq<Packet>)
    requires ValidConfig(k.cfg)
    ensures ValidConfig(InputPackets(false, InputState(k, NoAck), ps).k.cfg)
    ensures Input(false, k, ps) == FinishInput(false, k.snd.una, InputPackets(false, InputState(k, NoAck), ps))
    ensures forall x: nat, y: nat :: Diff(false, x, y) == x - y
  {
    InputKeepsConfig(false, InputState(k, NoAck), ps);
    hide InputPackets, FinishInput;
  }

  lemma {:induction false} SizedMss(cfg: Config)
    requires ValidConfig(cfg)
    ensures cfg.mtu >= OVERHEAD && cfg.Mss() > 0
  {
  }

  lemma {:induction false} BalancedBelow(w: World, wnd: nat)
    requires BothBalanced(w) && wnd < 0x1_0000
    ensures Modest(w.a.cfg) && w.a.cfg.mtu >= OVERHEAD && Balanced(w.a.cc.(rmtWnd := wnd), w.a.cfg)
  {
    hide Product;
  }

  lemma {:induction false} InvDatagram(w: World, i: nat)
    requires Inv(w) && i < |w.ba|
    ensures ValidConfig(w.a.cfg) && InvWith(w, w.a) && (forall p :: p in w.ba[i] ==> Sent(w.ba, p))
    ensures w.ba[i] != [] && w.ba[i][|w.ba[i]| - 1].wnd < 0x1_0000
  {
    assert w.(a := w.a) == w;
    assert forall p :: p in w.ba[i] ==> Sent(w.ba, p);
    assert TotalSize(w.ba[i]) > 0;
    assert w.ba[i] != [];
    assert HeaderOk(w.ba[i][|w.ba[i]| - 1], w.b.cfg.conv);
    hide Flow, Sent;
  }

  // ---------------------------------------------------------------- the acknowledgement that counts

  predicate IsAck(p: Packet)
  {
    p.cmd == CMD_ACK as int
  }

  /** Numbers below half the range, and stamps less than half the range after base. */
  ghost predicate Recent(ps: seq<Packet>, base: nat)
  {
    forall p :: p in ps && IsAck(p) ==> p.sn < 0x8000_0000 && base <= p.ts < base + 0x8000_0000
  }

  /**
   Of several acknowledgements the one that counts for fast retransmission is among them, and no
   other has both a larger number and a later stamp.
   */
  ghost predicate Foremost(scan: Scan, ps: seq<Packet>)
  {
    && (scan.NoAck? <==> forall p :: p in ps ==> !IsAck(p))
    && (scan.Latest? ==>
          && (exists p :: p in ps && IsAck(p) && scan == Latest(p.sn, p.ts))
          && forall p :: p in ps && IsAck(p) ==> p.sn <= scan.sn || p.ts <= scan.ts)
  }

  lemma {:induction false} LaterExactly(a: nat, b: nat, base: nat)
    requires base <= a < base + 0x8000_0000 && base <= b < base + 0x8000_0000
    ensures TimeDiff(a, b) > 0 <==> a > b
  {
    if a < b {
      ModShift(a - b, 1);
      assert U32(a - b) == a - b + TWO_32;
    } else {
      assert U32(a - b) == a - b;
    }
  }

  lemma {:induction false} ScanOf(wrap: bool, st: InputState, p: Packet)
    ensures InputPacket(wrap, st, p).scan == if IsAck(p) then ScanAck(wrap, st.scan, p) else st.scan
  {
    hide TakeHeader, TakeAck, TakePush, ScanAck;
  }

  lemma {:induction false} ForemostMore(scan: Scan, init: seq<Packet>, last: Packet, base: nat)
    requires Foremost(scan, init) && Recent(init + [last], base)
    ensures Foremost(if IsAck(last) then ScanAck(false, scan, last) else scan, init + [last])
  {
    assert forall p :: p in init + [last] <==> p in init || p == last;
    hide TimeDiff;
    if scan.Latest? && IsAck(last) {
      var q :| q in init && IsAck(q) && scan == Latest(q.sn, q.ts);
      assert q in init + [last] && last in init + [last];
      LaterExactly(last.ts, scan.ts, base);
    }
  }

  lemma {:induction false} LatestIsForemost(k: Kcb, ps: seq<Packet>, base: nat)
    requires Recent(ps, base)
    ensures Foremost(InputPackets(false, InputState(k, NoAck), ps).scan, ps)
    decreases |ps|
  {
    if ps != [] {
      var init, last := ps[..|ps| - 1], ps[|ps| - 1];
      assert init + [last] == ps;
      assert Recent(init, base);
      hide InputPacket, InputPackets, Foremost, ScanAck, Recent;
      InputSnoc(false, InputState(k, NoAck), ps);
      LatestIsForemost(k, init, base);
      ForemostMore(InputPackets(false, InputState(k, NoAck), init).scan, init, last, base);
      ScanOf(false, InputPackets(false, InputState(k, NoAck), init), last);
    }
  }

  // ---------------------------------------------------------------- the reader

  /**
   ikcp_recv: nothing queued, an incomplete message and one longer than the caller's buffer have
   their codes and change nothing.  Otherwise the octets of the first message come out; peeking
   leaves the queue in place; and the peer is told of the window exactly when a full queue stops
   being full.
   */
  ghost predicate Received(k: Kcb, len: int, k': Kcb, ret: int, msg: seq<byte>)
  {
    var q, size := k.rcv.queue, if len < 0 then -len else len;
    && (ret == -1 <==> q == [])
    && (ret == -2 <==> q != [] && 0 < q[0].frg && |q| <= q[0].frg)
    && (ret == -3 <==> q != [] && !(0 < q[0].frg && |q| <= q[0].frg) && |Join(q[..MessageEnd(q)])| > size)
    && (ret < 0 ==> k' == k && msg == [] && ret in {-1, -2, -3})
    && (ret >= 0 ==>
          && msg == Join(q[..MessageEnd(q)]) && ret == |msg| <= size
          && (if len < 0 then q else q[MessageEnd(q)..]) <= k'.rcv.queue
          && k'.rcv.acks == k.rcv.acks
          && k' == k.(rcv := k'.rcv, tm := k.tm.(askTell := k'.tm.askTell))
          && (k'.tm.askTell <==>
              k.tm.askTell || (|q| >= k.cfg.rcvWnd && |k'.rcv.queue| < k.cfg.rcvWnd)))
  }

  lemma {:induction false} DrainExtends(wrap: bool, r: Receiver, wnd: nat)
    ensures r.queue <= Drain(wrap, r, wnd).queue && Drain(wrap, r, wnd).acks == r.acks
    decreases |r.buf|
  {
    hide Norm;
    if r.buf != [] && r.buf[0].sn == r.nxt && |r.queue| < wnd {
      DrainExtends(wrap, Receiver(Norm(wrap, r.nxt + 1), r.queue + [r.buf[0]], r.buf[1..], r.acks), wnd);
    }
  }

  lemma {:induction false} PeekMeans(q: seq<Segment>)
    requires q != []
    ensures PeekSize(q) >= 0 <==> !(0 < q[0].frg && |q| <= q[0].frg)
    ensures PeekSize(q) >= 0 ==> PeekSize(q) == |Join(q[..MessageEnd(q)])|
    ensures PeekSize(q) < 0 ==> PeekSize(q) == -1
  {
    PeekCases(q);
    hide Join, MessageEnd;
  }

  lemma {:induction false} ReceiveExactly(wrap: bool, k: Kcb, len: int)
    ensures var (k', ret, msg) := Recv(wrap, k, len); Received(k, len, k', ret, msg)
  {
    var q := k.rcv.queue;
    if q != [] {
      PeekMeans(q);
      DrainExtends(wrap, k.rcv.(queue := if len < 0 then q else q[MessageEnd(q)..]), k.cfg.rcvWnd);
    }
    hide Drain, Join, MessageEnd, PeekSize;
  }

  // ---------------------------------------------------------------- the flush clock

  /**
   ikcp_update: the first call flushes, later ones when the clock has reached the flush time or has
   jumped ten seconds or more to either side.  After a flush the next flush time lies ahead, at most
   one interval, and stays on its grid unless the clock is past it; without one only the clock is set.
   */
  ghost predicate Clocked(tm: Timing, interval: nat, now: nat, t: Clock)
  {
    var ahead := TimeDiff(t.tm.tsFlush, now);
    var slap := TimeDiff(now, tm.tsFlush);
    && (t.due <==> !tm.updated || slap >= 0 || slap < -10000)
    && (t.due ==> 0 < ahead <= interval)
    && (t.due && tm.updated && 0 <= slap < interval && slap < 10000 ==> ahead == interval - slap)
    && (!t.due ==> t.tm.tsFlush == tm.tsFlush)
    && t.tm == tm.(current := now, updated := true, tsFlush := t.tm.tsFlush)
  }

  lemma {:induction false} DiffSelf(x: nat)
    ensures TimeDiff(x, x) == 0
  {
  }

  /** The difference of two stamps is their distance up to whole turns of the clock. */
  lemma {:induction false} Turns(a: int, b: int) returns (k: int)
    ensures a - b == TimeDiff(a, b) + k * TWO_32
  {
    var q := (a - b) / TWO_32;
    assert a - b == U32(a - b) + q * TWO_32;
    k := if U32(a - b) < TWO_31 then q else q + 1;
  }

  lemma {:induction false} ShortDiff(a: int, b: int, e: int, k: int)
    requires a - b == e + k * TWO_32 && -0x8000_0000 <= e < 0x8000_0000
    ensures TimeDiff(a, b) == e
  {
    ModShift(e, k);
    assert U32(a - b) == U32(e);
    if e < 0 {
      ModShift(e, 1);
      assert U32(e) == e + TWO_32;
    } else {
      assert U32(e) == e;
    }
  }

  /** The next flush seen from now, and now seen from it. */
  lemma {:induction false} NextFlush(now: nat, start: nat, interval: nat)
    requires interval < 0x4000_0000 && -0x4000_0000 < TimeDiff(now, start) < 0x4000_0000
    ensures TimeDiff(U32(start + interval), now) == interval - TimeDiff(now, start)
    ensures TimeDiff(now, U32(start + interval)) == TimeDiff(now, start) - interval
  {
    var d := TimeDiff(now, start);
    var k := Turns(now, start);
    var q := (start + interval) / TWO_32;
    assert start + interval == U32(start + interval) + q * TWO_32;
    hide U32, TimeDiff;
    ShortDiff(U32(start + interval), now, interval - d, -k - q);
    ShortDiff(now, U32(start + interval), d - interval, k + q);
  }

  lemma {:induction false} TickExactly(tm: Timing, interval: nat, now: nat)
    requires 0 < interval <= 5000
    ensures Clocked(tm, interval, now, Ticked(tm, interval, now))
  {
    DiffSelf(now);
    NextFlush(now, now, interval);
    if tm.updated && -10000 <= TimeDiff(now, tm.tsFlush) < 10000 {
      NextFlush(now, tm.tsFlush, interval);
    }
    hide TimeDiff, U32;
  }
}
