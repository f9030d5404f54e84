/**
 The 32-bit protocol refines the unbounded one: as long as the numbers compared lie within half
 the 32-bit range of each other, every operation on reduced numbers is the reduction of the same
 operation on unbounded numbers.
 */
module KcpWrap {
  import opened Bytes
  import opened KcpSpec
  import opened KcpLists

  // ---------------------------------------------------------------- arithmetic modulo 2^32

  lemma {:induction false} ModShift(x: int, k: int)
    ensures (x + k * TWO_32) % TWO_32 == x % TWO_32
  {
  }

  lemma {:induction false} U32Add(x: int, y: int)
    ensures U32(U32(x) + y) == U32(x + y)
  {
    var q := x / TWO_32;
    assert x == q * TWO_32 + U32(x);
    ModShift(U32(x) + y, q);
  }

  lemma {:induction false} U32Sub(x: int, y: int)
    ensures U32(U32(x) - U32(y)) == U32(x - y)
  {
    var p, q := x / TWO_32, y / TWO_32;
    assert x == p * TWO_32 + U32(x) && y == q * TWO_32 + U32(y);
    ModShift(U32(x) - U32(y), p - q);
  }

  /** _itimediff is subtraction exactly within half the range. */
  lemma {:induction false} DiffExact(a: nat, b: nat)
    ensures Diff(true, U32(a), U32(b)) == a - b <==> a < b + TWO_31 && b <= a + TWO_31
  {
    U32Sub(a, b);
    if a < b && b <= a + TWO_31 {
      ModShift(a - b, 1);
      assert U32(a - b) == a - b + TWO_32;
    } else if b <= a < b + TWO_31 {
      assert U32(a - b) == a - b;
    }
  }

  lemma {:induction false} DiffExactPlus(a: nat, b: nat, w: nat)
    requires a < b + w + TWO_31 && b + w <= a + TWO_31
    ensures Diff(true, U32(a), Norm(true, U32(b) + w)) == a - (b + w)
  {
    U32Add(b, w);
    DiffExact(a, b + w);
  }

  /** Reduction identifies only numbers a whole range apart. */
  lemma {:induction false} U32Injective(a: nat, b: nat)
    requires a < b + TWO_32 && b < a + TWO_32 && U32(a) == U32(b)
    ensures a == b
  {
    U32Sub(a, b);
    if a < b {
      ModShift(a - b, 1);
    }
  }

  // ---------------------------------------------------------------- reduction of states

  function WrapSeg(s: Segment): Segment
  {
    s.(sn := U32(s.sn), una := U32(s.una))
  }

  function WrapSegs(buf: seq<Segment>): (w: seq<Segment>)
    ensures |w| == |buf|
    ensures forall i :: 0 <= i < |buf| ==> w[i] == WrapSeg(buf[i])
  {
    seq(|buf|, i requires 0 <= i < |buf| => WrapSeg(buf[i]))
  }

  function WrapPacket(p: Packet): Packet
  {
    p.(sn := U32(p.sn), una := U32(p.una))
  }

  function WrapPackets(ps: seq<Packet>): (w: seq<Packet>)
    ensures |w| == |ps|
    ensures forall i :: 0 <= i < |ps| ==> w[i] == WrapPacket(ps[i])
  {
    seq(|ps|, i requires 0 <= i < |ps| => WrapPacket(ps[i]))
  }

  function WrapAck(a: Ack): Ack
  {
    a.(sn := U32(a.sn))
  }

  function WrapAcks(acks: seq<Ack>): (w: seq<Ack>)
    ensures |w| == |acks|
    ensures forall i :: 0 <= i < |acks| ==> w[i] == WrapAck(acks[i])
  {
    seq(|acks|, i requires 0 <= i < |acks| => WrapAck(acks[i]))
  }

  function WrapSnd(s: Sender): Sender
  {
    Sender(U32(s.una), U32(s.nxt), WrapSegs(s.queue), WrapSegs(s.buf))
  }

  function WrapRcv(r: Receiver): Receiver
  {
    Receiver(U32(r.nxt), WrapSegs(r.queue), WrapSegs(r.buf), WrapAcks(r.acks))
  }

  function WrapKcb(k: Kcb): Kcb
  {
    k.(snd := WrapSnd(k.snd), rcv := WrapRcv(k.rcv))
  }

  function WrapScan(s: Scan): Scan
  {
    if s.NoAck? then NoAck else Latest(U32(s.sn), s.ts)
  }

  /** x is within half the range of every number the sender has outstanding. */
  predicate InRange(x: nat, snd: Sender)
  {
    x < snd.una + TWO_31 && snd.nxt <= x + TWO_31 + 1
  }

  /** x is within half the range of base. */
  predicate Close(x: nat, base: nat)
  {
    x < base + TWO_31 && base <= x + TWO_31
  }

  /** x is told apart from the numbers of a window of wnd at nxt. */
  predicate Placed(x: nat, nxt: nat, wnd: nat)
  {
    x < nxt + wnd + TWO_31 && nxt <= x + TWO_31 + 1
  }

  ghost predicate Near(buf: seq<Segment>, x: nat)
  {
    forall i :: 0 <= i < |buf| ==> x < buf[i].sn + TWO_31 && buf[i].sn <= x + TWO_31
  }

  // ---------------------------------------------------------------- queue scans

  lemma {:induction false} WrapDropAcked(buf: seq<Segment>, una: nat)
    requires Near(buf, una)
    ensures DropAcked(true, WrapSegs(buf), U32(una)) == WrapSegs(DropAcked(false, buf, una))
    decreases |buf|
  {
    hide U32, TimeDiff;
    if buf != [] {
      DiffExact(una, buf[0].sn);
      assert WrapSegs(buf)[1..] == WrapSegs(buf[1..]);
      if una > buf[0].sn {
        WrapDropAcked(buf[1..], una);
      }
    }
  }

  lemma {:induction false} WrapRemoveSn(buf: seq<Segment>, sn: nat)
    requires Near(buf, sn)
    ensures RemoveSn(true, WrapSegs(buf), U32(sn)) == WrapSegs(RemoveSn(false, buf, sn))
    decreases |buf|
  {
    if buf == [] {
    } else {
      var rest := buf[1..];
      DiffExact(sn, buf[0].sn);
      if U32(sn) == U32(buf[0].sn) {
        U32Injective(sn, buf[0].sn);
      }
      assert WrapSegs(buf)[1..] == WrapSegs(rest);
      WrapRemoveSn(rest, sn);
      hide U32, TimeDiff;
      WrapCons(buf[0], RemoveSn(false, rest, sn));
    }
  }

  lemma {:induction false} WrapCons(s: Segment, rest: seq<Segment>)
    ensures WrapSegs([s] + rest) == [WrapSeg(s)] + WrapSegs(rest)
  {
    hide U32;
  }

  lemma {:induction false} WrapSnoc(rest: seq<Segment>, s: Segment)
    ensures WrapSegs(rest + [s]) == WrapSegs(rest) + [WrapSeg(s)]
  {
    hide U32;
  }

  lemma {:induction false} WrapFastAck(buf: seq<Segment>, sn: nat, ts: nat)
    requires Near(buf, sn)
    ensures FastAckBuf(true, WrapSegs(buf), U32(sn), ts) == WrapSegs(FastAckBuf(false, buf, sn, ts))
    decreases |buf|
  {
    if buf != [] {
      var rest := buf[1..];
      DiffExact(sn, buf[0].sn);
      if U32(sn) == U32(buf[0].sn) {
        U32Injective(sn, buf[0].sn);
      }
      assert WrapSegs(buf)[1..] == WrapSegs(rest);
      WrapFastAck(rest, sn, ts);
      hide U32, TimeDiff;
      WrapCons(BumpFastAck(buf[0], sn, ts), FastAckBuf(false, rest, sn, ts));
    }
  }

  lemma {:induction false} WrapInsert(buf: seq<Segment>, seg: Segment)
    requires Near(buf, seg.sn)
    ensures Insert(true, WrapSegs(buf), WrapSeg(seg)) == WrapSegs(Insert(false, buf, seg))
    decreases |buf|
  {
    if buf == [] {
    } else {
      var init, last := buf[..|buf| - 1], buf[|buf| - 1];
      DiffExact(seg.sn, last.sn);
      if U32(seg.sn) == U32(last.sn) {
        U32Injective(seg.sn, last.sn);
      }
      assert WrapSegs(buf)[..|buf| - 1] == WrapSegs(init);
      WrapInsert(init, seg);
      hide U32, TimeDiff;
      WrapSnoc(buf, seg);
      WrapSnoc(Insert(false, init, seg), last);
    }
  }

  /** Buffered numbers lie in the receive window. */
  lemma {:induction false} WrapDrain(r: Receiver, wnd: nat)
    requires Ordered(r.buf, r.nxt, r.nxt + wnd) && wnd < TWO_31
    ensures Drain(true, WrapRcv(r), wnd) == WrapRcv(Drain(false, r, wnd))
    decreases |r.buf|
  {
    if r.buf != [] {
      if U32(r.buf[0].sn) == U32(r.nxt) {
        U32Injective(r.buf[0].sn, r.nxt);
      }
      U32Add(r.nxt, 1);
      hide U32;
      assert WrapSegs(r.buf)[1..] == WrapSegs(r.buf[1..]);
      WrapSnoc(r.queue, r.buf[0]);
      if r.buf[0].sn == r.nxt && |r.queue| < wnd {
        var r1 := Receiver(r.nxt + 1, r.queue + [r.buf[0]], r.buf[1..], r.acks);
        OrderedTail(r.buf, r.nxt, r.nxt + wnd);
        WrapDrain(r1, wnd);
      }
    }
  }

  // ---------------------------------------------------------------- reading and sending

  lemma {:induction false} WrapMessageEnd(queue: seq<Segment>)
    ensures MessageEnd(WrapSegs(queue)) == MessageEnd(queue)
    decreases |queue|
  {
    hide U32;
    if queue != [] {
      assert WrapSegs(queue)[1..] == WrapSegs(queue[1..]);
      WrapMessageEnd(queue[1..]);
    }
  }

  lemma {:induction false} WrapJoin(queue: seq<Segment>)
    ensures Join(WrapSegs(queue)) == Join(queue)
    decreases |queue|
  {
    hide U32;
    if queue != [] {
      assert WrapSegs(queue)[..|queue| - 1] == WrapSegs(queue[..|queue| - 1]);
      WrapJoin(queue[..|queue| - 1]);
    }
  }

  lemma {:induction false} WrapSlices(queue: seq<Segment>, n: nat)
    requires n <= |queue|
    ensures WrapSegs(queue)[..n] == WrapSegs(queue[..n])
    ensures WrapSegs(queue)[n..] == WrapSegs(queue[n..])
  {
    hide U32;
  }

  lemma {:induction false} WrapPeekSize(queue: seq<Segment>)
    ensures PeekSize(WrapSegs(queue)) == PeekSize(queue)
    ensures MessageEnd(WrapSegs(queue)) == MessageEnd(queue)
    ensures Join(WrapSegs(queue)[..MessageEnd(queue)]) == Join(queue[..MessageEnd(queue)])
  {
    WrapMessageEnd(queue);
    WrapSlices(queue, MessageEnd(queue));
    WrapJoin(queue[..MessageEnd(queue)]);
    hide U32, MessageEnd, Join;
  }

  lemma {:induction false} WrapRecv(k: Kcb, len: int)
    requires Ordered(k.rcv.buf, k.rcv.nxt, k.rcv.nxt + k.cfg.rcvWnd) && k.cfg.rcvWnd < TWO_31
    ensures var (k', ret, msg) := Recv(false, k, len);
            Recv(true, WrapKcb(k), len) == (WrapKcb(k'), ret, msg)
  {
    var queue := k.rcv.queue;
    var n := MessageEnd(queue);
    WrapPeekSize(queue);
    WrapSlices(queue, n);
    WrapDrain(k.rcv, k.cfg.rcvWnd);
    WrapDrain(k.rcv.(queue := queue[n..]), k.cfg.rcvWnd);
    hide U32, MessageEnd, Join, PeekSize, Drain, WrapSegs, WrapAcks;
    assert WrapRcv(k.rcv.(queue := queue[n..])) == WrapRcv(k.rcv).(queue := WrapSegs(queue)[n..]);
    RecvQueueSize(k.rcv, k.cfg.rcvWnd);
    RecvQueueSize(k.rcv.(queue := queue[n..]), k.cfg.rcvWnd);
  }

  lemma {:induction false} RecvQueueSize(r: Receiver, wnd: nat)
    ensures |WrapRcv(Drain(false, r, wnd)).queue| == |Drain(false, r, wnd).queue|
  {
    hide Drain;
  }

  lemma {:induction false} WrapFragments(msg: seq<byte>, mss: nat, count: nat)
    requires mss > 0
    ensures WrapSegs(Fragments(msg, mss, count, false)) == Fragments(msg, mss, count, false)
    decreases count
  {
    assert U32(0) == 0;
    hide U32;
    if count > 0 {
      WrapFragments(msg[Min(|msg|, mss)..], mss, count - 1);
      WrapCons(Blank(count - 1, msg[..Min(|msg|, mss)]), Fragments(msg[Min(|msg|, mss)..], mss, count - 1, false));
    }
  }

  lemma {:induction false} WrapAppend(a: seq<Segment>, b: seq<Segment>)
    ensures WrapSegs(a + b) == WrapSegs(a) + WrapSegs(b)
  {
    hide U32;
  }

  lemma {:induction false} WrapSend(k: Kcb, msg: seq<byte>)
    requires ValidConfig(k.cfg) && !k.cfg.stream
    ensures var (k', ret) := Send(k, msg);
            Send(WrapKcb(k), msg) == (WrapKcb(k'), ret)
  {
    var mss := k.cfg.Mss();
    var count := FragmentCount(|msg|, mss);
    assert msg[0..] == msg;
    WrapFragments(msg, mss, count);
    WrapAppend(k.snd.queue, Fragments(msg, mss, count, false));
    hide U32, Fragments, WrapSegs, WrapAcks;
  }

  // ---------------------------------------------------------------- one packet

  /** Outstanding numbers lie in a window of size wnd. */
  ghost predicate Windowed(snd: Sender, wnd: nat)
  {
    snd.una <= snd.nxt && snd.nxt <= snd.una + wnd && Ordered(snd.buf, snd.una, snd.nxt)
  }

  lemma {:induction false} NearWindow(snd: Sender, wnd: nat, x: nat)
    requires Windowed(snd, wnd) && InRange(x, snd)
    ensures Near(snd.buf, x)
  {
  }

  lemma {:induction false} WrapShrink(snd: Sender)
    ensures Shrink(WrapSnd(snd)) == WrapSnd(Shrink(snd))
  {
    hide U32;
  }

  lemma {:induction false} WrapHeader(k: Kcb, wnd: nat, p: Packet)
    requires Windowed(k.snd, wnd) && InRange(p.una, k.snd)
    ensures TakeHeader(true, WrapKcb(k), WrapPacket(p)) == WrapKcb(TakeHeader(false, k, p))
  {
    NearWindow(k.snd, wnd, p.una);
    WrapDropAcked(k.snd.buf, p.una);
    WrapShrink(k.snd.(buf := DropAcked(false, k.snd.buf, p.una)));
    hide U32, DropAcked, Shrink, WrapSegs, WrapAcks;
  }

  lemma {:induction false} WrapOutstanding(snd: Sender, wnd: nat, sn: nat)
    requires Windowed(snd, wnd) && InRange(sn, snd) && wnd < TWO_31
    ensures Outstanding(true, WrapSnd(snd), U32(sn)) == Outstanding(false, snd, sn)
  {
    DiffExact(sn, snd.una);
    DiffExact(sn, snd.nxt);
    if snd.nxt > sn + TWO_31 {
      DiffBehind(sn, snd.nxt);
    }
    hide U32, TimeDiff;
  }

  lemma {:induction false} WrapTakeAck(k: Kcb, wnd: nat, p: Packet)
    requires Windowed(k.snd, wnd) && InRange(p.sn, k.snd) && wnd < TWO_31
    ensures TakeAck(true, WrapKcb(k), WrapPacket(p)) == WrapKcb(TakeAck(false, k, p))
  {
    NearWindow(k.snd, wnd, p.sn);
    WrapRemoveSn(k.snd.buf, p.sn);
    WrapOutstanding(k.snd, wnd, p.sn);
    WrapShrink(ParseAck(false, k.snd, p.sn));
    hide U32, RemoveSn, Shrink, WrapSegs, WrapAcks, TimeDiff, UpdateRtt, Outstanding;
    assert ParseAck(true, WrapSnd(k.snd), U32(p.sn)) == WrapSnd(ParseAck(false, k.snd, p.sn));
    hide ParseAck;
  }

  lemma {:induction false} WrapFastAckSnd(snd: Sender, wnd: nat, sn: nat, ts: nat)
    requires Windowed(snd, wnd) && InRange(sn, snd) && wnd < TWO_31
    ensures ParseFastAck(true, WrapSnd(snd), U32(sn), ts) == WrapSnd(ParseFastAck(false, snd, sn, ts))
  {
    NearWindow(snd, wnd, sn);
    WrapFastAck(snd.buf, sn, ts);
    WrapOutstanding(snd, wnd, sn);
    hide U32, FastAckBuf, Outstanding, WrapSegs;
  }

  lemma {:induction false} WrapAckSnoc(acks: seq<Ack>, a: Ack)
    ensures WrapAcks(acks + [a]) == WrapAcks(acks) + [WrapAck(a)]
  {
    hide U32;
  }

  /** Between half the range and the whole range behind, the difference comes out positive. */
  lemma {:induction false} DiffBehind(a: nat, b: nat)
    requires a + TWO_31 < b <= a + TWO_32
    ensures Diff(true, U32(a), U32(b)) >= 0
  {
    U32Sub(a, b);
    ModShift(a - b, 1);
    assert U32(a - b) == a - b + TWO_32;
  }

  lemma {:induction false} WrapEdge(sn: nat, nxt: nat, wnd: nat)
    requires Placed(sn, nxt, wnd) && wnd < TWO_31
    ensures BelowEdge(true, U32(sn), U32(nxt) + wnd) == BelowEdge(false, sn, nxt + wnd)
  {
    U32Add(nxt, wnd);
    if nxt + wnd <= sn + TWO_31 {
      DiffExact(sn, nxt + wnd);
    } else {
      DiffBehind(sn, nxt + wnd);
    }
    hide U32, TimeDiff;
  }

  lemma {:induction false} WrapInWindow(r: Receiver, wnd: nat, sn: nat)
    requires Close(sn, r.nxt) && wnd < TWO_31
    ensures Diff(true, U32(sn), U32(r.nxt)) == sn - r.nxt
    ensures InWindow(true, WrapRcv(r), wnd, U32(sn)) == InWindow(false, r, wnd, sn)
  {
    DiffExact(sn, r.nxt);
    if sn >= r.nxt {
      DiffExactPlus(sn, r.nxt, wnd);
    }
    hide U32, TimeDiff, Norm;
  }

  lemma {:induction false} WrapStore(r: Receiver, wnd: nat, seg: Segment)
    requires Ordered(r.buf, r.nxt, r.nxt + wnd) && wnd < TWO_31
    requires r.nxt <= seg.sn < r.nxt + wnd
    ensures Drain(true, WrapRcv(r).(buf := Insert(true, WrapRcv(r).buf, WrapSeg(seg))), wnd)
         == WrapRcv(Drain(false, r.(buf := Insert(false, r.buf, seg)), wnd))
  {
    assert Near(r.buf, seg.sn);
    WrapInsert(r.buf, seg);
    InsertSpec(r.buf, seg, r.nxt, r.nxt + wnd);
    var r2 := r.(buf := Insert(false, r.buf, seg));
    WrapDrain(r2, wnd);
    hide U32, Insert, Drain, WrapSegs, WrapAcks;
    assert WrapRcv(r2) == WrapRcv(r).(buf := Insert(true, WrapRcv(r).buf, WrapSeg(seg)));
  }

  lemma {:induction false} WrapTakePush(r: Receiver, wnd: nat, p: Packet)
    requires Ordered(r.buf, r.nxt, r.nxt + wnd) && wnd < TWO_31 && Placed(p.sn, r.nxt, wnd)
    ensures TakePush(true, WrapRcv(r), wnd, WrapPacket(p)) == WrapRcv(TakePush(false, r, wnd, p))
  {
    var r1 := r.(acks := r.acks + [Ack(p.sn, p.ts)]);
    WrapAckSnoc(r.acks, Ack(p.sn, p.ts));
    WrapEdge(p.sn, r.nxt, wnd);
    EdgeMeans(p.sn, r.nxt + wnd);
    if BelowEdge(false, p.sn, r.nxt + wnd) {
      WrapInWindow(r, wnd, p.sn);
      WrapInWindow(r1, wnd, p.sn);
    }
    assert WrapRcv(r1) == WrapRcv(r).(acks := WrapAcks(r1.acks));
    if p.sn < r.nxt + wnd && p.sn >= r.nxt {
      WrapStore(r1, wnd, Arrived(p));
    }
    hide U32, Insert, Drain, TimeDiff, Norm, WrapSegs, WrapAcks, Ordered, BelowEdge;
    assert WrapSeg(Arrived(p)) == Arrived(WrapPacket(p));
    hide WrapRcv;
  }

  lemma {:induction false} EdgeMeans(sn: nat, edge: nat)
    ensures BelowEdge(false, sn, edge) <==> sn < edge <= sn + TWO_31
  {
  }

  lemma {:induction false} WrapScanAck(scan: Scan, p: Packet)
    requires scan.Latest? ==> p.sn <= scan.sn + TWO_31 && scan.sn <= p.sn + TWO_31
    ensures ScanAck(true, WrapScan(scan), WrapPacket(p)) == WrapScan(ScanAck(false, scan, p))
  {
    if scan.Latest? {
      WrapAhead(p.sn, scan.sn);
    }
    hide U32, TimeDiff, Ahead;
  }

  /** Exactly half the range ahead, the signed difference is negative. */
  lemma {:induction false} WrapAhead(sn: nat, last: nat)
    requires sn <= last + TWO_31 && last <= sn + TWO_31
    ensures Ahead(true, U32(sn), U32(last)) == Ahead(false, sn, last)
  {
    DiffExact(sn, last);
    if sn == last + TWO_31 {
      U32Sub(sn, last);
      assert U32(sn - last) == TWO_31;
    }
  }

  /** A delivered packet is fresh when its numbers lie within half the range of the receiver's counters. */
  ghost predicate FreshPacket(st: InputState, p: Packet)
  {
    var k := st.k;
    && InRange(p.una, k.snd)
    && (p.cmd == CMD_ACK as int ==>
          && InRange(p.sn, TakeHeader(false, k, p).snd)
          && (st.scan.Latest? ==> p.sn <= st.scan.sn + TWO_31 && st.scan.sn <= p.sn + TWO_31))
    && (p.cmd == CMD_PUSH as int ==> Placed(p.sn, k.rcv.nxt, k.cfg.rcvWnd))
  }

  ghost predicate Windows(k: Kcb)
  {
    && ValidConfig(k.cfg)
    && Windowed(k.snd, k.cfg.sndWnd)
    && Ordered(k.rcv.buf, k.rcv.nxt, k.rcv.nxt + k.cfg.rcvWnd)
  }

  lemma {:induction false} WrapInputPacket(st: InputState, p: Packet)
    requires Windows(st.k) && Windows(TakeHeader(false, st.k, p)) && FreshPacket(st, p)
    ensures InputPacket(true, InputState(WrapKcb(st.k), WrapScan(st.scan)), WrapPacket(p))
         == (var s := InputPacket(false, st, p); InputState(WrapKcb(s.k), WrapScan(s.scan)))
  {
    var k := TakeHeader(false, st.k, p);
    WrapHeader(st.k, st.k.cfg.sndWnd, p);
    if p.cmd == CMD_ACK as int {
      WrapTakeAck(k, k.cfg.sndWnd, p);
      WrapScanAck(st.scan, p);
    } else if p.cmd == CMD_PUSH as int {
      WrapTakePush(k.rcv, k.cfg.rcvWnd, p);
    }
    hide U32, TakeHeader, TakeAck, TakePush, ScanAck, WrapSnd, Windows, FreshPacket, WrapSegs, WrapAcks;
  }
}
