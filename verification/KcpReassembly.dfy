/** Reassembly does not depend on the order or repetition in which segments of the window arrive. */
module KcpReassembly {
  import opened Bytes
  import opened KcpSpec
  import opened KcpLists
  import opened KcpMessages
  import opened KcpFlow
  import opened KcpWorld
  import opened KcpWrap
  import opened KcpRefine

  /** ikcp_parse_data over a sequence of arrivals. */
  function Feed(wrap: bool, r: Receiver, wnd: nat, ps: seq<Packet>): Receiver
  {
    if ps == [] then r else TakePush(wrap, Feed(wrap, r, wnd, ps[..|ps| - 1]), wnd, ps[|ps| - 1])
  }

  /** rcv_buf has been drained as far as the window allows. */
  predicate Drained(r: Receiver, wnd: nat)
  {
    r.buf != [] ==> r.buf[0].sn != r.nxt || |r.queue| >= wnd
  }

  lemma {:induction false} DrainDrained(wrap: bool, r: Receiver, wnd: nat)
    ensures Drained(Drain(wrap, r, wnd), wnd)
    decreases |r.buf|
  {
    if r.buf != [] && r.buf[0].sn == r.nxt && |r.queue| < wnd {
      DrainDrained(wrap, Receiver(Norm(wrap, r.nxt + 1), r.queue + [r.buf[0]], r.buf[1..], r.acks), wnd);
    }
  }

  lemma {:induction false} TakePushDrained(wrap: bool, r: Receiver, wnd: nat, p: Packet)
    requires Drained(r, wnd)
    ensures Drained(TakePush(wrap, r, wnd, p), wnd)
  {
    var r1 := r.(acks := r.acks + [Ack(p.sn, p.ts)]);
    DrainDrained(wrap, r1.(buf := Insert(wrap, r1.buf, Arrived(p))), wnd);
    hide Drain, Insert, TimeDiff, U32;
  }

  // ---------------------------------------------------------------- insert first, drain later

  lemma {:induction false} InsertFront(head: Segment, rest: seq<Segment>, seg: Segment)
    requires head.sn < seg.sn
    ensures Insert(false, [head] + rest, seg) == [head] + Insert(false, rest, seg)
    decreases |rest|
  {
    var buf := [head] + rest;
    if rest != [] {
      var init, last := rest[..|rest| - 1], rest[|rest| - 1];
      assert buf[|buf| - 1] == last && buf[..|buf| - 1] == [head] + init;
      InsertFront(head, init, seg);
    }
  }

  lemma {:induction false} DrainStep(r: Receiver, wnd: nat)
    ensures Drain(false, r, wnd)
         == if r.buf != [] && r.buf[0].sn == r.nxt && |r.queue| < wnd
            then Drain(false, Receiver(r.nxt + 1, r.queue + [r.buf[0]], r.buf[1..], r.acks), wnd)
            else r
  {
  }

  /** Draining before an insertion changes nothing in the end. */
  lemma {:induction false} DrainThenInsert(r: Receiver, wnd: nat, seg: Segment, hi: nat)
    requires Ordered(r.buf, r.nxt, hi) && r.nxt <= seg.sn < hi
    ensures var x := Drain(false, r, wnd);
            var insertedLate := Drain(false, x.(buf := Insert(false, x.buf, seg)), wnd);
            var insertedFirst := Drain(false, r.(buf := Insert(false, r.buf, seg)), wnd);
            && (seg.sn >= x.nxt ==> insertedLate == insertedFirst)
            && (seg.sn < x.nxt ==> Has(r.buf, seg.sn))
    decreases |r.buf|
  {
    hide Drain, Insert;
    DrainStep(r, wnd);
    if r.buf != [] && r.buf[0].sn == r.nxt && |r.queue| < wnd {
      var head, rest := r.buf[0], r.buf[1..];
      assert r.buf == [head] + rest;
      var r1 := Receiver(r.nxt + 1, r.queue + [head], rest, r.acks);
      OrderedTail(r.buf, r.nxt, hi);
      HasCons(head, rest, seg.sn);
      hide Ordered, Has;
      if seg.sn == r.nxt {
        DrainForward(r1, wnd);
      } else {
        DrainThenInsert(r1, wnd, seg, hi);
        InsertFront(head, rest, seg);
        var both := r.(buf := Insert(false, r.buf, seg));
        DrainStep(both, wnd);
        assert both.buf[0] == head && both.buf[1..] == Insert(false, rest, seg);
      }
    }
  }

  lemma {:induction false} DrainForward(r: Receiver, wnd: nat)
    ensures Drain(false, r, wnd).nxt >= r.nxt
  {
    var n := DrainSpec(r, wnd);
  }

  function InsertAll(buf: seq<Segment>, ps: seq<Packet>): seq<Segment>
  {
    if ps == [] then buf else Insert(false, InsertAll(buf, ps[..|ps| - 1]), Arrived(ps[|ps| - 1]))
  }

  ghost predicate InWindowAll(ps: seq<Packet>, lo: nat, hi: nat)
  {
    forall p :: p in ps ==> lo <= p.sn < hi
  }

  lemma {:induction false} InsertAllOrdered(buf: seq<Segment>, ps: seq<Packet>, lo: nat, hi: nat)
    requires Ordered(buf, lo, hi) && InWindowAll(ps, lo, hi)
    ensures Ordered(InsertAll(buf, ps), lo, hi)
    decreases |ps|
  {
    if ps != [] {
      InsertAllOrdered(buf, ps[..|ps| - 1], lo, hi);
      hide Ordered, Insert;
      InsertSpec(InsertAll(buf, ps[..|ps| - 1]), Arrived(ps[|ps| - 1]), lo, hi);
    }
  }

  ghost predicate SameCore(a: Receiver, b: Receiver)
  {
    a.nxt == b.nxt && a.queue == b.queue && a.buf == b.buf
  }

  lemma {:induction false} DrainIgnoresAcks(r: Receiver, acks: seq<Ack>, wnd: nat)
    ensures Drain(false, r.(acks := acks), wnd) == Drain(false, r, wnd).(acks := acks)
    decreases |r.buf|
  {
    if r.buf != [] && r.buf[0].sn == r.nxt && |r.queue| < wnd {
      DrainIgnoresAcks(Receiver(r.nxt + 1, r.queue + [r.buf[0]], r.buf[1..], r.acks), acks, wnd);
    }
  }

  /** Feeding is inserting everything and draining once. */
  lemma {:induction false} FeedIsInsertThenDrain(r: Receiver, wnd: nat, ps: seq<Packet>)
    requires Drained(r, wnd) && Ordered(r.buf, r.nxt, r.nxt + wnd) && InWindowAll(ps, r.nxt, r.nxt + wnd)
             && wnd <= TWO_31
    ensures SameCore(Feed(false, r, wnd, ps), Drain(false, r.(buf := InsertAll(r.buf, ps)), wnd))
    decreases |ps|
  {
    if ps != [] {
      var init, p := ps[..|ps| - 1], ps[|ps| - 1];
      FeedIsInsertThenDrain(r, wnd, init);
      InsertAllOrdered(r.buf, init, r.nxt, r.nxt + wnd);
      var before := r.(buf := InsertAll(r.buf, init));
      hide Drain, Insert, Ordered, TakePush;
      DrainForward(before, wnd);
      DrainThenInsert(before, wnd, Arrived(p), r.nxt + wnd);
      if p.sn < Drain(false, before, wnd).nxt {
        InsertSpec(before.buf, Arrived(p), r.nxt, r.nxt + wnd);
      }
      PushIsInsert(Feed(false, r, wnd, init), Drain(false, before, wnd), wnd, p);
    }
  }

  /** On receivers with the same core, a packet below the far edge is inserted and drained. */
  lemma {:induction false} PushIsInsert(f: Receiver, x: Receiver, wnd: nat, p: Packet)
    requires SameCore(f, x) && p.sn < f.nxt + wnd && wnd <= TWO_31
    ensures p.sn >= x.nxt ==> SameCore(TakePush(false, f, wnd, p),
            Drain(false, x.(buf := Insert(false, x.buf, Arrived(p))), wnd))
    ensures p.sn < x.nxt ==> SameCore(TakePush(false, f, wnd, p), x)
  {
    hide Drain, Insert;
    if p.sn >= x.nxt {
      var b := Insert(false, x.buf, Arrived(p));
      DrainIgnoresAcks(x.(buf := b), f.acks + [Ack(p.sn, p.ts)], wnd);
    }
  }

  // ---------------------------------------------------------------- only the set matters

  /** Arrivals with the same number are the same segment. */
  ghost predicate Consistent(ps: seq<Packet>)
  {
    forall p, q :: p in ps && q in ps && p.sn == q.sn ==> Arrived(p) == Arrived(q)
  }

  ghost predicate FromArrivals(buf: seq<Segment>, ps: seq<Packet>, s: Segment)
  {
    s in buf || (!Has(buf, s.sn) && exists p :: p in ps && s == Arrived(p))
  }

  lemma {:induction false} InsertAllMembers(buf: seq<Segment>, ps: seq<Packet>, lo: nat, hi: nat, s: Segment)
    requires Ordered(buf, lo, hi) && InWindowAll(ps, lo, hi) && Consistent(ps)
    ensures s in InsertAll(buf, ps) <==> FromArrivals(buf, ps, s)
    ensures Has(InsertAll(buf, ps), s.sn) <==> Has(buf, s.sn) || exists p :: p in ps && p.sn == s.sn
    decreases |ps|
  {
    if ps != [] {
      var init, last := ps[..|ps| - 1], ps[|ps| - 1];
      assert ps == init + [last];
      InsertAllMembers(buf, init, lo, hi, s);
      InsertAllMembers(buf, init, lo, hi, Arrived(last));
      InsertAllOrdered(buf, init, lo, hi);
      var before := InsertAll(buf, init);
      hide Ordered, Insert;
      InsertSpec(before, Arrived(last), lo, hi);
      HasMember(before, s.sn);
      HasMember(InsertAll(buf, ps), s.sn);
      hide Has;
    }
  }

  lemma {:induction false} SomeMember(b: seq<Segment>)
    ensures b != [] ==> exists s :: s in b
  {
    if b != [] {
      assert b[0] in b;
    }
  }

  /** A strictly sorted queue is determined by its segments. */
  lemma {:induction false} OrderedUnique(a: seq<Segment>, b: seq<Segment>, lo: nat, hi: nat)
    requires Ordered(a, lo, hi) && Ordered(b, lo, hi)
    requires forall s :: s in a <==> s in b
    ensures a == b
    decreases |a|
  {
    if a == [] {
      SomeMember(b);
    } else {
      assert a[|a| - 1] in b;
      var la, lb := a[|a| - 1], b[|b| - 1];
      assert lb in a && la in b;
      assert la == lb;
      var ia, ib := a[..|a| - 1], b[..|b| - 1];
      forall s
        ensures s in ia <==> s in ib
      {
        InInit(a, s);
        InInit(b, s);
      }
      OrderedUnique(ia, ib, lo, hi);
      assert a == ia + [la] && b == ib + [lb];
    }
  }

  lemma {:induction false} InInit(a: seq<Segment>, s: Segment)
    requires a != [] && forall i, j :: 0 <= i < j < |a| ==> a[i].sn < a[j].sn
    ensures s in a[..|a| - 1] <==> s in a && s != a[|a| - 1]
  {
    assert a == a[..|a| - 1] + [a[|a| - 1]];
  }

  /** The order theorem with unbounded numbers. */
  lemma {:induction false} OrderDoesNotMatter(r: Receiver, wnd: nat, ps: seq<Packet>, qs: seq<Packet>)
    requires Drained(r, wnd) && Ordered(r.buf, r.nxt, r.nxt + wnd) && wnd <= TWO_31
    requires InWindowAll(ps, r.nxt, r.nxt + wnd) && Consistent(ps)
    requires forall p :: p in ps <==> p in qs
    ensures SameCore(Feed(false, r, wnd, ps), Feed(false, r, wnd, qs))
    ensures Drained(Feed(false, r, wnd, ps), wnd)
  {
    hide Drain, Insert, TakePush;
    var hi := r.nxt + wnd;
    InsertAllOrdered(r.buf, ps, r.nxt, hi);
    InsertAllOrdered(r.buf, qs, r.nxt, hi);
    forall s
      ensures s in InsertAll(r.buf, ps) <==> s in InsertAll(r.buf, qs)
    {
      InsertAllMembers(r.buf, ps, r.nxt, hi, s);
      InsertAllMembers(r.buf, qs, r.nxt, hi, s);
    }
    hide InsertAll;
    OrderedUnique(InsertAll(r.buf, ps), InsertAll(r.buf, qs), r.nxt, hi);
    FeedIsInsertThenDrain(r, wnd, ps);
    FeedIsInsertThenDrain(r, wnd, qs);
    DrainDrained(false, r.(buf := InsertAll(r.buf, ps)), wnd);
  }

  // ---------------------------------------------------------------- retransmissions

  /** A segment without the header fields that change from one transmission to the next. */
  function Bare(s: Segment): Segment
  {
    s.(wnd := 0, ts := 0, una := 0)
  }

  function BareSegs(segs: seq<Segment>): (r: seq<Segment>)
    ensures |r| == |segs|
  {
    seq(|segs|, i requires 0 <= i < |segs| => Bare(segs[i]))
  }

  function BarePacket(p: Packet): Packet
  {
    p.(conv := 0, cmd := 0, wnd := 0, ts := 0, una := 0)
  }

  function BarePackets(ps: seq<Packet>): (r: seq<Packet>)
    ensures |r| == |ps|
  {
    seq(|ps|, i requires 0 <= i < |ps| => BarePacket(ps[i]))
  }

  function BareRcv(r: Receiver): Receiver
  {
    Receiver(r.nxt, BareSegs(r.queue), BareSegs(r.buf), r.acks)
  }

  lemma {:induction false} BareInsert(buf: seq<Segment>, seg: Segment)
    ensures Insert(false, BareSegs(buf), Bare(seg)) == BareSegs(Insert(false, buf, seg))
    decreases |buf|
  {
    if buf != [] {
      var init, last := buf[..|buf| - 1], buf[|buf| - 1];
      assert BareSegs(buf)[..|buf| - 1] == BareSegs(init);
      BareInsert(init, seg);
      BareSnoc(buf, seg);
      BareSnoc(Insert(false, init, seg), last);
    }
  }

  lemma {:induction false} BareSnoc(segs: seq<Segment>, s: Segment)
    ensures BareSegs(segs + [s]) == BareSegs(segs) + [Bare(s)]
  {
  }

  lemma {:induction false} BareDrain(r: Receiver, wnd: nat)
    ensures Drain(false, BareRcv(r), wnd) == BareRcv(Drain(false, r, wnd))
    decreases |r.buf|
  {
    if r.buf != [] {
      assert BareSegs(r.buf)[1..] == BareSegs(r.buf[1..]);
      BareSnoc(r.queue, r.buf[0]);
      if r.buf[0].sn == r.nxt && |r.queue| < wnd {
        BareDrain(Receiver(r.nxt + 1, r.queue + [r.buf[0]], r.buf[1..], r.acks), wnd);
      }
    }
  }

  /** One arrival, seen without its changing header fields. */
  lemma {:induction false} BarePush(f: Receiver, x: Receiver, wnd: nat, p: Packet)
    requires SameCore(f, BareRcv(x))
    ensures SameCore(TakePush(false, f, wnd, BarePacket(p)), BareRcv(TakePush(false, x, wnd, p)))
  {
    var b := Insert(false, x.buf, Arrived(p));
    BareInsert(x.buf, Arrived(p));
    BareDrain(x.(acks := x.acks + [Ack(p.sn, p.ts)], buf := b), wnd);
    hide Drain, Insert, BareSegs;
    var inserted := BareRcv(x).(buf := BareSegs(b));
    DrainIgnoresAcks(inserted, f.acks + [Ack(p.sn, 0)], wnd);
    DrainIgnoresAcks(inserted, x.acks + [Ack(p.sn, p.ts)], wnd);
  }

  lemma {:induction false} BareFeed(r: Receiver, wnd: nat, ps: seq<Packet>)
    ensures SameCore(Feed(false, BareRcv(r), wnd, BarePackets(ps)), BareRcv(Feed(false, r, wnd, ps)))
    decreases |ps|
  {
    if ps != [] {
      hide TakePush, BareRcv;
      var init := ps[..|ps| - 1];
      BareFeed(r, wnd, init);
      assert BarePackets(ps)[..|ps| - 1] == BarePackets(init);
      BarePush(Feed(false, BareRcv(r), wnd, BarePackets(init)), Feed(false, r, wnd, init), wnd, ps[|ps| - 1]);
    }
  }

  /** Arrivals with the same number carry the same fragment, whatever else their headers say. */
  ghost predicate SameFragments(ps: seq<Packet>)
  {
    forall p, q :: p in ps && q in ps && p.sn == q.sn ==> p.frg == q.frg && p.data == q.data
  }

  /** Same numbers, fragments and octets in queue and buffer. */
  ghost predicate SameContents(a: Receiver, b: Receiver)
  {
    a.nxt == b.nxt && BareSegs(a.queue) == BareSegs(b.queue) && BareSegs(a.buf) == BareSegs(b.buf)
  }

  lemma {:induction false} BareStart(r: Receiver, wnd: nat, ps: seq<Packet>)
    requires Drained(r, wnd) && Ordered(r.buf, r.nxt, r.nxt + wnd)
    requires InWindowAll(ps, r.nxt, r.nxt + wnd) && SameFragments(ps)
    ensures Drained(BareRcv(r), wnd) && Ordered(BareRcv(r).buf, r.nxt, r.nxt + wnd)
    ensures InWindowAll(BarePackets(ps), r.nxt, r.nxt + wnd) && Consistent(BarePackets(ps))
  {
    var bs := BarePackets(ps);
    forall b | b in bs
      ensures r.nxt <= b.sn < r.nxt + wnd
    {
      var i :| 0 <= i < |bs| && bs[i] == b;
      assert ps[i] in ps;
    }
    forall b, c | b in bs && c in bs && b.sn == c.sn
      ensures Arrived(b) == Arrived(c)
    {
      var i :| 0 <= i < |bs| && bs[i] == b;
      var j :| 0 <= j < |bs| && bs[j] == c;
      assert ps[i] in ps && ps[j] in ps;
    }
  }

  /** The retransmission theorem with unbounded numbers. */
  lemma {:induction false} CopiesDoNotMatter(r: Receiver, wnd: nat, ps: seq<Packet>, qs: seq<Packet>)
    requires Drained(r, wnd) && Ordered(r.buf, r.nxt, r.nxt + wnd) && wnd <= TWO_31
    requires InWindowAll(ps, r.nxt, r.nxt + wnd) && SameFragments(ps)
    requires forall b :: b in BarePackets(ps) <==> b in BarePackets(qs)
    ensures SameContents(Feed(false, r, wnd, ps), Feed(false, r, wnd, qs))
  {
    BareStart(r, wnd, ps);
    BareFeed(r, wnd, ps);
    BareFeed(r, wnd, qs);
    hide Feed, BarePackets, Ordered, Consistent, BareSegs;
    OrderDoesNotMatter(BareRcv(r), wnd, BarePackets(ps), BarePackets(qs));
  }

  // ---------------------------------------------------------------- the 32-bit receiver

  lemma {:induction false} DrainBounds(r: Receiver, wnd: nat, hi: nat)
    requires Ordered(r.buf, r.nxt, hi) && r.nxt <= hi
    ensures var r' := Drain(false, r, wnd);
            r.nxt <= r'.nxt <= hi && Ordered(r'.buf, r'.nxt, hi)
  {
    var n := DrainSpec(r, wnd);
    DrainedOrder(r.buf, r.nxt, hi, n);
    DrainedLimit(r.buf, r.nxt, hi, n);
    hide Drain, Ordered;
  }

  /** The receiver a packet leaves, without the comparison details. */
  lemma {:induction false} PushCases(r: Receiver, wnd: nat, p: Packet)
    ensures var r' := TakePush(false, r, wnd, p);
            var stored := Receiver(r.nxt, r.queue, Insert(false, r.buf, Arrived(p)), r.acks + [Ack(p.sn, p.ts)]);
            (r'.nxt == r.nxt && r'.buf == r.buf) || (p.sn >= r.nxt && r' == Drain(false, stored, wnd))
  {
    hide Drain, Insert;
  }

  lemma {:induction false} PushBounds(r: Receiver, wnd: nat, p: Packet, hi: nat)
    requires Ordered(r.buf, r.nxt, hi) && r.nxt <= hi && p.sn < hi
    ensures var r' := TakePush(false, r, wnd, p);
            r.nxt <= r'.nxt <= hi && Ordered(r'.buf, r'.nxt, hi)
  {
    hide Ordered, Insert, Drain, TakePush;
    PushCases(r, wnd, p);
    if p.sn >= r.nxt {
      InsertSpec(r.buf, Arrived(p), r.nxt, hi);
      DrainBounds(Receiver(r.nxt, r.queue, Insert(false, r.buf, Arrived(p)), r.acks + [Ack(p.sn, p.ts)]), wnd, hi);
    }
  }

  lemma {:induction false} FeedBounds(r: Receiver, wnd: nat, ps: seq<Packet>)
    requires Ordered(r.buf, r.nxt, r.nxt + wnd) && InWindowAll(ps, r.nxt, r.nxt + wnd)
    ensures var f := Feed(false, r, wnd, ps);
            r.nxt <= f.nxt <= r.nxt + wnd && Ordered(f.buf, f.nxt, r.nxt + wnd)
    decreases |ps|
  {
    if ps != [] {
      FeedBounds(r, wnd, ps[..|ps| - 1]);
      hide Ordered, TakePush;
      PushBounds(Feed(false, r, wnd, ps[..|ps| - 1]), wnd, ps[|ps| - 1], r.nxt + wnd);
    }
  }

  /** Feeding reduced packets to the reduced receiver is the reduction of feeding. */
  lemma {:induction false} WrapFeed(r: Receiver, wnd: nat, ps: seq<Packet>)
    requires Ordered(r.buf, r.nxt, r.nxt + wnd) && InWindowAll(ps, r.nxt, r.nxt + wnd) && wnd < TWO_31
    ensures Feed(true, WrapRcv(r), wnd, WrapPackets(ps)) == WrapRcv(Feed(false, r, wnd, ps))
    decreases |ps|
  {
    if ps != [] {
      var init, p := ps[..|ps| - 1], ps[|ps| - 1];
      hide WrapRcv, TakePush, U32;
      WrapFeed(r, wnd, init);
      FeedBounds(r, wnd, init);
      assert WrapPackets(ps)[..|ps| - 1] == WrapPackets(init);
      var f := Feed(false, r, wnd, init);
      OrderedWeaken(f.buf, f.nxt, r.nxt + wnd, f.nxt + wnd);
      hide Ordered;
      WrapTakePush(f, wnd, p);
    }
  }

  lemma {:induction false} WrapDrained(r: Receiver, wnd: nat)
    requires Drained(r, wnd) && Ordered(r.buf, r.nxt, r.nxt + wnd) && wnd < TWO_31
    ensures Drained(WrapRcv(r), wnd)
  {
    if r.buf != [] && U32(r.buf[0].sn) == U32(r.nxt) {
      U32Injective(r.buf[0].sn, r.nxt);
    }
    hide U32;
  }

  lemma {:induction false} WrapSameCore(a: Receiver, b: Receiver)
    requires SameCore(a, b)
    ensures SameCore(WrapRcv(a), WrapRcv(b))
  {
    hide U32;
  }

  /**
   From any drained 32-bit receiver, the same in-window segments in any order and with any
   repetition lead to the same rcv_nxt, rcv_queue and rcv_buf, and the result is drained again;
   the window may straddle the point where the numbers wrap.
   */
  lemma {:induction false} ReassemblyOrderIndependent(r: Receiver, wnd: nat, ps: seq<Packet>, qs: seq<Packet>)
    requires Drained(r, wnd) && Ordered(r.buf, r.nxt, r.nxt + wnd) && wnd < TWO_31
    requires InWindowAll(ps, r.nxt, r.nxt + wnd) && Consistent(ps)
    requires forall p :: p in ps <==> p in qs
    ensures var f := Feed(true, WrapRcv(r), wnd, WrapPackets(ps));
            SameCore(f, Feed(true, WrapRcv(r), wnd, WrapPackets(qs))) && Drained(f, wnd)
  {
    OrderDoesNotMatter(r, wnd, ps, qs);
    WrapFeed(r, wnd, ps);
    WrapFeed(r, wnd, qs);
    FeedBounds(r, wnd, ps);
    var f := Feed(false, r, wnd, ps);
    OrderedWeaken(f.buf, f.nxt, r.nxt + wnd, f.nxt + wnd);
    WrapDrained(f, wnd);
    hide Feed, WrapRcv, Drained;
    WrapSameCore(f, Feed(false, r, wnd, qs));
  }

  lemma {:induction false} WrapBareSegs(a: seq<Segment>, b: seq<Segment>)
    requires BareSegs(a) == BareSegs(b)
    ensures BareSegs(WrapSegs(a)) == BareSegs(WrapSegs(b))
  {
    hide U32;
    assert |a| == |b|;
    forall i | 0 <= i < |a|
      ensures Bare(WrapSeg(a[i])) == Bare(WrapSeg(b[i]))
    {
      assert BareSegs(a)[i] == Bare(a[i]) && BareSegs(b)[i] == Bare(b[i]);
    }
  }

  /**
   The same fragments, each sent any number of times with fresh headers and arriving in any order
   at a 32-bit receiver, leave the same rcv_nxt and the same numbers, fragments and octets in
   rcv_queue and rcv_buf.
   */
  lemma {:induction false} RetransmissionsDoNotMatter(r: Receiver, wnd: nat, ps: seq<Packet>, qs: seq<Packet>)
    requires Drained(r, wnd) && Ordered(r.buf, r.nxt, r.nxt + wnd) && wnd < TWO_31
    requires InWindowAll(ps, r.nxt, r.nxt + wnd) && SameFragments(ps)
    requires forall b :: b in BarePackets(ps) <==> b in BarePackets(qs)
    ensures SameContents(Feed(true, WrapRcv(r), wnd, WrapPackets(ps)), Feed(true, WrapRcv(r), wnd, WrapPackets(qs)))
  {
    CopiesDoNotMatter(r, wnd, ps, qs);
    SameWindow(ps, qs, r.nxt, r.nxt + wnd);
    WrapFeed(r, wnd, ps);
    WrapFeed(r, wnd, qs);
    var f, g := Feed(false, r, wnd, ps), Feed(false, r, wnd, qs);
    hide Feed, BareSegs, U32, Ordered, Drained;
    WrapBareSegs(f.queue, g.queue);
    WrapBareSegs(f.buf, g.buf);
  }

  lemma {:induction false} SameWindow(ps: seq<Packet>, qs: seq<Packet>, lo: nat, hi: nat)
    requires InWindowAll(ps, lo, hi) && forall b :: b in BarePackets(ps) <==> b in BarePackets(qs)
    ensures InWindowAll(qs, lo, hi)
  {
    forall q | q in qs
      ensures lo <= q.sn < hi
    {
      var j :| 0 <= j < |qs| && qs[j] == q;
      assert BarePackets(qs)[j] in BarePackets(ps);
      var i :| 0 <= i < |ps| && BarePackets(ps)[i] == BarePackets(qs)[j];
      assert ps[i] in ps;
    }
  }

  // ---------------------------------------------------------------- every reachable state is drained

  ghost predicate BothDrained(w: World)
  {
    Drained(w.a.rcv, w.a.cfg.rcvWnd) && Drained(w.b.rcv, w.b.cfg.rcvWnd)
  }

  lemma {:induction false} InputDrained(wrap: bool, st: InputState, ps: seq<Packet>)
    requires Drained(st.k.rcv, st.k.cfg.rcvWnd)
    ensures Drained(InputPackets(wrap, st, ps).k.rcv, st.k.cfg.rcvWnd)
    decreases |ps|
  {
    if ps != [] {
      var before := InputPackets(wrap, st, ps[..|ps| - 1]);
      InputDrained(wrap, st, ps[..|ps| - 1]);
      InputKeepsConfig(wrap, st, ps[..|ps| - 1]);
      hide Drained, TakePush, TakeHeader, TakeAck, InputPackets;
      HeaderKeepsReceiver(wrap, before.k, ps[|ps| - 1]);
      TakePushDrained(wrap, before.k.rcv, st.k.cfg.rcvWnd, ps[|ps| - 1]);
      PacketReceiver(wrap, before, ps[|ps| - 1]);
    }
  }

  lemma {:induction false} HeaderKeepsReceiver(wrap: bool, k: Kcb, p: Packet)
    ensures TakeHeader(wrap, k, p).rcv == k.rcv && TakeHeader(wrap, k, p).cfg == k.cfg
  {
  }

  lemma {:induction false} PacketReceiver(wrap: bool, st: InputState, p: Packet)
    ensures var r := InputPacket(wrap, st, p).k.rcv;
            r == st.k.rcv || r == TakePush(wrap, st.k.rcv, st.k.cfg.rcvWnd, p)
  {
    hide TakePush, Shrink, ParseAck, DropAcked, UpdateRtt;
  }

  lemma {:induction false} StepADrained(wrap: bool, w: World, e: Event)
    requires Configured(w) && BothDrained(w)
    ensures BothDrained(StepA(wrap, w, e))
  {
    match e
    case SendMessage(msg) =>
    case Tick(now) =>
      var k1 := UpdateClock(w.a, U32(now));
      UpdateIsFlush(wrap, w.a, U32(now));
      FlushDrained(wrap, k1);
      hide Update, Flush, Datagrams;
    case FlushNow =>
      FlushDrained(wrap, w.a);
      hide Flush, Datagrams;
    case Deliver(i) =>
      if i < |w.ba| {
        InputDrained(wrap, InputState(w.a, NoAck), w.ba[i]);
        InputKeepsConfig(wrap, InputState(w.a, NoAck), w.ba[i]);
        hide InputPackets, ParseFastAck, GrowWindow;
      }
    case Receive(len) =>
      DrainDrained(wrap, w.a.rcv, w.a.cfg.rcvWnd);
      DrainDrained(wrap, w.a.rcv.(queue := w.a.rcv.queue[MessageEnd(w.a.rcv.queue)..]), w.a.cfg.rcvWnd);
      hide Drain, Join, MessageEnd, PeekSize;
  }

  lemma {:induction false} FlushDrained(wrap: bool, k: Kcb)
    requires ValidConfig(k.cfg) && Drained(k.rcv, k.cfg.rcvWnd)
    ensures Drained(Flush(wrap, k).k.rcv, k.cfg.rcvWnd) && Flush(wrap, k).k.cfg == k.cfg
  {
    FlushConfig(wrap, k);
    if k.tm.updated {
      FlushIsTail(wrap, k);
      hide Flush, Launch, SweepUpto, ProbeTimer, ControlPackets, Adjusted, SendWindow;
    }
  }

  /** In every run, of 32-bit or unbounded endpoints and of any length. */
  lemma {:induction false} EveryRunDrained(wrap: bool, ca: Config, cb: Config, acts: seq<Action>)
    requires Configured(Start(ca, cb))
    ensures BothDrained(Run(wrap, Start(ca, cb), acts))
    decreases |acts|
  {
    if acts != [] {
      var v, act := Run(wrap, Start(ca, cb), acts[..|acts| - 1]), acts[|acts| - 1];
      EveryRunDrained(wrap, ca, cb, acts[..|acts| - 1]);
      StepADrained(wrap, if act.atA then v else Mirror(v), act.event);
      hide StepA;
    }
  }
}
