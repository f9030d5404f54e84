/** The queue scans of ikcp.c on unbounded sequence numbers: what each keeps, drops and inserts. */
module KcpLists {
  import opened Bytes
  import opened KcpSpec

  /** Strictly increasing sequence numbers from lo up to but excluding hi. */
  ghost predicate Ordered(buf: seq<Segment>, lo: nat, hi: nat)
  {
    && (forall i :: 0 <= i < |buf| ==> lo <= buf[i].sn < hi)
    && (forall i, j :: 0 <= i < j < |buf| ==> buf[i].sn < buf[j].sn)
  }

  ghost predicate Has(buf: seq<Segment>, sn: nat)
  {
    exists i :: 0 <= i < |buf| && buf[i].sn == sn
  }

  /** Same numbers and payloads, whatever the timers say. */
  ghost predicate SameSegments(a: seq<Segment>, b: seq<Segment>)
  {
    && |a| == |b|
    && forall i :: 0 <= i < |a| ==> a[i].sn == b[i].sn && a[i].frg == b[i].frg && a[i].data == b[i].data
  }

  /** An ordered run of distinct numbers is no longer than the interval it lives in. */
  lemma {:induction false} OrderedLength(buf: seq<Segment>, lo: nat, hi: nat)
    requires Ordered(buf, lo, hi) && lo <= hi
    ensures |buf| <= hi - lo
    decreases |buf|
  {
    if buf != [] {
      var last := buf[|buf| - 1].sn;
      assert Ordered(buf[..|buf| - 1], lo, last);
      OrderedLength(buf[..|buf| - 1], lo, last);
    }
  }

  // ---------------------------------------------------------------- acknowledgement scans

  /** A cumulative acknowledgement removes exactly the leading segments below una. */
  lemma {:induction false} DropAckedSpec(buf: seq<Segment>, una: nat) returns (n: nat)
    ensures n <= |buf| && DropAcked(false, buf, una) == buf[n..]
    ensures forall i :: 0 <= i < n ==> buf[i].sn < una
    ensures n < |buf| ==> buf[n].sn >= una
    decreases |buf|
  {
    if buf != [] && una > buf[0].sn {
      var m := DropAckedSpec(buf[1..], una);
      n := m + 1;
      assert buf[1..][m..] == buf[n..];
    } else {
      n := 0;
    }
  }

  lemma {:induction false} DropAckedKeeps(buf: seq<Segment>, una: nat, lo: nat, hi: nat)
    requires Ordered(buf, lo, hi)
    ensures var b := DropAcked(false, buf, una);
            && Ordered(b, lo, hi)
            && (forall s :: s in b ==> s in buf)
            && (forall sn: nat :: Has(buf, sn) && sn >= una ==> Has(b, sn))
            && (forall i :: 0 <= i < |b| ==> b[i].sn >= una)
  {
    var n := DropAckedSpec(buf, una);
    var b := buf[n..];
    forall sn: nat | Has(buf, sn) && sn >= una
      ensures Has(b, sn)
    {
      var i :| 0 <= i < |buf| && buf[i].sn == sn;
      assert b[i - n].sn == sn;
    }
  }

  lemma {:induction false} OrderedTail(buf: seq<Segment>, lo: nat, hi: nat)
    requires Ordered(buf, lo, hi) && buf != []
    ensures Ordered(buf[1..], buf[0].sn + 1, hi) && Ordered(buf[1..], lo, hi)
  {
  }

  lemma {:induction false} NotBelowHead(buf: seq<Segment>, sn: nat, lo: nat, hi: nat)
    requires Ordered(buf, lo, hi) && (buf == [] || sn < buf[0].sn)
    ensures !Has(buf, sn)
  {
  }

  /** A selective acknowledgement removes the one segment it names, if present. */
  lemma {:induction false} RemoveSnSpec(buf: seq<Segment>, sn: nat, lo: nat, hi: nat) returns (n: nat)
    requires Ordered(buf, lo, hi)
    ensures n <= |buf|
    ensures n < |buf| ==> buf[n].sn == sn && RemoveSn(false, buf, sn) == buf[..n] + buf[n + 1..]
    ensures n == |buf| ==> !Has(buf, sn) && RemoveSn(false, buf, sn) == buf
    decreases |buf|
  {
    hide Has, Ordered;
    if buf == [] || sn < buf[0].sn {
      NotBelowHead(buf, sn, lo, hi);
      n := |buf|;
    } else if sn == buf[0].sn {
      n := 0;
      assert buf[..0] + buf[1..] == buf[1..];
    } else {
      var rest := buf[1..];
      OrderedTail(buf, lo, hi);
      var m := RemoveSnSpec(rest, sn, lo, hi);
      n := m + 1;
      HasCons(buf[0], rest, sn);
      assert buf == [buf[0]] + rest;
      if m < |rest| {
        RemoveBehind(buf[0], rest, m);
      }
    }
  }

  lemma {:induction false} RemoveBehind(first: Segment, rest: seq<Segment>, m: nat)
    requires m < |rest|
    ensures [first] + (rest[..m] + rest[m + 1..]) == ([first] + rest)[..m + 1] + ([first] + rest)[m + 2..]
  {
  }

  lemma {:induction false} HasCons(first: Segment, rest: seq<Segment>, sn: nat)
    ensures Has([first] + rest, sn) <==> first.sn == sn || Has(rest, sn)
  {
    var buf := [first] + rest;
    if first.sn == sn {
      assert buf[0].sn == sn;
    }
    if Has(rest, sn) {
      var i :| 0 <= i < |rest| && rest[i].sn == sn;
      assert buf[i + 1].sn == sn;
    }
  }

  lemma {:induction false} HasWithout(buf: seq<Segment>, n: nat, x: nat)
    requires n < |buf| && Has(buf, x) && buf[n].sn != x
    ensures Has(buf[..n] + buf[n + 1..], x)
  {
    var i :| 0 <= i < |buf| && buf[i].sn == x;
    assert (buf[..n] + buf[n + 1..])[if i < n then i else i - 1].sn == x;
  }

  lemma {:induction false} OrderedWithout(buf: seq<Segment>, n: nat, lo: nat, hi: nat)
    requires Ordered(buf, lo, hi) && n < |buf|
    ensures Ordered(buf[..n] + buf[n + 1..], lo, hi)
    ensures !Has(buf[..n] + buf[n + 1..], buf[n].sn)
  {
  }

  lemma {:induction false} RemoveSnKeeps(buf: seq<Segment>, sn: nat, lo: nat, hi: nat)
    requires Ordered(buf, lo, hi)
    ensures var b := RemoveSn(false, buf, sn);
            && Ordered(b, lo, hi)
            && (forall s :: s in b ==> s in buf)
            && (forall x: nat :: Has(buf, x) && x != sn ==> Has(b, x))
            && !Has(b, sn)
  {
    hide Has, Ordered, RemoveSn;
    var n := RemoveSnSpec(buf, sn, lo, hi);
    if n < |buf| {
      OrderedWithout(buf, n, lo, hi);
      forall x: nat | Has(buf, x) && x != sn
        ensures Has(buf[..n] + buf[n + 1..], x)
      {
        HasWithout(buf, n, x);
      }
    }
  }

  lemma {:induction false} FastAckKeeps(buf: seq<Segment>, sn: nat, ts: nat)
    ensures SameSegments(buf, FastAckBuf(false, buf, sn, ts))
    decreases |buf|
  {
    if buf != [] && sn >= buf[0].sn {
      FastAckKeeps(buf[1..], sn, ts);
    }
  }

  /** The count of a segment moves by one, modulo 2^32, or not at all. */
  function Counted(seg: Segment, counts: bool): Segment
  {
    if counts then seg.(fastAck := (seg.fastAck + 1) % 0x1_0000_0000) else seg
  }

  /** The first n segments are those before the first number above sn; of them, the older ones are counted. */
  ghost predicate CountedUpto(wrap: bool, buf: seq<Segment>, buf': seq<Segment>, sn: nat, ts: nat, n: nat)
  {
    && n <= |buf| == |buf'|
    && (forall i {:trigger buf[i]} :: 0 <= i < n ==> Diff(wrap, sn, buf[i].sn) >= 0)
    && (n < |buf| ==> Diff(wrap, sn, buf[n].sn) < 0)
    && forall i {:trigger buf[i]} :: 0 <= i < |buf| ==>
         buf'[i] == Counted(buf[i], i < n && buf[i].sn != sn && TimeDiff(ts, buf[i].ts) >= 0)
  }

  lemma {:induction false} FastAckScan(wrap: bool, buf: seq<Segment>, sn: nat, ts: nat) returns (n: nat)
    ensures CountedUpto(wrap, buf, FastAckBuf(wrap, buf, sn, ts), sn, ts, n)
    decreases |buf|
  {
    hide Diff, TimeDiff;
    if buf == [] || Diff(wrap, sn, buf[0].sn) < 0 {
      n := 0;
    } else {
      var rest := buf[1..];
      var m := FastAckScan(wrap, rest, sn, ts);
      n := m + 1;
      forall i | 0 <= i < |buf|
        ensures FastAckBuf(wrap, buf, sn, ts)[i]
             == Counted(buf[i], i < n && buf[i].sn != sn && TimeDiff(ts, buf[i].ts) >= 0)
        ensures i < n ==> Diff(wrap, sn, buf[i].sn) >= 0
      {
        if i > 0 {
          assert buf[i] == rest[i - 1];
        }
      }
    }
  }

  lemma {:induction false} SameKeepsOrder(a: seq<Segment>, b: seq<Segment>, lo: nat, hi: nat)
    requires SameSegments(a, b)
    ensures Ordered(a, lo, hi) <==> Ordered(b, lo, hi)
    ensures forall sn: nat :: Has(a, sn) <==> Has(b, sn)
  {
    forall sn: nat
      ensures Has(a, sn) <==> Has(b, sn)
    {
      if Has(a, sn) {
        var i :| 0 <= i < |a| && a[i].sn == sn;
        assert b[i].sn == sn;
      }
      if Has(b, sn) {
        var i :| 0 <= i < |b| && b[i].sn == sn;
        assert a[i].sn == sn;
      }
    }
  }

  // ---------------------------------------------------------------- insertion

  /** Insertion adds the segment exactly when its number is new, and keeps the order. */
  lemma {:induction false} InsertSpec(buf: seq<Segment>, seg: Segment, lo: nat, hi: nat)
    requires Ordered(buf, lo, hi) && lo <= seg.sn < hi
    ensures var b := Insert(false, buf, seg);
            && Ordered(b, lo, hi)
            && (forall s :: s in b <==> s in buf || (s == seg && !Has(buf, seg.sn)))
    ensures Has(buf, seg.sn) ==> Insert(false, buf, seg) == buf
    ensures !Has(buf, seg.sn) ==> |Insert(false, buf, seg)| == |buf| + 1
    decreases |buf|
  {
    if buf != [] {
      var init, last := buf[..|buf| - 1], buf[|buf| - 1];
      assert buf == init + [last];
      assert Ordered(init, lo, last.sn);
      HasSnoc(init, last, seg.sn);
      if seg.sn < last.sn {
        InsertSpec(init, seg, lo, last.sn);
        OrderedSnoc(Insert(false, init, seg), last, lo, hi);
      } else if seg.sn > last.sn {
        OrderedSnoc(buf, seg, lo, hi);
        forall i | 0 <= i < |buf|
          ensures buf[i].sn != seg.sn
        {
          assert buf[i].sn <= last.sn;
        }
      }
    }
  }

  lemma {:induction false} OrderedSnoc(buf: seq<Segment>, last: Segment, lo: nat, hi: nat)
    requires Ordered(buf, lo, last.sn) && lo <= last.sn < hi
    ensures Ordered(buf + [last], lo, hi)
  {
  }

  lemma {:induction false} HasSnoc(init: seq<Segment>, last: Segment, sn: nat)
    ensures Has(init + [last], sn) <==> Has(init, sn) || last.sn == sn
  {
    var buf := init + [last];
    if Has(init, sn) {
      var i :| 0 <= i < |init| && init[i].sn == sn;
      assert buf[i].sn == sn;
    }
    if last.sn == sn {
      assert buf[|init|].sn == sn;
    }
  }

  lemma {:induction false} HasMember(buf: seq<Segment>, sn: nat)
    ensures Has(buf, sn) <==> exists s :: s in buf && s.sn == sn
  {
    if Has(buf, sn) {
      var i :| 0 <= i < |buf| && buf[i].sn == sn;
      assert buf[i] in buf;
    }
  }

  // ---------------------------------------------------------------- draining

  /** Draining moves the first n buffered segments, numbered nxt, nxt + 1, ..., to the queue. */
  lemma {:induction false} DrainSpec(r: Receiver, wnd: nat) returns (n: nat)
    ensures n <= |r.buf|
    ensures Drain(false, r, wnd) == Receiver(r.nxt + n, r.queue + r.buf[..n], r.buf[n..], r.acks)
    ensures forall i :: 0 <= i < n ==> r.buf[i].sn == r.nxt + i
    ensures |r.queue| <= wnd ==> |r.queue| + n <= wnd
    ensures n < |r.buf| ==> r.buf[n].sn != r.nxt + n || |r.queue| + n >= wnd
    decreases |r.buf|
  {
    if r.buf != [] && r.buf[0].sn == r.nxt && |r.queue| < wnd {
      var r1 := Receiver(r.nxt + 1, r.queue + [r.buf[0]], r.buf[1..], r.acks);
      var m := DrainSpec(r1, wnd);
      n := m + 1;
      assert r.queue + [r.buf[0]] + r.buf[1..][..m] == r.queue + r.buf[..n];
      assert r.buf[1..][m..] == r.buf[n..];
      forall i | 0 <= i < n
        ensures r.buf[i].sn == r.nxt + i
      {
        assert i > 0 ==> r.buf[i] == r1.buf[i - 1];
      }
      if n < |r.buf| {
        assert r1.buf[m] == r.buf[n];
      }
    } else {
      n := 0;
      assert r.queue + r.buf[..0] == r.queue;
    }
  }
}
