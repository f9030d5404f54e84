/** ikcp_send appends to the queued byte stream exactly the octets it reports, in both modes. */
module KcpSending {
  import opened Bytes
  import opened KcpSpec
  import opened KcpMessages

  predicate AllWithin(segs: seq<Segment>, mss: nat)
  {
    forall i :: 0 <= i < |segs| ==> |segs[i].data| <= mss
  }

  lemma {:induction false} JoinAppend(a: seq<Segment>, b: seq<Segment>)
    ensures Join(a + b) == Join(a) + Join(b)
    decreases |b|
  {
    hide *;
    if b == [] {
      JoinNone(a);
      assert b == [] && a + b == a;
    } else {
      var init, last := b[..|b| - 1], b[|b| - 1];
      JoinAppend(a, init);
      JoinLast(a + init, last);
      JoinLast(init, last);
      assert a + init + [last] == a + b && init + [last] == b;
      JoinedApart(Join(a), Join(init), last.data);
    }
  }

  lemma {:induction false} JoinNone(segs: seq<Segment>)
    ensures Join(segs) == Join(segs) + Join([])
  {
    hide Join;
    assert Join([]) == [] by {
      JoinEmpty();
    }
  }

  lemma {:induction false} JoinEmpty()
    ensures Join([]) == []
  {
  }

  lemma {:induction false} JoinLast(segs: seq<Segment>, last: Segment)
    ensures Join(segs + [last]) == Join(segs) + last.data
  {
    assert (segs + [last])[..|segs|] == segs;
  }

  lemma {:induction false} JoinedApart(a: seq<byte>, b: seq<byte>, c: seq<byte>)
    ensures a + b + c == a + (b + c)
  {
  }

  lemma {:induction false} JoinOne(s: Segment)
    ensures Join([s]) == s.data
  {
    assert [s][..0] == [];
  }

  lemma {:induction false} FragmentsFirst(msg: seq<byte>, mss: nat, count: nat, stream: bool)
    requires mss > 0 && count > 0
    ensures var size := Min(|msg|, mss);
            Fragments(msg, mss, count, stream)
            == [Blank(if stream then 0 else count - 1, msg[..size])] + Fragments(msg[size..], mss, count - 1, stream)
  {
  }

  lemma {:induction false} FragmentsNone(msg: seq<byte>, mss: nat, stream: bool)
    requires mss > 0 && |msg| <= Product(0, mss)
    ensures Fragments(msg, mss, 0, stream) == [] && msg == [] && Join([]) == [] && AllWithin([], mss)
  {
    hide Fragments;
    assert Fragments(msg, mss, 0, stream) == [];
  }

  lemma {:induction false} RestCovers(len: nat, mss: nat, count: nat)
    requires mss > 0 && count > 0 && len <= Product(count, mss)
    ensures len - Min(len, mss) <= Product(count - 1, mss)
  {
    RestFits(len, mss, count);
  }

  lemma {:induction false} MinBounds(a: nat, b: nat)
    ensures 0 <= Min(a, b) <= a && Min(a, b) <= b
  {
  }

  lemma {:induction false} BlankCarries(frg: nat, data: seq<byte>)
    ensures Blank(frg, data).data == data
  {
  }

  lemma {:induction false} WithinCons(s: Segment, rest: seq<Segment>, mss: nat)
    requires |s.data| <= mss && AllWithin(rest, mss)
    ensures AllWithin([s] + rest, mss)
  {
  }

  /** Fragments that cover the payload carry it whole, none longer than mss. */
  lemma {:induction false} FragmentsCarry(msg: seq<byte>, mss: nat, count: nat, stream: bool)
    requires mss > 0 && |msg| <= Product(count, mss)
    ensures Join(Fragments(msg, mss, count, stream)) == msg
    ensures AllWithin(Fragments(msg, mss, count, stream), mss)
    decreases count
  {
    hide *;
    if count == 0 {
      FragmentsNone(msg, mss, stream);
    } else {
      var size := Min(|msg|, mss);
      MinBounds(|msg|, mss);
      RestCovers(|msg|, mss, count);
      var first := Blank(if stream then 0 else count - 1, msg[..size]);
      var rest := Fragments(msg[size..], mss, count - 1, stream);
      FragmentsCarry(msg[size..], mss, count - 1, stream);
      FragmentsFirst(msg, mss, count, stream);
      JoinAppend([first], rest);
      JoinOne(first);
      BlankCarries(if stream then 0 else count - 1, msg[..size]);
      WithinCons(first, rest, mss);
      assert msg[..size] + msg[size..] == msg;
    }
  }

  lemma {:induction false} ReplaceLast(queue: seq<Segment>, more: seq<byte>, mss: nat)
    requires queue != [] && AllWithin(queue, mss) && |queue[|queue| - 1].data| + |more| <= mss
    ensures var last := |queue| - 1;
            var q := queue[..last] + [Blank(0, queue[last].data + more)];
            Join(q) == Join(queue) + more && AllWithin(q, mss)
  {
    var init, last := queue[..|queue| - 1], queue[|queue| - 1];
    var next := Blank(0, last.data + more);
    JoinAppend(init, [last]);
    JoinAppend(init, [next]);
    JoinOne(last);
    JoinOne(next);
    assert queue == init + [last];
    hide Join;
    assert Join(init) + (last.data + more) == Join(init) + last.data + more;
  }

  lemma {:induction false} ExtendedCarries(cfg: Config, snd: Sender, msg: seq<byte>)
    requires ValidConfig(cfg) && AllWithin(snd.queue, cfg.Mss())
    ensures var s, e := Extended(cfg, snd, msg), Extension(cfg, snd, msg);
            && Join(s.queue) == Join(snd.queue) + msg[..e] && AllWithin(s.queue, cfg.Mss())
            && |s.queue| == |snd.queue| && s == snd.(queue := s.queue)
    ensures Extension(cfg, snd, msg) == 0 && msg != [] ==> Extended(cfg, snd, msg) == snd
  {
    var e := Extension(cfg, snd, msg);
    assert msg[..0] == [];
    hide Join;
    if cfg.stream && snd.queue != [] && |snd.queue[|snd.queue| - 1].data| < cfg.Mss() {
      ReplaceLast(snd.queue, msg[..e], cfg.Mss());
    }
  }

  lemma {:induction false} QueueCarries(queue: seq<Segment>, rest: seq<byte>, mss: nat, stream: bool)
    requires mss > 0 && AllWithin(queue, mss)
    ensures var q := queue + Fragments(rest, mss, FragmentCount(|rest|, mss), stream);
            Join(q) == Join(queue) + rest && AllWithin(q, mss)
  {
    FragmentsCover(|rest|, mss);
    FragmentsCarry(rest, mss, FragmentCount(|rest|, mss), stream);
    hide Fragments, FragmentCount, Join;
    JoinAppend(queue, Fragments(rest, mss, FragmentCount(|rest|, mss), stream));
  }

  /**
   In both modes a result ret >= 0 means that the first ret octets, and nothing else, were added to
   the queued octets; a negative result leaves the control block as it was.  No segment exceeds mss.
   Message mode takes all or nothing, and refuses exactly what needs 128 segments or more.
   */
  lemma {:induction false} SendAppends(k: Kcb, msg: seq<byte>)
    requires ValidConfig(k.cfg) && AllWithin(k.snd.queue, k.cfg.Mss())
    ensures var (k', ret) := Send(k, msg);
            && AllWithin(k'.snd.queue, k.cfg.Mss())
            && k' == k.(snd := k.snd.(queue := k'.snd.queue))
            && (ret >= 0 ==> ret <= |msg| && Join(k'.snd.queue) == Join(k.snd.queue) + msg[..ret])
            && (ret < 0 ==> ret == -2 && k' == k)
            && (!k.cfg.stream ==> ret == if FragmentCount(|msg|, k.cfg.Mss()) < WND_RCV then |msg| else -2)
  {
    var mss, e, s := k.cfg.Mss(), Extension(k.cfg, k.snd, msg), Extended(k.cfg, k.snd, msg);
    ExtendedCarries(k.cfg, k.snd, msg);
    NoExtension(k.cfg, k.snd, msg);
    QueueCarries(s.queue, msg[e..], mss, k.cfg.stream);
    SplitAt(Join(k.snd.queue), msg, e);
    hide Join, Fragments, FragmentCount, Extended, Extension, AllWithin, ValidConfig;
  }

  lemma {:induction false} SplitAt(front: seq<byte>, msg: seq<byte>, e: nat)
    requires e <= |msg|
    ensures front + msg[..e] + msg[e..] == front + msg && msg[..|msg|] == msg && (e == 0 ==> msg[e..] == msg)
  {
    assert msg[..e] + msg[e..] == msg;
  }

  // ---------------------------------------------------------------- stream mode

  /** Every queued segment but the last is full, none is empty, and no fragment counts down. */
  predicate Packed(queue: seq<Segment>, mss: nat)
  {
    && (forall i :: 0 <= i < |queue| ==> queue[i].frg == 0 && 0 < |queue[i].data| <= mss)
    && forall i :: 0 <= i < |queue| - 1 ==> |queue[i].data| == mss
  }

  lemma {:induction false} PackedCons(s: Segment, rest: seq<Segment>, mss: nat)
    requires Packed(rest, mss) && s.frg == 0 && 0 < |s.data| <= mss && (rest != [] ==> |s.data| == mss)
    ensures Packed([s] + rest, mss)
  {
  }

  /** The fragments of a stream: full but for the last. */
  lemma {:induction false} FragmentsPacked(msg: seq<byte>, mss: nat, count: nat)
    requires mss > 0 && |msg| <= Product(count, mss) && (count > 0 ==> Product(count - 1, mss) < |msg|)
    ensures Packed(Fragments(msg, mss, count, true), mss) && (count > 0 ==> Fragments(msg, mss, count, true) != [])
    decreases count
  {
    if count == 0 {
      assert Product(0, mss) == 0;
    } else {
      var size := Min(|msg|, mss);
      RestCovers(|msg|, mss, count);
      RestExceeds(|msg|, mss, count);
      FragmentsFirst(msg, mss, count, true);
      hide Fragments, Product, Packed;
      FragmentsPacked(msg[size..], mss, count - 1);
      PackedCons(Blank(0, msg[..size]), Fragments(msg[size..], mss, count - 1, true), mss);
    }
  }

  lemma {:induction false} RestExceeds(len: nat, mss: nat, count: nat)
    requires mss > 0 && count > 0 && Product(count - 1, mss) < len
    ensures count > 1 ==> Product(count - 2, mss) < len - mss && Min(len, mss) == mss
    ensures count == 1 ==> len > 0
  {
    if count > 1 {
      assert Product(count - 1, mss) == Product(count - 2, mss) + mss;
    }
  }

  lemma {:induction false} PackedJoin(a: seq<Segment>, b: seq<Segment>, mss: nat)
    requires Packed(a, mss) && Packed(b, mss) && (a != [] && b != [] ==> |a[|a| - 1].data| == mss)
    ensures Packed(a + b, mss)
  {
  }

  lemma {:induction false} ExtendedPacked(cfg: Config, snd: Sender, msg: seq<byte>)
    requires ValidConfig(cfg) && cfg.stream && Packed(snd.queue, cfg.Mss())
    ensures var q, e := Extended(cfg, snd, msg).queue, Extension(cfg, snd, msg);
            Packed(q, cfg.Mss()) && (e < |msg| && q != [] ==> |q[|q| - 1].data| == cfg.Mss())
  {
  }

  /** Room in the last queued segment. */
  function Room(queue: seq<Segment>, mss: nat): nat
  {
    if queue != [] && |queue[|queue| - 1].data| < mss then mss - |queue[|queue| - 1].data| else 0
  }

  /**
   Stream mode keeps the queue packed.  It takes everything that needs fewer than 128 new segments,
   and of more only what the last queued segment has room for, or nothing with -2.
   */
  lemma {:induction false} StreamSends(k: Kcb, msg: seq<byte>)
    requires ValidConfig(k.cfg) && k.cfg.stream && Packed(k.snd.queue, k.cfg.Mss())
    ensures var (k', ret) := Send(k, msg);
            var e := Min(|msg|, Room(k.snd.queue, k.cfg.Mss()));
            && Packed(k'.snd.queue, k.cfg.Mss())
            && ret == (if FragmentCount(|msg| - e, k.cfg.Mss()) < 128 then |msg| else if e > 0 then e else -2)
  {
    var mss, e, s := k.cfg.Mss(), Extension(k.cfg, k.snd, msg), Extended(k.cfg, k.snd, msg);
    ExtendedPacked(k.cfg, k.snd, msg);
    assert e == Min(|msg|, Room(k.snd.queue, mss));
    var rest := msg[e..];
    if rest != [] {
      var count := FragmentCount(|rest|, mss);
      FragmentsCover(|rest|, mss);
      hide Fragments, Packed, FragmentCount;
      FragmentsPacked(rest, mss, count);
      PackedJoin(s.queue, Fragments(rest, mss, count, true), mss);
    } else {
      NothingLeft(mss);
    }
    hide Extended, Extension, FragmentCount, Fragments, Packed, ValidConfig;
  }

  lemma {:induction false} NothingLeft(mss: nat)
    requires mss > 0
    ensures FragmentCount(0, mss) == 1
  {
  }

  lemma {:induction false} JoinFirst(q: seq<Segment>)
    requires q != []
    ensures Join(q) == q[0].data + Join(q[1..])
  {
    JoinAppend([q[0]], q[1..]);
    JoinOne(q[0]);
    assert q == [q[0]] + q[1..];
  }

  lemma {:induction false} PackedTail(q: seq<Segment>, mss: nat)
    requires Packed(q, mss) && q != []
    ensures Packed(q[1..], mss) && |q[0].data| > 0 && (|q| > 1 ==> |q[0].data| == mss) && |q[0].data| <= mss
  {
    assert forall i :: 0 <= i < |q| - 1 ==> q[1..][i] == q[i + 1];
  }

  /** So the queued payloads depend on the queued octets alone, not on how they were cut into calls. */
  lemma {:induction false} PackedUnique(a: seq<Segment>, b: seq<Segment>, mss: nat)
    requires Packed(a, mss) && Packed(b, mss) && Join(a) == Join(b)
    ensures |a| == |b| && forall i :: 0 <= i < |a| ==> a[i].data == b[i].data
    decreases |a|
  {
    hide Join, Packed;
    JoinEmpty();
    if a == [] || b == [] {
      NotEmpty(a, mss);
      NotEmpty(b, mss);
    } else {
      PackedTail(a, mss);
      PackedTail(b, mss);
      JoinFirst(a);
      JoinFirst(b);
      SameFirst(a, b, mss);
      PackedUnique(a[1..], b[1..], mss);
      forall i | 0 <= i < |a|
        ensures a[i].data == b[i].data
      {
        if i > 0 {
          assert a[i] == a[1..][i - 1] && b[i] == b[1..][i - 1];
        }
      }
    }
  }

  lemma {:induction false} NotEmpty(q: seq<Segment>, mss: nat)
    requires Packed(q, mss)
    ensures q == [] <==> Join(q) == []
  {
    JoinEmpty();
    if q != [] {
      PackedTail(q, mss);
      JoinFirst(q);
    }
    hide Join, Packed;
  }

  lemma {:induction false} SameFirst(a: seq<Segment>, b: seq<Segment>, mss: nat)
    requires a != [] && b != [] && Packed(a[1..], mss) && Packed(b[1..], mss)
    requires 0 < |a[0].data| <= mss && 0 < |b[0].data| <= mss
    requires (|a| > 1 ==> |a[0].data| == mss) && (|b| > 1 ==> |b[0].data| == mss)
    requires a[0].data + Join(a[1..]) == b[0].data + Join(b[1..])
    ensures a[0].data == b[0].data && Join(a[1..]) == Join(b[1..])
  {
    NotEmpty(a[1..], mss);
    NotEmpty(b[1..], mss);
    hide Join, Packed;
    var s := a[0].data + Join(a[1..]);
    assert |a[0].data| == |b[0].data|;
    assert a[0].data == s[..|a[0].data|] && b[0].data == s[..|b[0].data|];
    assert Join(a[1..]) == s[|a[0].data|..] && Join(b[1..]) == s[|b[0].data|..];
  }
}
