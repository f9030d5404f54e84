/**
 One direction of a KCP conversation: what a sender, the packets in the network and the far
 receiver agree on, and why every operation keeps it.  Sequence numbers are unbounded here.
 */
module KcpFlow {
  import opened Bytes
  import opened KcpSpec
  import opened KcpLists
  import opened KcpMessages

  /**
   Every datagram ever put on the wire in one direction; any of them may arrive, in any order, any number
   of times.
   */
  type Network = seq<seq<Packet>>

  ghost predicate Sent(net: Network, p: Packet)
  {
    exists i :: 0 <= i < |net| && p in net[i]
  }

  // ---------------------------------------------------------------- the parts of the invariant

  ghost predicate Carries(buf: seq<Segment>, s: seq<Frag>)
  {
    forall i :: 0 <= i < |buf| ==> buf[i].sn < |s| && FragOf(buf[i]) == s[buf[i].sn]
  }

  /** snd_una is the head of snd_buf, or snd_nxt when nothing is outstanding. */
  predicate UnaIsHead(snd: Sender)
  {
    snd.una == if snd.buf != [] then snd.buf[0].sn else snd.nxt
  }

  ghost predicate SenderOk(snd: Sender, wnd: nat, s: seq<Frag>)
  {
    && snd.una <= snd.nxt <= |s| && snd.nxt - snd.una <= wnd
    && FragsOf(snd.queue) == s[snd.nxt..]
    && Ordered(snd.buf, snd.una, snd.nxt) && UnaIsHead(snd)
    && Carries(snd.buf, s)
  }

  /** The receiver already has the segment: delivered to rcv_queue or waiting in rcv_buf. */
  ghost predicate Held(r: Receiver, sn: nat)
  {
    sn < r.nxt || Has(r.buf, sn)
  }

  ghost predicate ReceiverOk(r: Receiver, wnd: nat, limit: nat, s: seq<Frag>)
  {
    && r.nxt <= limit <= |s|
    && Ordered(r.buf, r.nxt, limit) && Ordered(r.buf, r.nxt, r.nxt + wnd)
    && Carries(r.buf, s)
    && |r.queue| <= r.nxt && |r.queue| <= wnd
    && FragsOf(r.queue) == s[r.nxt - |r.queue|..r.nxt]
    && forall a :: a in r.acks ==> Held(r, a.sn)
  }

  /** What the application has taken is a prefix of what was sent, and rcv_queue starts right after it. */
  ghost predicate Delivered(r: Receiver, sent: seq<Msg>, got: seq<Msg>, mss: nat)
    requires mss > 0
  {
    && |got| <= |sent| && got == sent[..|got|]
    && r.nxt - |r.queue| == |Stream(got, mss)|
  }

  ghost predicate DataGenuine(p: Packet, limit: nat, s: seq<Frag>)
  {
    p.cmd == CMD_PUSH as int ==> p.sn < limit && p.sn < |s| && Frag(p.frg, p.data) == s[p.sn]
  }

  ghost predicate AckGenuine(p: Packet, r: Receiver)
  {
    p.una <= r.nxt && (p.cmd == CMD_ACK as int ==> Held(r, p.sn))
  }

  ghost predicate Forward(net: Network, limit: nat, s: seq<Frag>)
  {
    forall p :: Sent(net, p) ==> DataGenuine(p, limit, s)
  }

  ghost predicate Backward(net: Network, r: Receiver)
  {
    forall p :: Sent(net, p) ==> AckGenuine(p, r)
  }

  /** No segment is forgotten by the sender before the receiver holds it. */
  ghost predicate NoLoss(snd: Sender, r: Receiver)
  {
    forall sn: nat :: sn < snd.nxt ==> Has(snd.buf, sn) || Held(r, sn)
  }

  ghost predicate Flow(snd: Sender, sndWnd: nat, mss: nat, r: Receiver, rcvWnd: nat,
                       fwd: Network, back: Network, sent: seq<Msg>, got: seq<Msg>)
  {
    && mss > 0 && AllSendable(sent, mss)
    && var s := Stream(sent, mss);
    && SenderOk(snd, sndWnd, s) && ReceiverOk(r, rcvWnd, snd.nxt, s)
    && Delivered(r, sent, got, mss)
    && Forward(fwd, snd.nxt, s) && Backward(back, r)
    && NoLoss(snd, r)
  }

  // ---------------------------------------------------------------- sending

  /** The stream only grows, so everything said about it stays true. */
  lemma {:induction false} StreamGrows(snd: Sender, sw: nat, r: Receiver, rw: nat, fwd: Network, s: seq<Frag>,
                                       c: seq<Frag>, segs: seq<Segment>)
    requires SenderOk(snd, sw, s) && ReceiverOk(r, rw, snd.nxt, s) && Forward(fwd, snd.nxt, s)
    requires FragsOf(segs) == c
    ensures SenderOk(snd.(queue := snd.queue + segs), sw, s + c)
    ensures ReceiverOk(r, rw, snd.nxt, s + c) && Forward(fwd, snd.nxt, s + c)
  {
    hide Has, Sent, Ordered;
    FragsOfAppend(snd.queue, segs);
    assert (s + c)[snd.nxt..] == s[snd.nxt..] + c;
    assert (s + c)[r.nxt - |r.queue|..r.nxt] == s[r.nxt - |r.queue|..r.nxt];
  }

  lemma {:induction false} SendKeeps(snd: Sender, sw: nat, mss: nat, r: Receiver, rw: nat, fwd: Network, back: Network,
                  sent: seq<Msg>, got: seq<Msg>, msg: Msg)
    requires Flow(snd, sw, mss, r, rw, fwd, back, sent, got) && Sendable(msg, mss)
    ensures var segs := Fragments(msg, mss, FragmentCount(|msg|, mss), false);
            Flow(snd.(queue := snd.queue + segs), sw, mss, r, rw, fwd, back, sent + [msg], got)
  {
    hide Has, SenderOk, ReceiverOk, Forward, Backward, Stream, Fragments, FragsOf;
    var segs := Fragments(msg, mss, FragmentCount(|msg|, mss), false);
    var s := Stream(sent, mss);
    StreamSnoc(sent, msg, mss);
    assert Cut(msg, mss) == FragsOf(segs);
    StreamGrows(snd, sw, r, rw, fwd, s, FragsOf(segs), segs);
    assert (sent + [msg])[..|got|] == sent[..|got|];
    var snd' := snd.(queue := snd.queue + segs);
    assert snd'.nxt == snd.nxt && snd'.buf == snd.buf;
  }

  // ---------------------------------------------------------------- acknowledgements reaching the sender

  /** Any change of the sender that keeps numbers and payloads and forgets only held segments. */
  ghost predicate Forgets(snd: Sender, snd': Sender, r: Receiver)
  {
    && snd'.nxt == snd.nxt && snd'.queue == snd.queue
    && Ordered(snd'.buf, snd.una, snd.nxt)
    && (forall s :: s in snd'.buf ==> s in snd.buf)
    && (forall sn: nat :: Has(snd.buf, sn) ==> Has(snd'.buf, sn) || Held(r, sn))
    && UnaIsHead(snd')
  }

  lemma {:induction false} ForgetsKeeps(snd: Sender, snd': Sender, sw: nat, mss: nat, r: Receiver, rw: nat,
                                        fwd: Network, back: Network,
                     sent: seq<Msg>, got: seq<Msg>)
    requires Flow(snd, sw, mss, r, rw, fwd, back, sent, got) && Forgets(snd, snd', r)
    ensures Flow(snd', sw, mss, r, rw, fwd, back, sent, got)
    ensures snd.una <= snd'.una
  {
    hide Has, ReceiverOk, Forward, Backward, Stream, FragsOf, Delivered;
    var s := Stream(sent, mss);
    assert Carries(snd'.buf, s) by {
      forall i | 0 <= i < |snd'.buf|
        ensures snd'.buf[i].sn < |s| && FragOf(snd'.buf[i]) == s[snd'.buf[i].sn]
      {
        assert snd'.buf[i] in snd.buf;
      }
    }
    assert Ordered(snd'.buf, snd'.una, snd'.nxt);
  }

  lemma {:induction false} HeaderForgets(snd: Sender, r: Receiver, una: nat)
    requires Ordered(snd.buf, snd.una, snd.nxt) && una <= r.nxt
    ensures Forgets(snd, Shrink(snd.(buf := DropAcked(false, snd.buf, una))), r)
  {
    DropAckedKeeps(snd.buf, una, snd.una, snd.nxt);
    hide Has, DropAcked;
  }

  lemma {:induction false} AckForgets(snd: Sender, r: Receiver, sn: nat)
    requires Ordered(snd.buf, snd.una, snd.nxt) && UnaIsHead(snd) && Held(r, sn)
    ensures Forgets(snd, Shrink(ParseAck(false, snd, sn)), r)
  {
    RemoveSnKeeps(snd.buf, sn, snd.una, snd.nxt);
    hide Has, RemoveSn;
  }

  /** Timers and counters of outstanding segments do not matter. */
  lemma {:induction false} SameFlow(snd: Sender, buf: seq<Segment>, sw: nat, mss: nat, r: Receiver, rw: nat,
                                    fwd: Network, back: Network,
                 sent: seq<Msg>, got: seq<Msg>)
    requires Flow(snd, sw, mss, r, rw, fwd, back, sent, got) && SameSegments(snd.buf, buf)
    ensures Flow(snd.(buf := buf), sw, mss, r, rw, fwd, back, sent, got)
  {
    SameKeepsOrder(snd.buf, buf, snd.una, snd.nxt);
    hide Has, ReceiverOk, Forward, Backward, Stream, FragsOf, Delivered, Ordered;
  }

  lemma {:induction false} FastAckFlow(snd: Sender, sn: nat, ts: nat, sw: nat, mss: nat, r: Receiver, rw: nat,
                                       fwd: Network, back: Network,
                    sent: seq<Msg>, got: seq<Msg>)
    requires Flow(snd, sw, mss, r, rw, fwd, back, sent, got)
    ensures Flow(ParseFastAck(false, snd, sn, ts), sw, mss, r, rw, fwd, back, sent, got)
  {
    hide Flow;
    if Outstanding(false, snd, sn) {
      FastAckKeeps(snd.buf, sn, ts);
      SameFlow(snd, FastAckBuf(false, snd.buf, sn, ts), sw, mss, r, rw, fwd, back, sent, got);
    }
  }

  // ---------------------------------------------------------------- data reaching the receiver

  /** The receiver only learns: nothing held is lost and rcv_nxt never goes back. */
  ghost predicate Learns(r: Receiver, r': Receiver)
  {
    r.nxt <= r'.nxt && forall sn: nat :: Held(r, sn) ==> Held(r', sn)
  }

  lemma {:induction false} LearnsKeeps(r: Receiver, r': Receiver, snd: Sender, back: Network)
    requires Learns(r, r') && Backward(back, r) && NoLoss(snd, r)
    ensures Backward(back, r') && NoLoss(snd, r')
  {
    hide Held, Sent, Has;
  }

  lemma {:induction false} HasSuffix(buf: seq<Segment>, n: nat, sn: nat)
    requires n <= |buf| && Has(buf, sn)
    ensures Has(buf[n..], sn) || exists i :: 0 <= i < n && buf[i].sn == sn
  {
    var i :| 0 <= i < |buf| && buf[i].sn == sn;
    if i >= n {
      assert buf[n..][i - n].sn == sn;
    }
  }

  lemma {:induction false} DrainLearns(r: Receiver, r': Receiver, n: nat)
    requires n <= |r.buf| && r'.nxt == r.nxt + n && r'.buf == r.buf[n..]
    requires forall i :: 0 <= i < n ==> r.buf[i].sn == r.nxt + i
    ensures Learns(r, r')
  {
    hide Has;
    forall sn: nat | Held(r, sn)
      ensures Held(r', sn)
    {
      if sn >= r.nxt {
        HasSuffix(r.buf, n, sn);
      }
    }
  }

  lemma {:induction false} AcksStayHeld(r: Receiver, r': Receiver)
    requires Learns(r, r') && r'.acks == r.acks && forall a :: a in r.acks ==> Held(r, a.sn)
    ensures forall a :: a in r'.acks ==> Held(r', a.sn)
  {
    forall a | a in r'.acks
      ensures Held(r', a.sn)
    {
      assert Held(r, a.sn);
    }
  }

  /** Draining moves segments to the queue in sequence; nothing else changes. */
  lemma {:induction false} DrainKeeps(r: Receiver, wnd: nat, limit: nat, s: seq<Frag>)
    requires ReceiverOk(r, wnd, limit, s)
    ensures var r' := Drain(false, r, wnd);
            && ReceiverOk(r', wnd, limit, s) && Learns(r, r')
            && r'.nxt - |r'.queue| == r.nxt - |r.queue|
  {
    hide Has, Held, FragsOf, Ordered, Drain, Learns;
    var n := DrainSpec(r, wnd);
    var r' := Drain(false, r, wnd);
    DrainLearns(r, r', n);
    DrainedQueue(r, wnd, limit, s, n);
    DrainedOrder(r.buf, r.nxt, limit, n);
    DrainedOrder(r.buf, r.nxt, r.nxt + wnd, n);
    DrainedLimit(r.buf, r.nxt, limit, n);
    OrderedWeaken(r'.buf, r'.nxt, r.nxt + wnd, r'.nxt + wnd);
    AcksStayHeld(r, r');
  }

  lemma {:induction false} OrderedWeaken(buf: seq<Segment>, lo: nat, hi: nat, hi': nat)
    requires Ordered(buf, lo, hi) && hi <= hi'
    ensures Ordered(buf, lo, hi')
  {
  }

  lemma {:induction false} DrainedLimit(buf: seq<Segment>, nxt: nat, limit: nat, n: nat)
    requires Ordered(buf, nxt, limit) && nxt <= limit && n <= |buf|
    requires forall i :: 0 <= i < n ==> buf[i].sn == nxt + i
    ensures nxt + n <= limit
  {
    if n > 0 {
      assert buf[n - 1].sn == nxt + n - 1;
    }
  }

  lemma {:induction false} DrainedOrder(buf: seq<Segment>, nxt: nat, hi: nat, n: nat)
    requires Ordered(buf, nxt, hi) && n <= |buf|
    requires forall i :: 0 <= i < n ==> buf[i].sn == nxt + i
    ensures Ordered(buf[n..], nxt + n, hi)
  {
    if 0 < n < |buf| {
      assert buf[n - 1].sn < buf[n].sn;
    }
  }

  lemma {:induction false} DrainedQueue(r: Receiver, wnd: nat, limit: nat, s: seq<Frag>, n: nat)
    requires ReceiverOk(r, wnd, limit, s) && n <= |r.buf|
    requires forall i :: 0 <= i < n ==> r.buf[i].sn == r.nxt + i
    ensures r.nxt + n <= |s|
    ensures FragsOf(r.queue + r.buf[..n]) == s[r.nxt - |r.queue|..r.nxt + n]
  {
    hide Has, Held;
    FragsOfAppend(r.queue, r.buf[..n]);
    if n > 0 {
      assert r.buf[n - 1].sn == r.nxt + n - 1;
    }
    assert FragsOf(r.buf[..n]) == s[r.nxt..r.nxt + n];
    assert s[r.nxt - |r.queue|..r.nxt] + s[r.nxt..r.nxt + n] == s[r.nxt - |r.queue|..r.nxt + n];
  }

  /** Storing a genuine segment that lies in the window. */
  lemma {:induction false} InsertKeeps(r: Receiver, wnd: nat, limit: nat, s: seq<Frag>, seg: Segment)
    requires ReceiverOk(r, wnd, limit, s)
    requires r.nxt <= seg.sn < r.nxt + wnd && seg.sn < limit && FragOf(seg) == s[seg.sn]
    ensures var r' := r.(buf := Insert(false, r.buf, seg));
            ReceiverOk(r', wnd, limit, s) && Learns(r, r') && Held(r', seg.sn)
  {
    InsertSpec(r.buf, seg, r.nxt, limit);
    InsertSpec(r.buf, seg, r.nxt, r.nxt + wnd);
    var r' := r.(buf := Insert(false, r.buf, seg));
    hide Insert, Ordered, FragsOf;
    forall sn: nat
      ensures Has(r.buf, sn) ==> Has(r'.buf, sn)
    {
      HasMember(r.buf, sn);
      HasMember(r'.buf, sn);
    }
    HasMember(r.buf, seg.sn);
    HasMember(r'.buf, seg.sn);
    hide Has;
    assert Carries(r'.buf, s) by {
      forall i | 0 <= i < |r'.buf|
        ensures r'.buf[i].sn < |s| && FragOf(r'.buf[i]) == s[r'.buf[i].sn]
      {
        assert r'.buf[i] in r'.buf;
      }
    }
  }

  /** A genuine data packet, new or old, in the window or not. */
  lemma {:induction false} PushKeeps(r: Receiver, wnd: nat, limit: nat, s: seq<Frag>, p: Packet)
    requires ReceiverOk(r, wnd, limit, s)
    requires p.cmd == CMD_PUSH as int && DataGenuine(p, limit, s)
    ensures var r' := TakePush(false, r, wnd, p);
            && ReceiverOk(r', wnd, limit, s) && Learns(r, r')
            && r'.nxt - |r'.queue| == r.nxt - |r.queue|
  {
    hide Has, Ordered, FragsOf, Drain, Insert;
    if p.sn < r.nxt + wnd {
      if p.sn >= r.nxt {
        var r1 := r.(buf := Insert(false, r.buf, Arrived(p)));
        InsertKeeps(r, wnd, limit, s, Arrived(p));
        AckedHeld(r1, wnd, limit, s, p);
        var r2 := r1.(acks := r.acks + [Ack(p.sn, p.ts)]);
        DrainKeeps(r2, wnd, limit, s);
      } else {
        AckedHeld(r, wnd, limit, s, p);
      }
    }
  }

  lemma {:induction false} AckedHeld(r: Receiver, wnd: nat, limit: nat, s: seq<Frag>, p: Packet)
    requires ReceiverOk(r, wnd, limit, s) && Held(r, p.sn)
    ensures var r' := r.(acks := r.acks + [Ack(p.sn, p.ts)]);
            ReceiverOk(r', wnd, limit, s) && Learns(r, r')
  {
    hide Has, Ordered, FragsOf;
  }

  lemma {:induction false} PushFlow(snd: Sender, sw: nat, mss: nat, r: Receiver, rw: nat, fwd: Network, back: Network,
                 sent: seq<Msg>, got: seq<Msg>, p: Packet)
    requires Flow(snd, sw, mss, r, rw, fwd, back, sent, got)
    requires Sent(fwd, p) && p.cmd == CMD_PUSH as int
    ensures Flow(snd, sw, mss, TakePush(false, r, rw, p), rw, fwd, back, sent, got)
  {
    hide TakePush, ReceiverOk, Backward, NoLoss, Learns, Stream;
    var s := Stream(sent, mss);
    PushKeeps(r, rw, snd.nxt, s, p);
    LearnsKeeps(r, TakePush(false, r, rw, p), snd, back);
  }

  // ---------------------------------------------------------------- delivery to the application

  lemma {:induction false} MessageEndAt(queue: seq<Segment>, m: nat)
    requires 0 < m <= |queue|
    requires forall i :: 0 <= i < m ==> queue[i].frg == m - 1 - i
    ensures MessageEnd(queue) == m
    decreases m
  {
    if m > 1 {
      var tail := queue[1..];
      forall i | 0 <= i < m - 1
        ensures tail[i].frg == m - 2 - i
      {
        assert tail[i] == queue[i + 1];
      }
      MessageEndAt(tail, m - 1);
    }
  }

  /** The message at the head of rcv_queue, complete or not. */
  lemma {:induction false} HeadMessage(r: Receiver, wnd: nat, limit: nat, sent: seq<Msg>, got: seq<Msg>, mss: nat)
    requires mss > 0 && AllSendable(sent, mss)
    requires ReceiverOk(r, wnd, limit, Stream(sent, mss)) && Delivered(r, sent, got, mss) && r.queue != []
    ensures |got| < |sent|
    ensures var c := Cut(sent[|got|], mss);
            && 1 <= |c| < WND_RCV
            && r.queue[0].frg == |c| - 1
            && (|c| <= |r.queue| ==> FragsOf(r.queue)[..|c|] == c)
  {
    hide Cut, Has, Held, Ordered, Carries;
    var s := Stream(sent, mss);
    StreamPrefix(sent, |got|, mss);
    assert sent[..|sent|] == sent;
    StreamAt(sent, |got|, mss);
    var c := Cut(sent[|got|], mss);
    CutSpec(sent[|got|], mss);
    var k := r.nxt - |r.queue|;
    assert FragsOf(r.queue)[0] == s[k] == s[k..k + |c|][0] == c[0];
    if |c| <= |r.queue| {
      assert FragsOf(r.queue)[..|c|] == s[k..r.nxt][..|c|] == s[k..k + |c|];
    }
  }

  /** ikcp_peeksize finds a message exactly when all its fragments are there, and then it is the next one sent. */
  lemma {:induction false} PeekFindsMessage(r: Receiver, wnd: nat, limit: nat, sent: seq<Msg>, got: seq<Msg>, mss: nat)
    requires mss > 0 && AllSendable(sent, mss)
    requires ReceiverOk(r, wnd, limit, Stream(sent, mss)) && Delivered(r, sent, got, mss) && r.queue != []
    ensures |got| < |sent|
    ensures PeekSize(r.queue) >= 0 <==> |Cut(sent[|got|], mss)| <= |r.queue|
    ensures PeekSize(r.queue) >= 0 ==>
              && MessageEnd(r.queue) == |Cut(sent[|got|], mss)|
              && Join(r.queue[..MessageEnd(r.queue)]) == sent[|got|]
              && PeekSize(r.queue) == |sent[|got|]|
  {
    HeadMessage(r, wnd, limit, sent, got, mss);
    var msg := sent[|got|];
    var c := Cut(msg, mss);
    CutSpec(msg, mss);
    hide Cut, Stream, ReceiverOk, Delivered, Join, JoinFrags, MessageEnd, PeekSize;
    if |c| <= |r.queue| {
      CompleteHead(r.queue, c);
    }
    PeekCases(r.queue);
  }

  lemma {:induction false} PeekCases(queue: seq<Segment>)
    requires queue != []
    ensures PeekSize(queue) >= 0 <==> queue[0].frg + 1 <= |queue|
    ensures PeekSize(queue) >= 0 ==> PeekSize(queue) == |Join(queue[..MessageEnd(queue)])|
  {
    if queue[0].frg == 0 {
      assert queue[..1] == [queue[0]];
      assert Join(queue[..1][..0]) == [];
    }
  }

  lemma {:induction false} CompleteHead(queue: seq<Segment>, c: seq<Frag>)
    requires 1 <= |c| <= |queue| && FragsOf(queue)[..|c|] == c
    requires forall i :: 0 <= i < |c| ==> c[i].frg == |c| - 1 - i
    ensures MessageEnd(queue) == |c| && Join(queue[..|c|]) == JoinFrags(c)
  {
    forall i | 0 <= i < |c|
      ensures queue[i].frg == |c| - 1 - i
    {
      assert FragsOf(queue)[..|c|][i] == FragOf(queue[i]);
    }
    MessageEndAt(queue, |c|);
    JoinIsJoinFrags(queue[..|c|]);
    assert FragsOf(queue[..|c|]) == FragsOf(queue)[..|c|];
  }

  /** A full receive window always starts with a complete message, so the reader can make room. */
  lemma {:induction false} NeverWedged(r: Receiver, wnd: nat, limit: nat, sent: seq<Msg>, got: seq<Msg>, mss: nat)
    requires mss > 0 && AllSendable(sent, mss) && wnd >= WND_RCV
    requires ReceiverOk(r, wnd, limit, Stream(sent, mss)) && Delivered(r, sent, got, mss)
    requires |r.queue| >= wnd
    ensures PeekSize(r.queue) >= 0
    ensures |Join(r.queue[..MessageEnd(r.queue)])| == PeekSize(r.queue)
  {
    hide Cut, Stream, ReceiverOk, Delivered, Join, MessageEnd, PeekSize;
    HeadMessage(r, wnd, limit, sent, got, mss);
    PeekFindsMessage(r, wnd, limit, sent, got, mss);
    PeekCases(r.queue);
  }

  /** Taking the head message out of rcv_queue. */
  lemma {:induction false} TakeKeeps(r: Receiver, wnd: nat, limit: nat, sent: seq<Msg>, got: seq<Msg>, mss: nat)
    requires mss > 0 && AllSendable(sent, mss)
    requires ReceiverOk(r, wnd, limit, Stream(sent, mss)) && Delivered(r, sent, got, mss)
    requires r.queue != [] && PeekSize(r.queue) >= 0
    ensures |got| < |sent|
    ensures var r' := r.(queue := r.queue[MessageEnd(r.queue)..]);
            ReceiverOk(r', wnd, limit, Stream(sent, mss)) && Delivered(r', sent, got + [sent[|got|]], mss)
  {
    PeekFindsMessage(r, wnd, limit, sent, got, mss);
    StreamAt(sent, |got|, mss);
    hide Cut, Has, Held, Ordered, Carries, Join, MessageEnd, PeekSize, Stream, FragsOf;
    var n := MessageEnd(r.queue);
    assert sent[..|got| + 1] == got + [sent[|got|]];
    QueueTail(r.queue, Stream(sent, mss), r.nxt, n);
    var r' := r.(queue := r.queue[n..]);
    forall a | a in r'.acks
      ensures Held(r', a.sn)
    {
      SameHeld(r, r', a.sn);
    }
  }

  lemma {:induction false} QueueTail(queue: seq<Segment>, s: seq<Frag>, nxt: nat, n: nat)
    requires n <= |queue| <= nxt <= |s| && FragsOf(queue) == s[nxt - |queue|..nxt]
    ensures FragsOf(queue[n..]) == s[nxt - |queue[n..]|..nxt]
  {
    assert FragsOf(queue[n..]) == FragsOf(queue)[n..];
    assert s[nxt - |queue|..nxt][n..] == s[nxt - |queue| + n..nxt];
  }

  lemma {:induction false} SameHeld(r: Receiver, r': Receiver, sn: nat)
    requires r.nxt == r'.nxt && r.buf == r'.buf
    ensures Held(r, sn) <==> Held(r', sn)
  {
  }

  /** The messages handed out after a call of ikcp_recv with this result. */
  function GotAfter(got: seq<Msg>, len: int, ret: int, msg: Msg): seq<Msg>
  {
    if ret >= 0 && len >= 0 then got + [msg] else got
  }

  lemma {:induction false} RecvFlow(snd: Sender, sw: nat, mss: nat, k: Kcb, fwd: Network, back: Network,
                 sent: seq<Msg>, got: seq<Msg>, len: int)
    requires Flow(snd, sw, mss, k.rcv, k.cfg.rcvWnd, fwd, back, sent, got)
    ensures var (k', ret, msg) := Recv(false, k, len);
            Flow(snd, sw, mss, k'.rcv, k.cfg.rcvWnd, fwd, back, sent, GotAfter(got, len, ret, msg))
  {
    hide Drain, Backward, NoLoss, Stream, Join, MessageEnd, PeekSize, Has, Ordered, Forward, SenderOk, AllSendable;
    var r, wnd, s := k.rcv, k.cfg.rcvWnd, Stream(sent, mss);
    var (k', ret, msg) := Recv(false, k, len);
    if ret >= 0 && r.queue != [] {
      PeekFindsMessage(r, wnd, snd.nxt, sent, got, mss);
      var r1 := if len < 0 then r else r.(queue := r.queue[MessageEnd(r.queue)..]);
      if len >= 0 {
        TakeKeeps(r, wnd, snd.nxt, sent, got, mss);
      }
      hide ReceiverOk;
      DrainKeeps(r1, wnd, snd.nxt, s);
      assert Learns(r, r1);
      LearnsTransitive(r, r1, Drain(false, r1, wnd));
      LearnsKeeps(r, Drain(false, r1, wnd), snd, back);
    }
  }

  lemma {:induction false} LearnsTransitive(a: Receiver, b: Receiver, c: Receiver)
    requires Learns(a, b) && Learns(b, c)
    ensures Learns(a, c)
  {
    hide Held;
  }

  // ---------------------------------------------------------------- flushing

  /** Numbering the head of snd_queue and making it outstanding. */
  lemma {:induction false} LaunchOne(snd: Sender, seg: Segment, sw: nat, mss: nat, r: Receiver, rw: nat,
                                     fwd: Network, back: Network,
                  sent: seq<Msg>, got: seq<Msg>)
    requires Flow(snd, sw, mss, r, rw, fwd, back, sent, got)
    requires snd.queue != [] && snd.nxt < snd.una + sw
    requires seg.sn == snd.nxt && FragOf(seg) == FragOf(snd.queue[0])
    ensures Flow(snd.(nxt := snd.nxt + 1, queue := snd.queue[1..], buf := snd.buf + [seg]),
                 sw, mss, r, rw, fwd, back, sent, got)
  {
    hide Backward, Stream, Delivered, Held;
    var s := Stream(sent, mss);
    var snd' := snd.(nxt := snd.nxt + 1, queue := snd.queue[1..], buf := snd.buf + [seg]);
    assert SenderOk(snd', sw, s) by {
      LaunchSender(snd, seg, sw, s);
    }
    hide SenderOk;
    OrderedWeaken(r.buf, r.nxt, snd.nxt, snd'.nxt);
    hide Ordered;
    forall sn: nat
      ensures Has(snd'.buf, sn) <==> Has(snd.buf, sn) || sn == snd.nxt
    {
      HasSnoc(snd.buf, seg, sn);
    }
    hide Has, Sent;
  }

  lemma {:induction false} LaunchSender(snd: Sender, seg: Segment, sw: nat, s: seq<Frag>)
    requires SenderOk(snd, sw, s)
    requires snd.queue != [] && snd.nxt < snd.una + sw
    requires seg.sn == snd.nxt && FragOf(seg) == FragOf(snd.queue[0])
    ensures SenderOk(snd.(nxt := snd.nxt + 1, queue := snd.queue[1..], buf := snd.buf + [seg]), sw, s)
  {
    assert FragsOf(snd.queue)[0] == s[snd.nxt..][0] == s[snd.nxt];
    assert FragsOf(snd.queue[1..]) == FragsOf(snd.queue)[1..];
    assert s[snd.nxt..][1..] == s[snd.nxt + 1..];
    OrderedWeaken(snd.buf, snd.una, snd.nxt, seg.sn);
    OrderedSnoc(snd.buf, seg, snd.una, snd.nxt + 1);
    hide Ordered;
  }

  lemma {:induction false} LaunchFlow(k: Kcb, cwnd: nat, mss: nat, r: Receiver, rw: nat, fwd: Network, back: Network,
                                      sent: seq<Msg>, got: seq<Msg>)
    requires Flow(k.snd, k.cfg.sndWnd, mss, r, rw, fwd, back, sent, got) && cwnd <= k.cfg.sndWnd
    ensures var k' := Launch(false, k, cwnd);
            && Flow(k'.snd, k.cfg.sndWnd, mss, r, rw, fwd, back, sent, got)
            && k' == k.(snd := k'.snd) && k'.snd.una == k.snd.una
    decreases |k.snd.queue|
  {
    hide Flow;
    if k.snd.queue != [] && k.snd.nxt < k.snd.una + cwnd {
      var seg := Launched(k, k.snd.queue[0]);
      LaunchOne(k.snd, seg, k.cfg.sndWnd, mss, r, rw, fwd, back, sent, got);
      var snd := k.snd.(nxt := k.snd.nxt + 1, queue := k.snd.queue[1..], buf := k.snd.buf + [seg]);
      LaunchFlow(k.(snd := snd), cwnd, mss, r, rw, fwd, back, sent, got);
    }
  }

  /** A data packet the sweep emits: a segment of snd_buf under the current rcv_nxt. */
  ghost predicate Emitted(k: Kcb, p: Packet, n: nat)
    requires n <= |k.snd.buf|
  {
    && p.cmd == CMD_PUSH as int && p.conv == k.cfg.conv && p.una == k.rcv.nxt
    && p.wnd < 0x1_0000 && p.ts == k.tm.current
    && exists i ::
         0 <= i < n && p.sn == k.snd.buf[i].sn && p.frg == k.snd.buf[i].frg % 0x100 && p.data == k.snd.buf[i].data
  }

  lemma {:induction false} SweepSpec(k: Kcb, n: nat)
    requires n <= |k.snd.buf|
    ensures SameSegments(k.snd.buf[..n], SweepUpto(k, n).segs)
    ensures forall p :: p in SweepUpto(k, n).ps ==> Emitted(k, p, n)
    decreases n
  {
    if n > 0 {
      SweepSpec(k, n - 1);
      var s, seg := SweepUpto(k, n - 1), k.snd.buf[n - 1];
      assert k.snd.buf[..n] == k.snd.buf[..n - 1] + [seg];
      FlushedSame(k, seg);
      hide Flushed, WhySend;
      forall p | p in SweepUpto(k, n).ps
        ensures Emitted(k, p, n)
      {
        if p in s.ps {
          assert Emitted(k, p, n - 1);
        } else {
          assert p == DataPacket(k, Flushed(k, seg));
          assert p.sn == k.snd.buf[n - 1].sn;
        }
      }
    }
  }

  lemma {:induction false} FlushedSame(k: Kcb, seg: Segment)
    ensures var f := Flushed(k, seg);
            && f.sn == seg.sn && f.frg == seg.frg && f.data == seg.data
            && (!WhySend(k, seg).Idle? ==> f.ts == k.tm.current && f.una == k.rcv.nxt)
  {
    hide BackedOff, ResendThreshold, TimeDiff, U32;
  }

  /** Packets that may go out: genuine data for this direction, genuine acknowledgements for the other. */
  ghost predicate GoodOutput(ps: seq<Packet>, limit: nat, s: seq<Frag>, r: Receiver)
  {
    forall p :: p in ps ==> DataGenuine(p, limit, s) && AckGenuine(p, r)
  }

  lemma {:induction false} ControlGood(k: Kcb, tm: Timing, limit: nat, s: seq<Frag>)
    requires forall a :: a in k.rcv.acks ==> Held(k.rcv, a.sn)
    ensures GoodOutput(AckPackets(k, |k.rcv.acks|) + ProbePackets(k, tm), limit, s, k.rcv)
  {
    hide Held;
    forall p | p in AckPackets(k, |k.rcv.acks|)
      ensures AckGenuine(p, k.rcv)
    {
      var i :| 0 <= i < |k.rcv.acks| && p == AckPackets(k, |k.rcv.acks|)[i];
      assert k.rcv.acks[i] in k.rcv.acks;
    }
  }

  lemma {:induction false} SweepGood(k: Kcb, r: Receiver, s: seq<Frag>, n: nat)
    requires n <= |k.snd.buf| && Ordered(k.snd.buf, k.snd.una, k.snd.nxt) && Carries(k.snd.buf, s)
    requires forall i :: 0 <= i < |s| ==> s[i].frg < WND_RCV
    requires r.nxt == k.rcv.nxt
    ensures GoodOutput(SweepUpto(k, n).ps, k.snd.nxt, s, r)
  {
    hide SweepUpto, Emitted, DataGenuine, AckGenuine, Ordered, Carries;
    SweepSpec(k, n);
    forall p | p in SweepUpto(k, n).ps
      ensures DataGenuine(p, k.snd.nxt, s) && AckGenuine(p, r)
    {
      EmittedGood(k, r, s, n, p);
    }
  }

  lemma {:induction false} EmittedGood(k: Kcb, r: Receiver, s: seq<Frag>, n: nat, p: Packet)
    requires n <= |k.snd.buf| && Ordered(k.snd.buf, k.snd.una, k.snd.nxt) && Carries(k.snd.buf, s)
    requires forall i :: 0 <= i < |s| ==> s[i].frg < WND_RCV
    requires r.nxt == k.rcv.nxt && Emitted(k, p, n)
    ensures DataGenuine(p, k.snd.nxt, s) && AckGenuine(p, r)
  {
    var i :| 0 <= i < n && p.sn == k.snd.buf[i].sn && p.frg == k.snd.buf[i].frg % 0x100
             && p.data == k.snd.buf[i].data;
    assert FragOf(k.snd.buf[i]) == s[p.sn];
    hide Held;
  }

  /** Putting genuine packets on the wire. */
  lemma {:induction false} NetworkGrows(net: Network, ds: Network, ps: seq<Packet>, limit: nat, s: seq<Frag>,
                                        r: Receiver)
    requires GoodOutput(ps, limit, s, r)
    requires forall i, p :: 0 <= i < |ds| && p in ds[i] ==> p in ps
    ensures Forward(net, limit, s) ==> Forward(net + ds, limit, s)
    ensures Backward(net, r) ==> Backward(net + ds, r)
  {
    hide DataGenuine, AckGenuine;
    forall p | Sent(net + ds, p)
      ensures Sent(net, p) || p in ps
    {
      var i :| 0 <= i < |net + ds| && p in (net + ds)[i];
      if i < |net| {
        assert p in net[i];
      } else {
        assert p in ds[i - |net|];
      }
    }
  }
}
