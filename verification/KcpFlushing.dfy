/**
 What ikcp_flush may launch and what it puts on the wire, in terms of the windows, timers and
 counters of the control block: the launch is bounded by every window and stops only at one, and
 the packets are the pending control packets followed by exactly the segments that are due.
 */
module KcpFlushing {
  import opened Bytes
  import opened KcpSpec
  import opened KcpLists
  import opened KcpWrap
  import opened KcpFlow
  import opened KcpWorld
  import opened KcpRefine
  import opened KcpTimers
  import opened KcpTunnel

  // ---------------------------------------------------------------- launching

  /** w is the least of the send window, the peer's window and, unless turned off, the congestion window. */
  ghost predicate LeastBound(k: Kcb, w: nat)
  {
    && w <= k.cfg.sndWnd && w <= k.cc.rmtWnd && (!k.cfg.noCwnd ==> w <= k.cc.cwnd)
    && (w == k.cfg.sndWnd || w == k.cc.rmtWnd || (!k.cfg.noCwnd && w == k.cc.cwnd))
  }

  /** The i-th number from nxt on. */
  function Number(wrap: bool, nxt: nat, i: nat): nat
  {
    if i == 0 then nxt else Norm(wrap, nxt + i)
  }

  lemma {:induction false} NumberNext(wrap: bool, nxt: nat, i: nat)
    ensures Number(wrap, Norm(wrap, nxt + 1), i) == Number(wrap, nxt, i + 1)
  {
    if wrap {
      U32Add(nxt + 1, i);
    }
    hide U32;
  }

  /** The same number, fragment and octets, whatever the timers say. */
  predicate SamePlace(a: Segment, b: Segment)
  {
    a.sn == b.sn && a.frg == b.frg && a.data == b.data
  }

  /**
   The first n queued segments have become the last n of snd_buf, numbered on from snd_nxt.  Each
   number lies below snd_una + w, and the launch ends with the queue or at that bound.
   */
  ghost predicate Launches(wrap: bool, snd: Sender, snd': Sender, w: nat, n: nat)
  {
    && n <= |snd.queue| && |snd'.buf| == |snd.buf| + n
    && snd'.una == snd.una && snd'.nxt == Number(wrap, snd.nxt, n) && snd'.queue == snd.queue[n..]
    && (forall i {:trigger snd.buf[i]} :: 0 <= i < |snd.buf| ==> SamePlace(snd'.buf[i], snd.buf[i]))
    && (forall i {:trigger snd.queue[i]} :: 0 <= i < n ==>
          && SamePlace(snd'.buf[|snd.buf| + i], snd.queue[i].(sn := Number(wrap, snd.nxt, i)))
          && Diff(wrap, Number(wrap, snd.nxt, i), Norm(wrap, snd.una + w)) < 0)
    && (n == |snd.queue| || Diff(wrap, snd'.nxt, Norm(wrap, snd.una + w)) >= 0)
  }

  lemma {:induction false} LaunchesNone(wrap: bool, snd: Sender, w: nat)
    requires snd.queue == [] || Diff(wrap, snd.nxt, Norm(wrap, snd.una + w)) >= 0
    ensures Launches(wrap, snd, snd, w, 0)
  {
    hide Diff, Norm;
  }

  lemma {:induction false} LaunchesOneMore(wrap: bool, snd: Sender, one: Sender, snd': Sender, w: nat, n: nat)
    requires snd.queue != [] && Diff(wrap, snd.nxt, Norm(wrap, snd.una + w)) < 0
    requires one.una == snd.una && one.nxt == Norm(wrap, snd.nxt + 1) && one.queue == snd.queue[1..]
    requires |one.buf| == |snd.buf| + 1 && one.buf[..|snd.buf|] == snd.buf
    requires SamePlace(one.buf[|snd.buf|], snd.queue[0].(sn := snd.nxt))
    requires Launches(wrap, one, snd', w, n)
    ensures Launches(wrap, snd, snd', w, n + 1)
  {
    NumberNext(wrap, snd.nxt, n);
    NumberFirst(wrap, snd.nxt);
    hide Diff, Norm, Number;
    var m := |snd.buf|;
    forall i | 0 <= i < m
      ensures SamePlace(snd'.buf[i], snd.buf[i])
    {
      assert one.buf[i] == one.buf[..m][i];
    }
    forall i | 0 <= i < n + 1
      ensures SamePlace(snd'.buf[m + i], snd.queue[i].(sn := Number(wrap, snd.nxt, i)))
      ensures Diff(wrap, Number(wrap, snd.nxt, i), Norm(wrap, snd.una + w)) < 0
    {
      if i == 0 {
        assert SamePlace(snd'.buf[m], one.buf[m]);
      } else {
        NumberNext(wrap, snd.nxt, i - 1);
        assert one.queue[i - 1] == snd.queue[i];
        assert snd'.buf[|one.buf| + (i - 1)] == snd'.buf[m + i];
      }
    }
  }

  lemma {:induction false} NumberFirst(wrap: bool, nxt: nat)
    ensures Number(wrap, nxt, 0) == nxt && Number(wrap, nxt, 1) == Norm(wrap, nxt + 1)
  {
  }

  lemma {:induction false} LaunchUnits(wrap: bool, k: Kcb, w: nat) returns (n: nat)
    ensures Launches(wrap, k.snd, Launch(wrap, k, w).snd, w, n)
    decreases |k.snd.queue|
  {
    LaunchUnfolds(wrap, k, w);
    hide Launch, Launches, Diff, Norm, Unused;
    if k.snd.queue != [] && Diff(wrap, k.snd.nxt, Norm(wrap, k.snd.una + w)) < 0 {
      var one := LaunchedOne(wrap, k);
      var m := LaunchUnits(wrap, one, w);
      LaunchesOneMore(wrap, k.snd, one.snd, Launch(wrap, one, w).snd, w, m);
      n := m + 1;
    } else {
      LaunchesNone(wrap, k.snd, w);
      n := 0;
    }
  }

  /** What was outstanding stays first; what is launched has not been sent. */
  lemma {:induction false} LaunchUntouched(wrap: bool, k: Kcb, w: nat)
    ensures var l := Launch(wrap, k, w);
            && k.snd.buf <= l.snd.buf
            && forall i :: |k.snd.buf| <= i < |l.snd.buf| ==> l.snd.buf[i].xmit == 0 && l.snd.buf[i].fastAck == 0
    decreases |k.snd.queue|
  {
    LaunchUnfolds(wrap, k, w);
    hide Launch, Diff, Norm, Unused;
    if k.snd.queue != [] && Diff(wrap, k.snd.nxt, Norm(wrap, k.snd.una + w)) < 0 {
      var one := LaunchedOne(wrap, k);
      LaunchUntouched(wrap, one, w);
      assert Launch(wrap, one, w).snd.buf[|k.snd.buf|] == one.snd.buf[|k.snd.buf|];
    }
  }

  lemma {:induction false} SendWindowLeast(k: Kcb)
    ensures LeastBound(k, SendWindow(k))
  {
  }

  lemma {:induction false} SamePlaces(wrap: bool, snd: Sender, l: Sender, segs: seq<Segment>, w: nat, n: nat)
    requires Launches(wrap, snd, l, w, n) && SameSegments(l.buf, segs)
    ensures Launches(wrap, snd, l.(buf := segs), w, n)
  {
    hide Diff, Norm, Number;
    forall i | 0 <= i < n
      ensures SamePlace(segs[|snd.buf| + i], snd.queue[i].(sn := Number(wrap, snd.nxt, i)))
    {
      assert SamePlace(l.buf[|snd.buf| + i], snd.queue[i].(sn := Number(wrap, snd.nxt, i)));
    }
  }

  lemma {:induction false} FlushSender(wrap: bool, k: Kcb)
    requires ValidConfig(k.cfg) && k.tm.updated
    ensures var l := Launch(wrap, Quiet(k), SendWindow(k)).snd;
            Flush(wrap, k).k.snd == l.(buf := Flush(wrap, k).k.snd.buf) && SameSegments(l.buf, Flush(wrap, k).k.snd.buf)
  {
    FlushIsTail(wrap, k);
    var launched := Launch(wrap, Quiet(k), SendWindow(k));
    var n := |launched.snd.buf|;
    SweepSpec(launched, n);
    assert launched.snd.buf[..n] == launched.snd.buf;
    hide Flush, Launch, SweepUpto, SendWindow, ControlPackets, Adjusted, Quiet;
  }

  /** What a flush launched: everything the least of the windows lets in. */
  ghost predicate Filled(wrap: bool, k: Kcb, snd: Sender)
  {
    exists w: nat, n: nat :: LeastBound(k, w) && Launches(wrap, k.snd, snd, w, n)
  }

  lemma {:induction false} FlushFills(wrap: bool, k: Kcb)
    requires ValidConfig(k.cfg) && k.tm.updated
    ensures Filled(wrap, k, Flush(wrap, k).k.snd)
  {
    hide *;
    var w, n := FlushLaunches(wrap, k);
    LaunchedWith(wrap, k, Flush(wrap, k).k.snd, w, n);
  }

  lemma {:induction false} LaunchedWith(wrap: bool, k: Kcb, snd: Sender, w: nat, n: nat)
    requires LeastBound(k, w) && Launches(wrap, k.snd, snd, w, n)
    ensures Filled(wrap, k, snd)
  {
    hide LeastBound, Launches;
  }

  /** A flush launches what the least of the windows lets in, and stops only there. */
  lemma {:induction false} FlushLaunches(wrap: bool, k: Kcb) returns (w: nat, n: nat)
    requires ValidConfig(k.cfg) && k.tm.updated
    ensures LeastBound(k, w) && Launches(wrap, k.snd, Flush(wrap, k).k.snd, w, n)
  {
    w := SendWindow(k);
    SendWindowLeast(k);
    FlushSender(wrap, k);
    assert Quiet(k).snd == k.snd;
    hide *;
    n := LaunchUnits(wrap, Quiet(k), w);
    SamePlaces(wrap, k.snd, Launch(wrap, Quiet(k), w).snd, Flush(wrap, k).k.snd.buf, w, n);
  }

  /**
   No window is overrun: what a flush adds to snd_buf is numbered less than snd_wnd, less than the
   peer's window and, unless turned off, less than the congestion window after snd_una.  And no room
   is wasted: the flush leaves snd_queue empty or snd_nxt at one of these bounds.
   */
  ghost predicate Bounded(k: Kcb, snd: Sender)
  {
    && |k.snd.buf| <= |snd.buf| && snd.una == k.snd.una && k.snd.nxt <= snd.nxt
    && |snd.buf| - |k.snd.buf| == snd.nxt - k.snd.nxt == |k.snd.queue| - |snd.queue|
    && (forall i :: |k.snd.buf| <= i < |snd.buf| ==>
          && snd.buf[i].sn == k.snd.nxt + (i - |k.snd.buf|)
          && snd.buf[i].data == k.snd.queue[i - |k.snd.buf|].data
          && snd.buf[i].sn < snd.una + k.cfg.sndWnd && snd.buf[i].sn < snd.una + k.cc.rmtWnd
          && (!k.cfg.noCwnd ==> snd.buf[i].sn < snd.una + k.cc.cwnd))
    && (snd.queue == [] || snd.nxt >= snd.una + k.cfg.sndWnd || snd.nxt >= snd.una + k.cc.rmtWnd
        || (!k.cfg.noCwnd && snd.nxt >= snd.una + k.cc.cwnd))
  }

  lemma {:induction false} FlushRespectsWindows(k: Kcb)
    requires ValidConfig(k.cfg) && k.tm.updated
    ensures Bounded(k, Flush(false, k).k.snd)
  {
    hide *;
    var w, n := FlushLaunches(false, k);
    LaunchBounded(k, Flush(false, k).k.snd, w, n);
  }

  lemma {:induction false} LaunchBounded(k: Kcb, snd: Sender, w: nat, n: nat)
    requires LeastBound(k, w) && Launches(false, k.snd, snd, w, n)
    ensures Bounded(k, snd)
  {
    forall i | |k.snd.buf| <= i < |snd.buf|
      ensures snd.buf[i].sn == k.snd.nxt + (i - |k.snd.buf|) && snd.buf[i].sn < snd.una + w
      ensures snd.buf[i].data == k.snd.queue[i - |k.snd.buf|].data
    {
      var j := i - |k.snd.buf|;
      assert SamePlace(snd.buf[|k.snd.buf| + j], k.snd.queue[j].(sn := Number(false, k.snd.nxt, j)));
    }
    assert |snd.queue| == |k.snd.queue| - n && snd.nxt == k.snd.nxt + n;
    if n == |k.snd.queue| {
      assert snd.queue == [];
    } else {
      assert snd.nxt >= snd.una + w;
    }
  }

  /** A closed window lets nothing out. */
  lemma {:induction false} ClosedWindow(k: Kcb)
    requires ValidConfig(k.cfg) && k.tm.updated && k.cc.rmtWnd == 0 && k.snd.una <= k.snd.nxt
    ensures Flush(false, k).k.snd.nxt == k.snd.nxt && Flush(false, k).k.snd.queue == k.snd.queue
  {
    hide *;
    var snd := Flush(false, k).k.snd;
    FlushRespectsWindows(k);
    LastBelow(k, snd);
    NxtGrows(k, snd);
    var w, n := FlushLaunches(false, k);
    LaunchesQueue(k.snd, snd, w, n);
    assert k.snd.queue[0..] == k.snd.queue;
  }

  lemma {:induction false} LastBelow(k: Kcb, snd: Sender)
    requires Bounded(k, snd)
    ensures snd.nxt == k.snd.nxt || snd.nxt <= snd.una + k.cc.rmtWnd
    ensures snd.nxt == k.snd.nxt || snd.nxt <= snd.una + k.cfg.sndWnd
  {
    if snd.nxt > k.snd.nxt {
      assert snd.buf[|snd.buf| - 1].sn == snd.nxt - 1;
    }
  }

  lemma {:induction false} NxtGrows(k: Kcb, snd: Sender)
    requires Bounded(k, snd)
    ensures snd.una == k.snd.una && snd.nxt >= k.snd.nxt
  {
  }

  lemma {:induction false} LaunchesQueue(snd: Sender, snd': Sender, w: nat, n: nat)
    requires Launches(false, snd, snd', w, n)
    ensures n <= |snd.queue| && snd'.queue == snd.queue[n..] && snd'.nxt == snd.nxt + n
  {
  }

  /** The same on 32-bit numbers, which are compared as distances from snd_una. */
  ghost predicate Bounded32(k: Kcb, snd: Sender)
  {
    && |k.snd.buf| <= |snd.buf| && snd.una == k.snd.una
    && |snd.buf| - |k.snd.buf| == |k.snd.queue| - |snd.queue|
    && (forall i :: |k.snd.buf| <= i < |snd.buf| ==>
          && 0 <= TimeDiff(snd.buf[i].sn, snd.una) < Min(k.cfg.sndWnd, k.cc.rmtWnd)
          && (!k.cfg.noCwnd ==> TimeDiff(snd.buf[i].sn, snd.una) < k.cc.cwnd))
    && (snd.queue == [] || TimeDiff(snd.nxt, snd.una) >= Min(k.cfg.sndWnd, k.cc.rmtWnd)
        || (!k.cfg.noCwnd && TimeDiff(snd.nxt, snd.una) >= k.cc.cwnd))
  }

  lemma {:induction false} FromUna(x: nat, una: nat)
    requires una <= x < una + TWO_31
    ensures TimeDiff(U32(x), U32(una)) == x - una
  {
    DiffExact(x, una);
  }

  lemma {:induction false} BoundedWraps(k: Kcb, snd: Sender)
    requires ValidConfig(k.cfg) && k.snd.una <= k.snd.nxt && snd.nxt < snd.una + TWO_31 && Bounded(k, snd)
    ensures Bounded32(WrapKcb(k), WrapSnd(snd))
  {
    hide TimeDiff, U32;
    FromUna(snd.nxt, snd.una);
    var s := WrapSnd(snd);
    forall i | |k.snd.buf| <= i < |snd.buf|
      ensures TimeDiff(s.buf[i].sn, s.una) == snd.buf[i].sn - snd.una
    {
      FromUna(snd.buf[i].sn, snd.una);
    }
    assert s.queue == [] <==> snd.queue == [];
  }

  /** Every 32-bit control block whose outstanding numbers fit the send window respects the windows. */
  lemma {:induction false} FlushRespectsWindows32(k: Kcb)
    requires ValidConfig(k.cfg) && k.tm.updated && k.snd.una <= k.snd.nxt <= k.snd.una + k.cfg.sndWnd
    ensures Bounded32(WrapKcb(k), Flush(true, WrapKcb(k)).k.snd)
  {
    FlushRespectsWindows(k);
    WrapFlush(k);
    var snd := Flush(false, k).k.snd;
    LastBelow(k, snd);
    assert snd.una == k.snd.una;
    hide Flush, Bounded, WrapSnd, WrapRcv, Bounded32;
    BoundedWraps(k, snd);
  }

  /** In every short run of two tunnels a flush of either side respects the windows. */
  lemma {:induction false} EveryFlushBounded(acts: seq<Action>)
    requires Small(Run(true, TunnelStart(), acts))
    ensures var w := Run(true, TunnelStart(), acts);
            && (w.a.tm.updated ==> Bounded32(w.a, Flush(true, w.a).k.snd))
            && (w.b.tm.updated ==> Bounded32(w.b, Flush(true, w.b).k.snd))
  {
    EveryTunnelRun(acts);
    var u := Run(false, TunnelStart(), acts);
    assert ValidConfig(u.a.cfg) && ValidConfig(u.b.cfg);
    SafeWindows(u);
    WorldWraps(u);
    hide *;
    if u.a.tm.updated {
      FlushRespectsWindows32(u.a);
    }
    if u.b.tm.updated {
      FlushRespectsWindows32(u.b);
    }
  }

  lemma {:induction false} SafeWindows(w: World)
    requires Safe(w)
    ensures w.a.snd.una <= w.a.snd.nxt <= w.a.snd.una + w.a.cfg.sndWnd
    ensures w.b.snd.una <= w.b.snd.nxt <= w.b.snd.una + w.b.cfg.sndWnd
  {
    hide Ordered, NoLoss, Readable, UnaIsHead;
  }

  lemma {:induction false} WorldWraps(w: World)
    ensures WrapWorld(w).a == WrapKcb(w.a) && WrapWorld(w).b == WrapKcb(w.b)
    ensures WrapKcb(w.a).tm == w.a.tm && WrapKcb(w.b).tm == w.b.tm
  {
    hide WrapSnd, WrapRcv, WrapNet;
  }

  // ---------------------------------------------------------------- what goes on the wire

  lemma {:induction false} DueIsSent(k: Kcb, seg: Segment)
    ensures Due(k.cfg, k.tm.current, seg) <==> !WhySend(k, seg).Idle?
  {
    hide TimeDiff, Signed, U32;
  }

  /** The free slots of the receive window, as the header carries them. */
  function Free(k: Kcb): nat
  {
    (if |k.rcv.queue| < k.cfg.rcvWnd then k.cfg.rcvWnd - |k.rcv.queue| else 0) % 0x1_0000
  }

  function Headed(k: Kcb, cmd: nat, frg: nat, ts: nat, sn: nat, data: seq<byte>): Packet
  {
    Packet(k.cfg.conv, cmd, frg, Free(k), ts, sn, k.rcv.nxt, data)
  }

  predicate Increasing(idx: seq<nat>)
  {
    forall i, j :: 0 <= i < j < |idx| ==> idx[i] < idx[j]
  }

  /** idx lists, in order, the segments among the first n of buf that are due. */
  ghost predicate DueList(cfg: Config, now: nat, buf: seq<Segment>, n: nat, idx: seq<nat>)
    requires n <= |buf|
  {
    Increasing(idx) && forall i: nat :: i in idx <==> i < n && Due(cfg, now, buf[i])
  }

  /** The packets are the data packets of the segments idx of buf. */
  ghost predicate DataOf(k: Kcb, ps: seq<Packet>, buf: seq<Segment>, idx: seq<nat>)
  {
    && |ps| == |idx|
    && forall j :: 0 <= j < |idx| ==>
         && idx[j] < |buf|
         && var seg := buf[idx[j]];
            ps[j] == Headed(k, CMD_PUSH, seg.frg % 0x100, k.tm.current, seg.sn, seg.data)
  }

  lemma {:induction false} SweepList(k: Kcb, n: nat) returns (idx: seq<nat>)
    requires n <= |k.snd.buf|
    ensures DueList(k.cfg, k.tm.current, k.snd.buf, n, idx)
    ensures DataOf(k, SweepUpto(k, n).ps, k.snd.buf, idx)
    decreases n
  {
    hide *;
    SweepStep(k, n);
    if n == 0 {
      NoneDue(k);
      idx := [];
    } else {
      var init := SweepList(k, n - 1);
      var seg := k.snd.buf[n - 1];
      DueIsSent(k, seg);
      DueMore(k.cfg, k.tm.current, k.snd.buf, n, init);
      if Due(k.cfg, k.tm.current, seg) {
        PacketOfDue(k, seg);
        DataMore(k, SweepUpto(k, n - 1).ps, k.snd.buf, init, n - 1);
        idx := init + [n - 1];
      } else {
        idx := init;
      }
    }
  }

  lemma {:induction false} NoneDue(k: Kcb)
    ensures DueList(k.cfg, k.tm.current, k.snd.buf, 0, []) && DataOf(k, [], k.snd.buf, [])
  {
    hide Due, Headed;
  }

  lemma {:induction false} SweepStep(k: Kcb, n: nat)
    requires n <= |k.snd.buf|
    ensures n == 0 ==> SweepUpto(k, n).ps == []
    ensures n > 0 ==>
              var init, seg := SweepUpto(k, n - 1).ps, k.snd.buf[n - 1];
              SweepUpto(k, n).ps
              == if WhySend(k, seg).Idle? then init else init + [DataPacket(k, Flushed(k, seg))]
  {
    hide Flushed, WhySend, DataPacket;
  }

  lemma {:induction false} DueMore(cfg: Config, now: nat, buf: seq<Segment>, n: nat, idx: seq<nat>)
    requires 0 < n <= |buf| && DueList(cfg, now, buf, n - 1, idx)
    ensures DueList(cfg, now, buf, n, if Due(cfg, now, buf[n - 1]) then idx + [n - 1] else idx)
  {
    hide Due;
    assert forall i :: 0 <= i < |idx| ==> idx[i] in idx;
  }

  lemma {:induction false} PacketOfDue(k: Kcb, seg: Segment)
    requires !WhySend(k, seg).Idle?
    ensures DataPacket(k, Flushed(k, seg)) == Headed(k, CMD_PUSH, seg.frg % 0x100, k.tm.current, seg.sn, seg.data)
  {
    FlushedSame(k, seg);
    FlushedWindow(k, seg);
    hide Flushed, WhySend;
  }

  lemma {:induction false} FlushedWindow(k: Kcb, seg: Segment)
    requires !WhySend(k, seg).Idle?
    ensures Flushed(k, seg).wnd % 0x1_0000 == Free(k)
  {
    hide WhySend, Retimed;
  }

  lemma {:induction false} DataMore(k: Kcb, ps: seq<Packet>, buf: seq<Segment>, idx: seq<nat>, i: nat)
    requires DataOf(k, ps, buf, idx) && i < |buf|
    ensures DataOf(k, ps + [Headed(k, CMD_PUSH, buf[i].frg % 0x100, k.tm.current, buf[i].sn, buf[i].data)],
                   buf, idx + [i])
  {
    hide Headed;
  }

  /**
   The pending acknowledgements in order, then a window probe and a window answer where asked for,
   which repeat number and stamp of the last acknowledgement.
   */
  ghost predicate ControlOf(k: Kcb, ps: seq<Packet>)
  {
    var n := |k.rcv.acks|;
    var last := if n == 0 then Ack(0, 0) else k.rcv.acks[n - 1];
    var asks := k.tm.askSend || (k.cc.rmtWnd == 0 && k.tm.probeWait != 0 && TimeDiff(k.tm.current, k.tm.tsProbe) >= 0);
    && |ps| == n + (if asks then 1 else 0) + (if k.tm.askTell then 1 else 0)
    && (forall i :: 0 <= i < n ==> ps[i] == Headed(k, CMD_ACK, 0, k.rcv.acks[i].ts, k.rcv.acks[i].sn, []))
    && (forall i :: n <= i < |ps| ==> ps[i] == Headed(k, ps[i].cmd, 0, last.ts, last.sn, []))
    && (asks ==> ps[n].cmd == CMD_WASK as int) && (k.tm.askTell ==> ps[|ps| - 1].cmd == CMD_WINS as int)
  }

  lemma {:induction false} ControlIs(k: Kcb)
    ensures ControlOf(k, ControlPackets(k))
  {
    hide TimeDiff, U32;
  }

  lemma {:induction false} SameHeaders(k: Kcb, l: Kcb, ps: seq<Packet>, buf: seq<Segment>, buf': seq<Segment>,
                                       idx: seq<nat>)
    requires DataOf(l, ps, buf, idx) && SameSegments(buf, buf')
    requires l.cfg == k.cfg && l.rcv.nxt == k.rcv.nxt && l.rcv.queue == k.rcv.queue && l.tm.current == k.tm.current
    ensures DataOf(k, ps, buf', idx)
  {
    assert Free(k) == Free(l);
    hide Free;
  }

  /**
   What a flush sends: the control packets, then one data packet for each segment launched now or
   due, in the order of snd_buf, all under the current rcv_nxt and free window.
   */
  ghost predicate Speaks(k: Kcb, f: FlushResult, c: nat, idx: seq<nat>)
  {
    && c <= |f.ps| && ControlOf(k, f.ps[..c]) && DataOf(k, f.ps[c..], f.k.snd.buf, idx) && Increasing(idx)
    && |k.snd.buf| <= |f.k.snd.buf|
    && (forall i: nat :: i in idx <==>
          i < |f.k.snd.buf| && (i < |k.snd.buf| ==> Due(k.cfg, k.tm.current, k.snd.buf[i])))
    && f.k.rcv == k.rcv.(acks := []) && !f.k.tm.askSend && !f.k.tm.askTell
  }

  lemma {:induction false} SpeaksFrom(k: Kcb, l: seq<Segment>, f: FlushResult, control: seq<Packet>,
                                      data: seq<Packet>, idx: seq<nat>)
    requires f.ps == control + data && ControlOf(k, control) && DataOf(k, data, f.k.snd.buf, idx)
    requires DueList(k.cfg, k.tm.current, l, |l|, idx) && |l| == |f.k.snd.buf|
    requires k.snd.buf <= l && forall i :: |k.snd.buf| <= i < |l| ==> l[i].xmit == 0
    requires f.k.rcv == k.rcv.(acks := []) && !f.k.tm.askSend && !f.k.tm.askTell
    ensures Speaks(k, f, |control|, idx)
  {
    assert f.ps[..|control|] == control && f.ps[|control|..] == data;
    hide ControlOf, DataOf, TimeDiff, Signed, U32;
  }

  lemma {:induction false} FlushFrame(wrap: bool, k: Kcb)
    requires ValidConfig(k.cfg) && k.tm.updated
    ensures var l, f := Launch(wrap, Quiet(k), SendWindow(k)), Flush(wrap, k);
            && f.ps == ControlPackets(k) + SweepUpto(l, |l.snd.buf|).ps
            && f.k.rcv == k.rcv.(acks := []) && !f.k.tm.askSend && !f.k.tm.askTell
            && l.cfg == k.cfg && l.rcv.nxt == k.rcv.nxt && l.rcv.queue == k.rcv.queue
            && l.tm.current == k.tm.current && Quiet(k).snd == k.snd
  {
    FlushIsTail(wrap, k);
    LaunchKeeps(wrap, Quiet(k), SendWindow(k));
    assert ProbeTimer(k.tm, k.cc.rmtWnd).current == k.tm.current;
    hide Launch, SweepUpto, ProbeTimer, ControlPackets, Adjusted, SendWindow, Flush;
  }

  lemma {:induction false} FlushSpeaks(wrap: bool, k: Kcb) returns (c: nat, idx: seq<nat>)
    requires ValidConfig(k.cfg) && k.tm.updated
    ensures Speaks(k, Flush(wrap, k), c, idx)
  {
    var l := Launch(wrap, Quiet(k), SendWindow(k));
    hide *;
    FlushFrame(wrap, k);
    FlushSender(wrap, k);
    LaunchUntouched(wrap, Quiet(k), SendWindow(k));
    idx := SweepList(l, |l.snd.buf|);
    SameHeaders(k, l, SweepUpto(l, |l.snd.buf|).ps, l.snd.buf, Flush(wrap, k).k.snd.buf, idx);
    SameLength(l.snd.buf, Flush(wrap, k).k.snd.buf);
    ControlIs(k);
    SpeaksFrom(k, l.snd.buf, Flush(wrap, k), ControlPackets(k), SweepUpto(l, |l.snd.buf|).ps, idx);
    c := |ControlPackets(k)|;
  }

  lemma {:induction false} SameLength(a: seq<Segment>, b: seq<Segment>)
    requires SameSegments(a, b)
    ensures |a| == |b|
  {
  }

  // ---------------------------------------------------------------- timers and counters

  /** The retransmission timer of a segment that has been sent has run out. */
  predicate Expired(now: nat, seg: Segment)
  {
    seg.xmit > 0 && TimeDiff(now, seg.resendTs) >= 0
  }

  /** A segment that only the acknowledgements overtaking it make due. */
  predicate FastDue(cfg: Config, now: nat, seg: Segment)
  {
    seg.xmit > 0 && TimeDiff(now, seg.resendTs) < 0 && Overtaken(cfg, seg)
  }

  ghost function ExpiredOnes(now: nat, buf: seq<Segment>, n: nat): set<nat>
    requires n <= |buf|
  {
    set i: nat | i < n && Expired(now, buf[i])
  }

  ghost predicate SomeFast(cfg: Config, now: nat, buf: seq<Segment>, n: nat)
    requires n <= |buf|
  {
    exists i :: 0 <= i < n && FastDue(cfg, now, buf[i])
  }

  /** A segment sent now has been sent as often as the link may need. */
  predicate WornOut(cfg: Config, now: nat, seg: Segment)
  {
    Due(cfg, now, seg) && U32(seg.xmit + 1) >= cfg.deadLink
  }

  ghost predicate SomeWornOut(cfg: Config, now: nat, buf: seq<Segment>, n: nat)
    requires n <= |buf|
  {
    exists i :: 0 <= i < n && WornOut(cfg, now, buf[i])
  }

  /** The sweep looks at every segment once and counts what it sees. */
  ghost predicate SweepCounts(k: Kcb, s: Sweep, n: nat)
    requires n <= |k.snd.buf|
  {
    var now, buf := k.tm.current, k.snd.buf;
    && |s.segs| == n && (forall i {:trigger buf[i]} :: 0 <= i < n ==> s.segs[i] == Flushed(k, buf[i]))
    && s.timeouts == |ExpiredOnes(now, buf, n)|
    && (s.fasts > 0 <==> SomeFast(k.cfg, now, buf, n))
    && (s.dead <==> SomeWornOut(k.cfg, now, buf, n))
  }

  lemma {:induction false} ReasonMeans(k: Kcb, seg: Segment)
    ensures WhySend(k, seg).Timeout? <==> Expired(k.tm.current, seg)
    ensures WhySend(k, seg).Fast? <==> FastDue(k.cfg, k.tm.current, seg)
    ensures !WhySend(k, seg).Idle? && Flushed(k, seg).xmit >= k.cfg.deadLink
            <==> WornOut(k.cfg, k.tm.current, seg)
  {
    hide TimeDiff, Signed, U32, BackedOff, Unused;
  }

  lemma {:induction false} CountStep(k: Kcb, n: nat)
    requires 0 < n <= |k.snd.buf|
    ensures var s, t, seg := SweepUpto(k, n - 1), SweepUpto(k, n), k.snd.buf[n - 1];
            && t.segs == s.segs + [Flushed(k, seg)]
            && t.timeouts == s.timeouts + (if WhySend(k, seg).Timeout? then 1 else 0)
            && t.fasts == s.fasts + (if WhySend(k, seg).Fast? then 1 else 0)
            && t.dead == (s.dead || (!WhySend(k, seg).Idle? && Flushed(k, seg).xmit >= k.cfg.deadLink))
  {
    hide Flushed, WhySend, DataPacket;
  }

  lemma {:induction false} ExpiredMore(now: nat, buf: seq<Segment>, n: nat)
    requires 0 < n <= |buf|
    ensures |ExpiredOnes(now, buf, n)|
         == |ExpiredOnes(now, buf, n - 1)| + (if Expired(now, buf[n - 1]) then 1 else 0)
  {
    hide Expired;
    var a, b := ExpiredOnes(now, buf, n - 1), ExpiredOnes(now, buf, n);
    if Expired(now, buf[n - 1]) {
      assert b == a + {n - 1};
    } else {
      assert b == a;
    }
  }

  lemma {:induction false} SomeMore(cfg: Config, now: nat, buf: seq<Segment>, n: nat)
    requires 0 < n <= |buf|
    ensures SomeFast(cfg, now, buf, n) <==> SomeFast(cfg, now, buf, n - 1) || FastDue(cfg, now, buf[n - 1])
    ensures SomeWornOut(cfg, now, buf, n) <==> SomeWornOut(cfg, now, buf, n - 1) || WornOut(cfg, now, buf[n - 1])
  {
    hide FastDue, WornOut;
  }

  lemma {:induction false} NothingCounted(k: Kcb)
    ensures SweepCounts(k, SweepUpto(k, 0), 0)
  {
    hide Flushed, Expired, FastDue, WornOut;
    assert ExpiredOnes(k.tm.current, k.snd.buf, 0) == {};
  }

  lemma {:induction false} SweepCounted(k: Kcb, n: nat)
    requires n <= |k.snd.buf|
    ensures SweepCounts(k, SweepUpto(k, n), n)
    decreases n
  {
    if n == 0 {
      hide *;
      NothingCounted(k);
    } else {
      hide Flushed, Expired, FastDue, WornOut, SweepUpto, ExpiredOnes, SomeFast, SomeWornOut, WhySend;
      SweepCounted(k, n - 1);
      CountStep(k, n);
      ReasonMeans(k, k.snd.buf[n - 1]);
      ExpiredMore(k.tm.current, k.snd.buf, n);
      SomeMore(k.cfg, k.tm.current, k.snd.buf, n);
    }
  }

  /** Timers and counters after a flush. */
  ghost predicate Timed(k: Kcb, f: Kcb)
  {
    var now, buf := k.tm.current, k.snd.buf;
    && |buf| <= |f.snd.buf|
    && (forall i {:trigger buf[i]} :: 0 <= i < |buf| ==> f.snd.buf[i] == Flushed(k, buf[i]))
    && (forall i :: |buf| <= i < |f.snd.buf| ==> JustSent(k, f.snd.buf[i]))
    && f.tm.xmit == U32(k.tm.xmit + |ExpiredOnes(now, buf, |buf|)|)
    && (f.tm.dead <==> k.tm.dead || SomeWornOut(k.cfg, now, buf, |buf|)
                       || (|buf| < |f.snd.buf| && 1 >= k.cfg.deadLink))
    && f.tm == k.tm.(xmit := f.tm.xmit, dead := f.tm.dead, tsProbe := f.tm.tsProbe, probeWait := f.tm.probeWait,
                     askSend := false, askTell := false)
  }

  /** Sent once, now, and due again after the current time-out. */
  predicate JustSent(k: Kcb, seg: Segment)
  {
    && seg.xmit == 1 && seg.fastAck == 0 && seg.ts == k.tm.current && seg.rto == k.tm.rto
    && seg.resendTs == U32(k.tm.current + k.tm.rto + (if k.cfg.nodelay == 0 then k.tm.rto / 8 else 0))
  }

  /**
   A time-out sends the window back to one segment and halves the threshold; without one, an
   overtaken segment sets the threshold to half of what is in flight; otherwise both stay.
   */
  ghost predicate Reacts(k: Kcb, f: Kcb)
    requires ValidConfig(k.cfg)
  {
    var now, buf, mss := k.tm.current, k.snd.buf, k.cfg.Mss();
    var lost, fast := ExpiredOnes(now, buf, |buf|) != {}, SomeFast(k.cfg, now, buf, |buf|);
    && f.cc.rmtWnd == k.cc.rmtWnd
    && (lost ==> f.cc.cwnd == 1 && f.cc.incr == mss && f.cc.ssthresh == Max(k.cc.cwnd / 2, THRESH_MIN))
    && (!lost && fast ==>
          && f.cc.ssthresh == Max(U32(f.snd.nxt - f.snd.una) / 2, THRESH_MIN)
          && f.cc.cwnd == Max(1, U32(f.cc.ssthresh + if k.cfg.fastResend > 0 then k.cfg.fastResend else 0xffff_ffff))
          && f.cc.incr == U32(Product(f.cc.cwnd, mss)))
    && (!lost && !fast ==>
          && f.cc.ssthresh == k.cc.ssthresh && f.cc.cwnd == Max(1, k.cc.cwnd)
          && f.cc.incr == if k.cc.cwnd > 0 then k.cc.incr else mss)
  }

  lemma {:induction false} AdjustReacts(cfg: Config, cc: Congestion, inflight: nat, fasts: nat, timeouts: nat)
    requires cfg.mtu >= OVERHEAD
    ensures var c, th := Adjusted(cfg, cc, inflight, fasts, timeouts), Max(inflight / 2, THRESH_MIN);
            && c.rmtWnd == cc.rmtWnd
            && (timeouts > 0 ==> c.cwnd == 1 && c.incr == cfg.Mss() && c.ssthresh == Max(cc.cwnd / 2, THRESH_MIN))
            && (timeouts == 0 && fasts > 0 ==>
                  && c.ssthresh == th && c.cwnd == Max(1, U32(th + ResendThreshold(cfg)))
                  && (cfg.mtu < 0x1_0000 ==> c.incr == U32(Product(c.cwnd, cfg.Mss()))))
            && (timeouts == 0 && fasts == 0 ==>
                  c.ssthresh == cc.ssthresh && c.cwnd == Max(1, cc.cwnd)
                  && c.incr == if cc.cwnd > 0 then cc.incr else cfg.Mss())
  {
    assert cfg.mtu < 0x1_0000 ==> U32(Product(1, cfg.Mss())) == cfg.Mss();
    hide U32, Product;
  }

  lemma {:induction false} FlushedAlike(k: Kcb, l: Kcb, seg: Segment)
    requires l.cfg == k.cfg && l.tm.current == k.tm.current && l.tm.rto == k.tm.rto
    requires l.rcv.queue == k.rcv.queue && l.rcv.nxt == k.rcv.nxt
    ensures Flushed(l, seg) == Flushed(k, seg)
  {
    hide TimeDiff, Signed, U32, HalfTowardZero;
  }

  lemma {:induction false} FirstSent(k: Kcb, seg: Segment)
    requires seg.xmit == 0 && seg.fastAck == 0
    ensures JustSent(k, Flushed(k, seg))
  {
    hide TimeDiff, Signed, BackedOff, Unused;
  }

  /** Segments never sent add nothing to the counts. */
  lemma {:induction false} NewAddNothing(cfg: Config, now: nat, buf: seq<Segment>, l: seq<Segment>)
    requires buf <= l && forall i :: |buf| <= i < |l| ==> l[i].xmit == 0
    ensures ExpiredOnes(now, l, |l|) == ExpiredOnes(now, buf, |buf|)
    ensures SomeFast(cfg, now, l, |l|) <==> SomeFast(cfg, now, buf, |buf|)
    ensures SomeWornOut(cfg, now, l, |l|)
            <==> SomeWornOut(cfg, now, buf, |buf|) || (|buf| < |l| && 1 >= cfg.deadLink)
  {
    hide TimeDiff, Overtaken;
    assert forall i :: 0 <= i < |buf| ==> l[i] == buf[i];
    assert U32(1) == 1;
    if |buf| < |l| && 1 >= cfg.deadLink {
      assert WornOut(cfg, now, l[|buf|]);
    }
    if SomeFast(cfg, now, buf, |buf|) {
      var i :| 0 <= i < |buf| && FastDue(cfg, now, buf[i]);
      assert FastDue(cfg, now, l[i]);
    }
    if SomeWornOut(cfg, now, buf, |buf|) {
      var i :| 0 <= i < |buf| && WornOut(cfg, now, buf[i]);
      assert WornOut(cfg, now, l[i]);
    }
    hide U32;
  }

  /** The parts of a flush that count: what the sweep left and the control block it started from. */
  lemma {:induction false} FlushCounts(wrap: bool, k: Kcb)
    requires ValidConfig(k.cfg) && k.tm.updated
    ensures var l, f := Launch(wrap, Quiet(k), SendWindow(k)), Flush(wrap, k).k;
            var s := SweepUpto(l, |l.snd.buf|);
            && f.snd == l.snd.(buf := s.segs) && l.snd.una == k.snd.una
            && f.cc == Adjusted(k.cfg, k.cc, U32(f.snd.nxt - f.snd.una), s.fasts, s.timeouts)
            && f.tm == Quiet(k).tm.(xmit := U32(k.tm.xmit + s.timeouts), dead := k.tm.dead || s.dead)
            && l.cfg == k.cfg && l.tm == Quiet(k).tm && l.rcv.nxt == k.rcv.nxt && l.rcv.queue == k.rcv.queue
  {
    FlushIsTail(wrap, k);
    LaunchKeeps(wrap, Quiet(k), SendWindow(k));
    var n := LaunchUnits(wrap, Quiet(k), SendWindow(k));
    QuietKeeps(k);
    hide Launch, SweepUpto, Quiet, ControlPackets, Adjusted, SendWindow, Flush, U32, Norm, Diff, Number;
  }

  lemma {:induction false} QuietKeeps(k: Kcb)
    ensures var q := Quiet(k);
            && q.cfg == k.cfg && q.snd == k.snd && q.cc == k.cc && q.rcv == k.rcv.(acks := [])
            && q.tm == k.tm.(tsProbe := q.tm.tsProbe, probeWait := q.tm.probeWait, askSend := false, askTell := false)
  {
    hide U32, TimeDiff;
  }

  lemma {:induction false} TimedFrom(k: Kcb, l: Kcb, s: Sweep, f: Kcb)
    requires SweepCounts(l, s, |l.snd.buf|) && f.snd.buf == s.segs
    requires l.cfg == k.cfg && l.tm == Quiet(k).tm && l.rcv.nxt == k.rcv.nxt && l.rcv.queue == k.rcv.queue
    requires k.snd.buf <= l.snd.buf
    requires forall i :: |k.snd.buf| <= i < |l.snd.buf| ==> l.snd.buf[i].xmit == 0 && l.snd.buf[i].fastAck == 0
    requires f.tm == Quiet(k).tm.(xmit := U32(k.tm.xmit + s.timeouts), dead := k.tm.dead || s.dead)
    ensures Timed(k, f)
    ensures s.timeouts == |ExpiredOnes(k.tm.current, k.snd.buf, |k.snd.buf|)|
    ensures s.fasts > 0 <==> SomeFast(k.cfg, k.tm.current, k.snd.buf, |k.snd.buf|)
  {
    var buf, segs := k.snd.buf, l.snd.buf;
    QuietKeeps(k);
    NewAddNothing(k.cfg, k.tm.current, buf, segs);
    hide Quiet, Flushed, ExpiredOnes, SomeFast, SomeWornOut, U32;
    forall i | 0 <= i < |segs|
      ensures f.snd.buf[i] == Flushed(k, segs[i]) && (i >= |buf| ==> JustSent(k, f.snd.buf[i]))
      ensures i < |buf| ==> segs[i] == buf[i]
    {
      assert segs[i] == l.snd.buf[i];
      FlushedAlike(k, l, segs[i]);
      if i >= |buf| {
        FirstSent(k, segs[i]);
      }
    }
  }

  lemma {:induction false} ReactsFrom(k: Kcb, f: Kcb, fasts: nat, timeouts: nat)
    requires ValidConfig(k.cfg) && f.cc == Adjusted(k.cfg, k.cc, U32(f.snd.nxt - f.snd.una), fasts, timeouts)
    requires timeouts == |ExpiredOnes(k.tm.current, k.snd.buf, |k.snd.buf|)|
    requires fasts > 0 <==> SomeFast(k.cfg, k.tm.current, k.snd.buf, |k.snd.buf|)
    ensures Reacts(k, f)
  {
    AdjustReacts(k.cfg, k.cc, U32(f.snd.nxt - f.snd.una), fasts, timeouts);
    hide Adjusted, ExpiredOnes, SomeFast, U32;
  }

  /** Timers, counters and congestion window after a flush are exactly these. */
  lemma {:induction false} FlushTimes(wrap: bool, k: Kcb)
    requires ValidConfig(k.cfg) && k.tm.updated
    ensures Timed(k, Flush(wrap, k).k) && Reacts(k, Flush(wrap, k).k)
  {
    hide *;
    var l, f := Launch(wrap, Quiet(k), SendWindow(k)), Flush(wrap, k).k;
    var s := SweepUpto(l, |l.snd.buf|);
    FlushCounts(wrap, k);
    QuietKeeps(k);
    LaunchUntouched(wrap, Quiet(k), SendWindow(k));
    SweepCounted(l, |l.snd.buf|);
    TimedFrom(k, l, s, f);
    ReactsFrom(k, f, s.fasts, s.timeouts);
  }

  // ---------------------------------------------------------------- sent exactly when due

  lemma {:induction false} InList(idx: seq<nat>, i: nat) returns (j: nat)
    requires i in idx
    ensures j < |idx| && idx[j] == i
  {
    j :| 0 <= j < |idx| && idx[j] == i;
  }

  /** A due segment is in the flush as a data packet with its number, fragment and octets and the current clock. */
  lemma {:induction false} DueGoesOut(wrap: bool, k: Kcb, i: nat) returns (p: Packet)
    requires ValidConfig(k.cfg) && k.tm.updated && i < |k.snd.buf| && Due(k.cfg, k.tm.current, k.snd.buf[i])
    ensures p in Flush(wrap, k).ps
            && p == Headed(k, CMD_PUSH, k.snd.buf[i].frg % 0x100, k.tm.current, k.snd.buf[i].sn, k.snd.buf[i].data)
  {
    var f := Flush(wrap, k);
    hide Flush, Due, ControlOf, Headed, LeastBound, Diff, Norm, Number;
    var c, idx := FlushSpeaks(wrap, k);
    var w, n := FlushLaunches(wrap, k);
    var j := InList(idx, i);
    assert SamePlace(f.k.snd.buf[i], k.snd.buf[i]);
    p := f.ps[c..][j];
    assert p == f.ps[c + j];
  }

  lemma {:induction false} OnlyDueGoOut(k: Kcb, i: nat, p: Packet)
    requires ValidConfig(k.cfg) && k.tm.updated && Ordered(k.snd.buf, k.snd.una, k.snd.nxt) && i < |k.snd.buf|
    requires p in Flush(false, k).ps && p.cmd == CMD_PUSH as int && p.sn == k.snd.buf[i].sn
    ensures Due(k.cfg, k.tm.current, k.snd.buf[i])
  {
    hide *;
    var f := Flush(false, k);
    var c, idx := FlushSpeaks(false, k);
    var w, n := FlushLaunches(false, k);
    SpeaksOf(k, f, c, idx);
    var j := DataPlace(k, f.ps, c, p);
    FlushRespectsWindows(k);
    SentFrom(k, f, c, idx, j, p);
    NumbersApart(k, f.k.snd, w, n, idx[j], i);
  }

  lemma {:induction false} SpeaksOf(k: Kcb, f: FlushResult, c: nat, idx: seq<nat>)
    requires Speaks(k, f, c, idx)
    ensures c <= |f.ps| && ControlOf(k, f.ps[..c]) && |f.ps[c..]| == |idx|
  {
    hide ControlOf, Due, Headed;
  }

  /** The data packet at place j is that of segment idx[j], which is new or due. */
  lemma {:induction false} SentFrom(k: Kcb, f: FlushResult, c: nat, idx: seq<nat>, j: nat, p: Packet)
    requires Speaks(k, f, c, idx) && j < |idx| && c + j < |f.ps| && f.ps[c..][j] == p
    ensures idx[j] < |f.k.snd.buf| && f.k.snd.buf[idx[j]].sn == p.sn
    ensures idx[j] < |k.snd.buf| ==> Due(k.cfg, k.tm.current, k.snd.buf[idx[j]])
  {
    hide ControlOf, Due;
    assert idx[j] in idx;
  }

  /** A segment of the same number after the flush is the same segment. */
  lemma {:induction false} NumbersApart(k: Kcb, snd: Sender, w: nat, n: nat, m: nat, i: nat)
    requires Ordered(k.snd.buf, k.snd.una, k.snd.nxt) && Bounded(k, snd) && Launches(false, k.snd, snd, w, n)
    requires i < |k.snd.buf| && m < |snd.buf| && snd.buf[m].sn == k.snd.buf[i].sn
    ensures m == i
  {
    if m < |k.snd.buf| {
      assert SamePlace(snd.buf[m], k.snd.buf[m]);
    }
    hide Diff, Norm, Number;
  }

  /** A data packet stands behind the control packets. */
  lemma {:induction false} DataPlace(k: Kcb, ps: seq<Packet>, c: nat, p: Packet) returns (j: nat)
    requires c <= |ps| && ControlOf(k, ps[..c]) && p in ps && p.cmd == CMD_PUSH as int
    ensures c + j < |ps| && ps[c + j] == p && ps[c..][j] == p
  {
    var i :| 0 <= i < |ps| && ps[i] == p;
    if i < c {
      assert ps[..c][i] == p;
      ControlCommands(k, ps[..c], i);
    }
    j := i - c;
  }

  lemma {:induction false} ControlCommands(k: Kcb, ps: seq<Packet>, i: nat)
    requires ControlOf(k, ps) && i < |ps|
    ensures ps[i].cmd != CMD_PUSH as int
  {
    hide TimeDiff, Free;
  }

  /** Of what is outstanding, a flush sends exactly the segments that are due. */
  lemma {:induction false} SentExactly(k: Kcb, i: nat)
    requires ValidConfig(k.cfg) && k.tm.updated && Ordered(k.snd.buf, k.snd.una, k.snd.nxt) && i < |k.snd.buf|
    ensures (exists p :: p in Flush(false, k).ps && p.cmd == CMD_PUSH as int && p.sn == k.snd.buf[i].sn)
            <==> Due(k.cfg, k.tm.current, k.snd.buf[i])
  {
    hide Flush, Due, Ordered;
    if Due(k.cfg, k.tm.current, k.snd.buf[i]) {
      var p := DueGoesOut(false, k, i);
    }
    if p :| p in Flush(false, k).ps && p.cmd == CMD_PUSH as int && p.sn == k.snd.buf[i].sn {
      OnlyDueGoOut(k, i, p);
    }
  }
}
