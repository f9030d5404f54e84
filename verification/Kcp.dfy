/** The KCP control block of ikcp.c, updated in place, and its operations proved against KcpSpec with 32-bit numbers. */
module KcpBlock {
  import opened Bytes
  import opened KcpSpec
  import opened KcpWire
  import opened KcpBuffer
  import opened KcpMessages
  import opened KcpFlow
  import KcpFlushing
  import KcpInputs
  import KcpLists
  import opened KcpTimers

  predicate SegmentOk(s: Segment, mss: nat)
  {
    s.sn < TWO_32 && s.una < TWO_32 && s.ts < TWO_32 && |s.data| <= mss
  }

  /** Segments whose header fields fit 32 bits and whose payload fits a datagram. */
  predicate SegmentsOk(segs: seq<Segment>, mss: nat)
  {
    forall i :: 0 <= i < |segs| ==> SegmentOk(segs[i], mss)
  }

  class Kcp {
    // settings, congestion and timing fields
    var cfg: Config
    var cc: Congestion
    var tm: Timing
    // sequence numbers and queues
    var sndUna: u32
    var sndNxt: u32
    var rcvNxt: u32
    var sndQueue: seq<Segment>
    var rcvQueue: seq<Segment>
    var sndBuf: seq<Segment>
    var rcvBuf: seq<Segment>
    var nSndQue: nat
    var nRcvQue: nat
    var nSndBuf: nat
    var nRcvBuf: nat
    // acknowledgements to send, the datagram under construction and the datagrams handed to the output callback
    var acks: seq<Ack>
    const out: OutBuffer
    var sent: seq<seq<byte>>

    ghost predicate ConfigOk()
      reads `cfg
    {
      ValidConfig(cfg)
    }

    ghost predicate SndOk()
      requires ConfigOk()
      reads `cfg, `sndQueue, `sndBuf, `nSndQue, `nSndBuf
    {
      && nSndQue == |sndQueue| && nSndBuf == |sndBuf|
      && SegmentsOk(sndQueue, cfg.Mss()) && SegmentsOk(sndBuf, cfg.Mss())
    }

    ghost predicate RcvOk()
      reads `rcvQueue, `rcvBuf, `nRcvQue, `nRcvBuf
    {
      nRcvQue == |rcvQueue| && nRcvBuf == |rcvBuf|
    }

    ghost predicate AcksOk()
      reads `acks
    {
      forall i :: 0 <= i < |acks| ==> acks[i].sn < TWO_32 && acks[i].ts < TWO_32
    }

    ghost predicate TmOk()
      reads `tm
    {
      tm.current < TWO_32 && tm.xmit < TWO_32
    }

    ghost predicate Valid()
      reads `cfg, `tm, `sndQueue, `sndBuf, `nSndQue, `nSndBuf, `rcvQueue, `rcvBuf, `nRcvQue, `nRcvBuf, `acks
    {
      ConfigOk() && SndOk() && RcvOk() && AcksOk() && TmOk()
    }

    ghost predicate OutOk()
      reads `cfg, out
    {
      out.Valid() && out.data.Length == 3 * (cfg.mtu + OVERHEAD)
    }

    /** The output callback has received base and then the finished datagrams; the buffer holds the current one. */
    ghost predicate Holds(base: seq<seq<byte>>, st: Packing)
      reads `sent, out, out.data
    {
      && out.Valid() && PackingFits(st)
      && sent == base + PrintDatagrams(st.done) && out.Contents() == PrintAll(st.cur)
    }

    ghost function Snd(): Sender
      reads `sndUna, `sndNxt, `sndQueue, `sndBuf
    {
      Sender(sndUna, sndNxt, sndQueue, sndBuf)
    }

    ghost function Rcv(): Receiver
      reads `rcvNxt, `rcvQueue, `rcvBuf, `acks
    {
      Receiver(rcvNxt, rcvQueue, rcvBuf, acks)
    }

    ghost function Abs(): Kcb
      reads this
    {
      Kcb(cfg, Snd(), Rcv(), cc, tm)
    }

    /** ikcp_create */
    constructor (c: u32)
      ensures Valid() && OutOk() && fresh(out) && fresh(out.data)
      ensures Abs() == Created(DefaultConfig(c)) && sent == []
    {
      cfg := Config(c, 1400, 32, WND_RCV, 0, 100, 100, 20, 0, 5, false, false);
      sndUna, sndNxt, rcvNxt := 0, 0, 0;
      sndQueue, rcvQueue, sndBuf, rcvBuf := [], [], [], [];
      nSndQue, nRcvQue, nSndBuf, nRcvBuf := 0, 0, 0, 0;
      cc := Congestion(0, 0, THRESH_MIN, WND_RCV);
      tm := Timing(0, 100, false, 0, 0, 200, 0, 0, false, false, 0, false);
      acks := [];
      out := new OutBuffer(3 * (1400 + OVERHEAD));
      sent := [];
    }

    // -------------------------------------------------------------- configuration

    /** ikcp_wndsize */
    method WndSize(snd: int, rcv: int)
      modifies `cfg
      ensures cfg == WithWindows(old(cfg), snd, rcv)
      ensures rcv > 0 ==> cfg.rcvWnd >= rcv && cfg.rcvWnd >= WND_RCV
      ensures old(ConfigOk()) && snd < 0x1000_0000 && rcv < 0x1000_0000 ==> ConfigOk()
    {
      if snd > 0 {
        cfg := cfg.(sndWnd := snd);
      }
      if rcv > 0 {
        cfg := cfg.(rcvWnd := Max(rcv, WND_RCV));
      }
    }

    /** ikcp_nodelay */
    method NoDelay(nodelay: int, interval: int, resend: int, nc: int)
      requires ConfigOk()
      modifies `cfg
      ensures ConfigOk() && cfg == WithNoDelay(old(cfg), nodelay, interval, resend, nc)
      ensures interval >= 0 ==> 10 <= cfg.interval <= 5000
      ensures interval >= 0 ==> forall x :: 10 <= x <= 5000 ==>
              Distance(cfg.interval, interval) <= Distance(x, interval)
      ensures WithNoDelay(cfg, nodelay, interval, resend, nc) == cfg
    {
      NoDelaySpec(cfg, nodelay, interval, resend, nc);
      if nodelay >= 0 {
        cfg := cfg.(nodelay := nodelay, minRto := if nodelay != 0 then 30 else 100);
      }
      if interval >= 0 {
        cfg := cfg.(interval := if interval > 5000 then 5000 else if interval < 10 then 10 else interval);
      }
      if resend >= 0 {
        cfg := cfg.(fastResend := resend);
      }
      if nc >= 0 {
        cfg := cfg.(noCwnd := nc != 0);
      }
    }

    // -------------------------------------------------------------- ikcp_send

    /** Stream mode: top up the last queued segment.  Returns the octets used. */
    method TopUp(data: seq<byte>, len: nat) returns (extend: nat)
      requires ConfigOk() && SndOk() && cfg.stream && len <= |data|
      modifies `sndQueue
      ensures SndOk() && extend == Extension(cfg, old(Snd()), data[..len])
      ensures Snd() == Extended(cfg, old(Snd()), data[..len])
    {
      var mss := cfg.Mss();
      extend := 0;
      if sndQueue != [] {
        var last := sndQueue[|sndQueue| - 1];
        if |last.data| < mss {
          var capacity := mss - |last.data|;
          extend := if len < capacity then len else capacity;
          assert data[..len][..extend] == data[..extend];
          sndQueue := sndQueue[..|sndQueue| - 1] + [Blank(0, last.data + data[..extend])];
        }
      }
    }

    /** One turn of the fragment loop. */
    method QueueOne(data: seq<byte>, pos: nat, len: nat, left: nat) returns (next: nat)
      requires ConfigOk() && SndOk() && pos <= len <= |data| && left > 0 && len - pos <= Product(left, cfg.Mss())
      modifies `sndQueue, `nSndQue
      ensures SndOk() && pos <= next <= len && len - next <= Product(left - 1, cfg.Mss())
      ensures old(sndQueue) + Fragments(data[pos..len], cfg.Mss(), left, cfg.stream)
           == sndQueue + Fragments(data[next..len], cfg.Mss(), left - 1, cfg.stream)
    {
      var mss, stream := cfg.Mss(), cfg.stream;
      hide Fragments, Product, SegmentsOk, ValidConfig;
      var size := if len - pos > mss then mss else len - pos;
      var seg := Blank(if stream then 0 else left - 1, data[pos..pos + size]);
      FragmentsNext(data, pos, len, mss, left, stream);
      NextCovers(len - pos, mss, left);
      OkSnoc(sndQueue, seg, mss);
      AppendAssociates(sndQueue, [seg], Fragments(data[pos + size..len], mss, left - 1, stream));
      sndQueue := sndQueue + [seg];
      nSndQue := nSndQue + 1;
      next := pos + size;
    }

    /** Cut the octets from pos to len into count segments and queue them. */
    method QueueFragments(data: seq<byte>, from: nat, len: nat, count: nat)
      requires ConfigOk() && SndOk() && from <= len <= |data|
      requires count == FragmentCount(len - from, cfg.Mss())
      modifies `sndQueue, `nSndQue
      ensures SndOk()
      ensures sndQueue == old(sndQueue) + Fragments(data[from..len], cfg.Mss(), count, cfg.stream)
    {
      var mss, stream := cfg.Mss(), cfg.stream;
      CountCovers(len - from, mss);
      assert mss > 0;
      hide *;
      ghost var all := sndQueue + Fragments(data[from..len], mss, count, stream);
      var pos := from;
      var i := 0;
      while i < count
        invariant 0 <= i <= count && from <= pos <= len && SndOk() && len - pos <= Product(count - i, mss)
        invariant all == sndQueue + Fragments(data[pos..len], mss, count - i, stream)
      {
        pos := QueueOne(data, pos, len, count - i);
        i := i + 1;
      }
      NoFragments(data[pos..len], mss, stream);
    }

    /** ikcp_send in both modes: the first ret octets are queued, or none on a negative result. */
    method Send(data: seq<byte>, len: int) returns (ret: int)
      requires Valid() && len <= |data|
      modifies `sndQueue, `nSndQue
      ensures Valid()
      ensures len < 0 ==> ret == -1 && Abs() == old(Abs())
      ensures len >= 0 ==> (Abs(), ret) == KcpSpec.Send(old(Abs()), data[..len])
    {
      if len < 0 {
        return -1;
      }
      ghost var msg := data[..len];
      var mss, stream := cfg.Mss(), cfg.stream;
      hide Fragments, Extension, Extended, SegmentsOk;
      var pos := 0;
      NoExtension(cfg, Snd(), msg);
      if stream {
        pos := TopUp(data, len);
        assert msg[pos..] == data[pos..len];
        if len - pos <= 0 {
          return pos;
        }
      }
      assert msg[pos..] == data[pos..len];
      var count := if len - pos <= mss then 1 else (len - pos + mss - 1) / mss;
      if count >= WND_RCV {
        if stream && pos > 0 {
          return pos;
        }
        return -2;
      }
      QueueFragments(data, pos, len, count);
      return len;
    }

    // -------------------------------------------------------------- ikcp_peeksize and ikcp_recv

    /** ikcp_peeksize */
    method PeekSize() returns (size: int)
      requires RcvOk()
      ensures size == KcpSpec.PeekSize(rcvQueue)
    {
      if rcvQueue == [] {
        return -1;
      }
      var seg := rcvQueue[0];
      if seg.frg == 0 {
        return |seg.data|;
      }
      if nRcvQue < seg.frg + 1 {
        return -1;
      }
      var length := 0;
      var i := 0;
      while i < |rcvQueue|
        invariant 0 <= i <= |rcvQueue|
        invariant length == |Join(rcvQueue[..i])|
        invariant MessageEnd(rcvQueue) == i + MessageEnd(rcvQueue[i..])
      {
        JoinNext(rcvQueue, i);
        length := length + |rcvQueue[i].data|;
        EndNext(rcvQueue, i);
        if rcvQueue[i].frg == 0 {
          return length;
        }
        i := i + 1;
      }
      assert rcvQueue[i..] == [];
      return length;
    }

    /** The loop that moves in-order segments from rcv_buf to rcv_queue. */
    method MoveAvailable()
      requires RcvOk()
      modifies `rcvBuf, `rcvQueue, `rcvNxt, `nRcvBuf, `nRcvQue
      ensures RcvOk() && Rcv() == Drain(true, old(Rcv()), cfg.rcvWnd)
    {
      hide U32, Drain;
      ghost var r0 := Rcv();
      while rcvBuf != []
        invariant RcvOk()
        invariant Drain(true, Rcv(), cfg.rcvWnd) == Drain(true, r0, cfg.rcvWnd)
        decreases |rcvBuf|
      {
        var seg := rcvBuf[0];
        DrainUnfolds(Rcv(), cfg.rcvWnd);
        if seg.sn == rcvNxt && nRcvQue < cfg.rcvWnd {
          rcvBuf := rcvBuf[1..];
          nRcvBuf := nRcvBuf - 1;
          rcvQueue := rcvQueue + [seg];
          nRcvQue := nRcvQue + 1;
          WordU32(rcvNxt + 1);
          rcvNxt := U32(rcvNxt + 1);
        } else {
          return;
        }
      }
      DrainUnfolds(Rcv(), cfg.rcvWnd);
    }

    /** Merge the fragments of the first message, removing them unless peeking. */
    method TakeMessage(peek: bool) returns (msg: seq<byte>)
      requires RcvOk() && rcvQueue != []
      modifies `rcvQueue, `nRcvQue
      ensures RcvOk() && msg == Join(old(rcvQueue)[..MessageEnd(old(rcvQueue))])
      ensures rcvQueue == if peek then old(rcvQueue) else old(rcvQueue)[MessageEnd(old(rcvQueue))..]
    {
      hide Join, MessageEnd;
      ghost var queue := rcvQueue;
      EmptyJoin(queue);
      msg := [];
      ghost var i := 0;
      var rest := rcvQueue;
      while rest != []
        invariant 0 <= i <= |queue| && rest == queue[i..] && RcvOk()
        invariant rcvQueue == if peek then queue else rest
        invariant msg == Join(queue[..i])
        invariant MessageEnd(queue) == i + MessageEnd(rest)
        decreases |rest|
      {
        var seg := rest[0];
        JoinNext(queue, i);
        EndNext(queue, i);
        msg := msg + seg.data;
        rest := rest[1..];
        i := i + 1;
        if !peek {
          rcvQueue := rcvQueue[1..];
          nRcvQue := nRcvQue - 1;
        }
        if seg.frg == 0 {
          return;
        }
      }
    }

    /** Hand up the first message, refill the queue and note a window that opened again. */
    method Deliver(peek: bool) returns (msg: seq<byte>)
      requires RcvOk() && rcvQueue != []
      modifies `rcvBuf, `rcvQueue, `rcvNxt, `nRcvBuf, `nRcvQue, `tm
      ensures RcvOk() && msg == Join(old(rcvQueue)[..MessageEnd(old(rcvQueue))])
      ensures var kept := if peek then old(rcvQueue) else old(rcvQueue)[MessageEnd(old(rcvQueue))..];
              Rcv() == Drain(true, old(Rcv()).(queue := kept), cfg.rcvWnd)
      ensures tm == old(tm).(askTell := old(tm).askTell || (|old(rcvQueue)| >= cfg.rcvWnd && |rcvQueue| < cfg.rcvWnd))
    {
      hide Drain, Join, MessageEnd;
      var recover := nRcvQue >= cfg.rcvWnd;
      msg := TakeMessage(peek);
      MoveAvailable();
      if nRcvQue < cfg.rcvWnd && recover {
        tm := tm.(askTell := true);
      }
    }

    /** ikcp_recv; the source's assertion that the merged length is the peeked one holds. */
    method Recv(len: int) returns (ret: int, msg: seq<byte>)
      requires Valid()
      modifies `rcvBuf, `rcvQueue, `rcvNxt, `nRcvBuf, `nRcvQue, `tm
      ensures Valid()
      ensures (Abs(), ret, msg) == KcpSpec.Recv(true, old(Abs()), len)
    {
      ghost var k := Abs();
      RecvCases(k, len);
      hide ConfigOk, SndOk, Snd, KcpSpec.Recv;
      if rcvQueue == [] {
        return -1, [];
      }
      var size := PeekSize();
      if size < 0 {
        return -2, [];
      }
      if size > (if len < 0 then -len else len) {
        return -3, [];
      }
      msg := Deliver(len < 0);
      assert |msg| == size;
      ret := |msg|;
    }

    // -------------------------------------------------------------- acknowledgements received

    /** ikcp_parse_una */
    method ParseUna(una: u32)
      requires ConfigOk() && SndOk()
      modifies `sndBuf, `nSndBuf
      ensures SndOk() && sndBuf == DropAcked(true, old(sndBuf), una)
    {
      hide TimeDiff;
      while sndBuf != []
        invariant SndOk() && DropAcked(true, sndBuf, una) == DropAcked(true, old(sndBuf), una)
        decreases |sndBuf|
      {
        if TimeDiff(una, sndBuf[0].sn) > 0 {
          sndBuf := sndBuf[1..];
          nSndBuf := nSndBuf - 1;
        } else {
          return;
        }
      }
    }

    /** ikcp_shrink_buf */
    method ShrinkBuf()
      requires ConfigOk() && SndOk()
      modifies `sndUna
      ensures SndOk() && Snd() == Shrink(old(Snd()))
    {
      if sndBuf != [] {
        sndUna := sndBuf[0].sn;
      } else {
        sndUna := sndNxt;
      }
    }

    /** ikcp_parse_ack */
    method ParseAck(sn: u32)
      requires ConfigOk() && SndOk()
      modifies `sndBuf, `nSndBuf
      ensures SndOk() && Snd() == KcpSpec.ParseAck(true, old(Snd()), sn)
    {
      hide TimeDiff, RemoveSn;
      if TimeDiff(sn, sndUna) < 0 || TimeDiff(sn, sndNxt) >= 0 {
        return;
      }
      var i := 0;
      while i < |sndBuf|
        invariant 0 <= i <= |sndBuf| && sndBuf == old(sndBuf) && SndOk()
        invariant RemoveSn(true, sndBuf, sn) == sndBuf[..i] + RemoveSn(true, sndBuf[i..], sn)
      {
        RemoveNext(sndBuf, i, sn);
        if sn == sndBuf[i].sn {
          sndBuf := sndBuf[..i] + sndBuf[i + 1..];
          nSndBuf := nSndBuf - 1;
          return;
        }
        if TimeDiff(sn, sndBuf[i].sn) < 0 {
          return;
        }
        i := i + 1;
      }
      RemoveNone(sndBuf, sn);
    }

    /** The loop of ikcp_parse_fastack: count against the segments before the first number above sn. */
    method CountFastAck(sn: u32, ts: u32)
      requires ConfigOk() && SndOk()
      modifies `sndBuf
      ensures SndOk() && sndBuf == FastAckBuf(true, old(sndBuf), sn, ts)
    {
      hide TimeDiff, FastAckBuf, BumpFastAck, U32;
      ghost var buf := sndBuf;
      var i := 0;
      while i < |sndBuf|
        invariant 0 <= i <= |sndBuf| == |buf| && sndBuf[i..] == buf[i..] && SndOk()
        invariant FastAckBuf(true, buf, sn, ts) == sndBuf[..i] + FastAckBuf(true, buf[i..], sn, ts)
      {
        var seg := sndBuf[i];
        FastAckNext(buf, i, sn, ts);
        if TimeDiff(sn, seg.sn) < 0 {
          return;
        }
        BumpMeans(seg, sn, ts);
        if sn != seg.sn && TimeDiff(ts, seg.ts) >= 0 {
          sndBuf := sndBuf[i := seg.(fastAck := U32(seg.fastAck + 1))];
        }
        i := i + 1;
      }
      FastAckNone(sn, ts);
    }

    /** ikcp_parse_fastack */
    method ParseFastAck(sn: u32, ts: u32)
      requires ConfigOk() && SndOk()
      modifies `sndBuf
      ensures SndOk() && Snd() == KcpSpec.ParseFastAck(true, old(Snd()), sn, ts)
      ensures if TimeDiff(sn, sndUna) >= 0 && TimeDiff(sn, sndNxt) < 0
              then exists n :: KcpLists.CountedUpto(true, old(sndBuf), sndBuf, sn, ts, n)
              else sndBuf == old(sndBuf)
    {
      ghost var n := KcpLists.FastAckScan(true, sndBuf, sn, ts);
      hide TimeDiff, FastAckBuf, SegmentsOk, KcpLists.CountedUpto;
      if TimeDiff(sn, sndUna) < 0 || TimeDiff(sn, sndNxt) >= 0 {
        return;
      }
      CountFastAck(sn, ts);
    }

    /** ikcp_update_ack */
    method UpdateAck(rtt: nat)
      modifies `tm
      ensures tm == UpdateRtt(cfg, old(tm), rtt)
      ensures cfg.minRto <= RTO_MAX ==> cfg.minRto <= tm.rto <= RTO_MAX && tm.rto >= Min(tm.srtt, RTO_MAX)
      ensures old(tm).srtt > 0 ==> Max(1, Min(old(tm).srtt, rtt)) <= tm.srtt <= Max(old(tm).srtt, rtt)
    {
      RttBounds(cfg, tm, rtt);
      var srtt, rttVal := tm.srtt, tm.rttVal;
      if srtt == 0 {
        srtt := rtt;
        rttVal := rtt / 2;
      } else {
        var delta := rtt - srtt;
        if delta < 0 {
          delta := -delta;
        }
        rttVal := (3 * rttVal + delta) / 4;
        srtt := (7 * srtt + rtt) / 8;
        if srtt < 1 {
          srtt := 1;
        }
      }
      var rto := srtt + Max(cfg.interval, 4 * rttVal);
      tm := tm.(srtt := srtt, rttVal := rttVal, rto := Min(Max(cfg.minRto, rto), RTO_MAX));
    }

    // -------------------------------------------------------------- data received

    /** ikcp_parse_data: scan rcv_buf from its tail, insert unless present, then refill the queue. */
    method ParseData(seg: Segment)
      requires RcvOk()
      modifies `rcvBuf, `rcvQueue, `rcvNxt, `nRcvBuf, `nRcvQue
      ensures RcvOk() && Rcv() == KcpSpec.ParseData(true, old(Rcv()), cfg.rcvWnd, seg)
    {
      hide TimeDiff, Insert, Drain, U32;
      if TimeDiff(seg.sn, U32(rcvNxt + cfg.rcvWnd)) >= 0 || TimeDiff(seg.sn, rcvNxt) < 0 {
        return;
      }
      var repeated := false;
      var p := |rcvBuf|;
      assert rcvBuf[..p] == rcvBuf;
      while p > 0
        invariant 0 <= p <= |rcvBuf| && RcvOk() && Rcv() == old(Rcv())
        invariant Insert(true, rcvBuf, seg) == Insert(true, rcvBuf[..p], seg) + rcvBuf[p..]
      {
        InsertNext(rcvBuf, p, seg);
        if rcvBuf[p - 1].sn == seg.sn {
          repeated := true;
          break;
        }
        if TimeDiff(seg.sn, rcvBuf[p - 1].sn) > 0 {
          break;
        }
        p := p - 1;
      }
      InsertNone(seg);
      ghost var inserted := Insert(true, rcvBuf, seg);
      if !repeated {
        rcvBuf := rcvBuf[..p] + [seg] + rcvBuf[p..];
        nRcvBuf := nRcvBuf + 1;
      }
      assert Rcv() == old(Rcv()).(buf := inserted);
      MoveAvailable();
    }

    /** The data branch of ikcp_input; the acknowledgement list grows by ikcp_ack_push. */
    method TakePush(p: Packet)
      requires RcvOk() && AcksOk() && Fits(p)
      modifies `rcvBuf, `rcvQueue, `rcvNxt, `nRcvBuf, `nRcvQue, `acks
      ensures RcvOk() && AcksOk() && Rcv() == KcpSpec.TakePush(true, old(Rcv()), cfg.rcvWnd, p)
    {
      hide TimeDiff, U32, KcpSpec.ParseData, KnownCommand;
      if TimeDiff(p.sn, U32(rcvNxt + cfg.rcvWnd)) < 0 {
        acks := acks + [Ack(p.sn, p.ts)];
        if TimeDiff(p.sn, rcvNxt) >= 0 {
          ParseData(Arrived(p));
        }
      }
    }

    // -------------------------------------------------------------- ikcp_input

    /** What every packet does before its command is looked at. */
    method TakeHeader(p: Packet)
      requires ConfigOk() && SndOk() && Fits(p)
      modifies `cc, `sndBuf, `nSndBuf, `sndUna
      ensures SndOk() && Snd() == Shrink(old(Snd()).(buf := DropAcked(true, old(Snd()).buf, p.una)))
      ensures cc == old(cc).(rmtWnd := p.wnd)
    {
      hide DropAcked, KnownCommand, SegmentsOk, Shrink, ValidConfig;
      cc := cc.(rmtWnd := p.wnd);
      ParseUna(p.una);
      ShrinkBuf();
    }

    /** The acknowledgement branch of ikcp_input. */
    method TakeAck(p: Packet)
      requires ConfigOk() && SndOk() && Fits(p)
      modifies `tm, `sndBuf, `nSndBuf, `sndUna
      ensures SndOk() && Snd() == Shrink(KcpSpec.ParseAck(true, old(Snd()), p.sn))
      ensures var rtt := TimeDiff(old(tm).current, p.ts);
              tm == if rtt >= 0 then UpdateRtt(cfg, old(tm), rtt) else old(tm)
    {
      hide TimeDiff, KcpSpec.ParseAck, KnownCommand, SegmentsOk, Shrink, ValidConfig, UpdateRtt;
      var rtt := TimeDiff(tm.current, p.ts);
      if rtt >= 0 {
        UpdateAck(rtt);
      }
      ParseAck(p.sn);
      ShrinkBuf();
    }

    /** One turn of the ikcp_input loop. */
    method TakePacket(p: Packet, scan: Scan) returns (next: Scan)
      requires Valid() && Fits(p) && ScanOk(scan)
      modifies `cc, `tm, `sndBuf, `nSndBuf, `sndUna, `rcvBuf, `rcvQueue, `rcvNxt, `nRcvBuf, `nRcvQue, `acks
      ensures Valid() && ScanOk(next) && InputState(Abs(), next) == InputPacket(true, InputState(old(Abs()), scan), p)
    {
      InputCases(InputState(Abs(), scan), p);
      assert p.sn < TWO_32 && p.ts < TWO_32;
      hide ConfigOk, SndOk, RcvOk, AcksOk, Snd, Rcv, TimeDiff, Shrink, DropAcked, KcpSpec.ParseAck, KcpSpec.TakePush,
           Fits;
      hide InputPacket, UpdateRtt, ScanAck;
      next := scan;
      TakeHeader(p);
      if p.cmd == CMD_ACK as int {
        TakeAck(p);
        next := ScanAck(true, scan, p);
      } else if p.cmd == CMD_PUSH as int {
        TakePush(p);
      } else if p.cmd == CMD_WASK as int {
        tm := tm.(askTell := true);
      }
    }

    /** Slow start and congestion avoidance, run when snd_una advanced. */
    method GrowWindow()
      requires ConfigOk()
      modifies `cc
      ensures cc == KcpSpec.GrowWindow(old(cc), cfg.Mss())
    {
      hide U32, Product, Quotient;
      var mss := cfg.Mss();
      if cc.cwnd < cc.rmtWnd {
        if cc.cwnd < cc.ssthresh {
          cc := cc.(cwnd := U32(cc.cwnd + 1), incr := U32(cc.incr + mss));
        } else {
          if cc.incr < mss {
            cc := cc.(incr := mss);
          }
          cc := cc.(incr := U32(cc.incr + Quotient(Product(mss, mss), cc.incr) + mss / 16));
          if U32(Product(cc.cwnd + 1, mss)) <= cc.incr {
            cc := cc.(cwnd := Quotient(U32(cc.incr + mss - 1), mss));
          }
        }
        if cc.cwnd > cc.rmtWnd {
          cc := cc.(cwnd := cc.rmtWnd, incr := U32(Product(cc.rmtWnd, mss)));
        }
      }
    }

    /** What ikcp_input does after its loop. */
    method FinishInput(prevUna: u32, scan: Scan)
      requires Valid() && ScanOk(scan)
      modifies `sndBuf, `cc
      ensures Valid() && Abs() == KcpSpec.FinishInput(true, prevUna, InputState(old(Abs()), scan))
    {
      hide ConfigOk, SndOk, RcvOk, AcksOk, TimeDiff, KcpSpec.ParseFastAck, KcpSpec.GrowWindow;
      if scan.Latest? {
        ParseFastAck(scan.sn, scan.ts);
      }
      if TimeDiff(sndUna, prevUna) > 0 {
        GrowWindow();
      }
    }

    /** ikcp_input: a malformed packet ends the call with its code; the packets before it have taken effect. */
    method Input(data: seq<byte>) returns (ret: int)
      requires Valid()
      modifies `cc, `tm, `sndBuf, `nSndBuf, `sndUna, `rcvBuf, `rcvQueue, `rcvNxt, `nRcvBuf, `nRcvQue, `acks
      ensures Valid() && (Abs(), ret) == InputData(old(Abs()), data)
    {
      hide ConfigOk, SndOk, RcvOk, AcksOk, InputPacket, InputPackets, Parse, FromLe, Fits, KcpSpec.FinishInput;
      ghost var k := Abs();
      var prevUna := sndUna;
      if |data| < OVERHEAD {
        return -1;
      }
      var scan := NoAck;
      var pos := 0;
      ghost var done: seq<Packet> := [];
      StartInput(cfg.conv, data, InputState(k, scan));
      while |data| - pos >= OVERHEAD
        invariant 0 <= pos <= |data| && Valid() && ScanOk(scan)
        invariant Parse(cfg.conv, data) == Extend(done, Parse(cfg.conv, data[pos..]))
        invariant InputState(Abs(), scan) == InputPackets(true, InputState(k, NoAck), done)
      {
        var h, len := ReadHeader(data[pos..]), ReadLength(data[pos..]);
        ParseNext(cfg.conv, data, pos, done);
        if h.conv != cfg.conv {
          return -1;
        }
        if |data| - pos - OVERHEAD < len || len >= TWO_31 {
          return -2;
        }
        if !KnownCommand(h.cmd) {
          return -3;
        }
        pos := pos + OVERHEAD;
        var p := h.(data := data[pos..pos + len]);
        assert (done + [p])[..|done|] == done;
        InputSnoc(true, InputState(k, NoAck), done + [p]);
        scan := TakePacket(p, scan);
        done := done + [p];
        pos := pos + len;
      }
      EndInput(cfg.conv, data[pos..], done);
      FinishInput(prevUna, scan);
      ret := 0;
    }

    // -------------------------------------------------------------- ikcp_flush

    /** ikcp_output: hand the datagram to the callback unless it is empty, and start a new one. */
    method Output(ghost base: seq<seq<byte>>, ghost st: Packing)
      requires OutOk() && Holds(base, st)
      modifies `sent, out
      ensures OutOk() && Holds(base, Emit(st)) && out.size == 0
    {
      hide Fits, Print;
      EmitFits(st);
      if out.size != 0 {
        sent := sent + [out.data[..out.size]];
      }
      out.Clear();
    }

    /** Send what is there when need more octets do not fit the datagram. */
    method MakeRoom(need: nat, ghost base: seq<seq<byte>>, ghost st: Packing)
      requires OutOk() && Holds(base, st) && need <= cfg.mtu
      modifies `sent, out
      ensures OutOk() && Holds(base, if TotalSize(st.cur) + need > cfg.mtu then Emit(st) else st)
      ensures out.size + need <= cfg.mtu
    {
      hide Fits, Print, PrintDatagrams, PackingFits;
      if out.size + need > cfg.mtu {
        Output(base, st);
      }
    }

    /** Encode a packet into a datagram that has room for it. */
    method Put(p: Packet, ghost base: seq<seq<byte>>, ghost st: Packing)
      requires OutOk() && Holds(base, st) && Fits(p) && out.size + WireSize(p) <= cfg.mtu
      modifies out, out.data
      ensures OutOk() && Holds(base, st.(cur := st.cur + [p]))
    {
      PutFits(st, p);
      hide Fits, Print, PrintDatagrams, PrintAll, PackingFits;
      out.PutPacket(p);
    }

    /** Encode a packet, first sending what is there when both do not fit one datagram. */
    method Append(p: Packet, ghost base: seq<seq<byte>>, ghost st: Packing)
      requires OutOk() && Holds(base, st) && Fits(p) && WireSize(p) <= cfg.mtu
      modifies `sent, out, out.data
      ensures OutOk() && Holds(base, PackOne(cfg.mtu, st, p))
    {
      hide Fits, Holds;
      MakeRoom(OVERHEAD + |p.data|, base, st);
      Put(p, base, if TotalSize(st.cur) + WireSize(p) > cfg.mtu then Emit(st) else st);
    }

    /** ikcp_wnd_unused */
    method WndUnused() returns (unused: nat)
      requires RcvOk()
      ensures unused == Unused(Abs())
    {
      unused := if nRcvQue < cfg.rcvWnd then cfg.rcvWnd - nRcvQue else 0;
    }

    /** Encode the pending acknowledgements and forget them. */
    method FlushAcks(wnd: nat, ghost base: seq<seq<byte>>) returns (last: Ack)
      requires Valid() && OutOk() && wnd == Unused(Abs()) && Holds(base, Packing([], []))
      modifies `sent, `acks, out, out.data
      ensures OutOk() && acks == [] && last == LastAck(old(Abs())) && last.sn < TWO_32 && last.ts < TWO_32
      ensures Holds(base, PackAll(cfg.mtu, Packing([], []), AckPackets(old(Abs()), |old(acks)|)))
    {
      hide Holds, SndOk, RcvOk, PackAll;
      ghost var k := Abs();
      last := Ack(0, 0);
      NoAcks(k, cfg.mtu);
      var i := 0;
      while i < |acks|
        invariant 0 <= i <= |acks| && acks == old(acks) && OutOk()
        invariant last == if i == 0 then Ack(0, 0) else acks[i - 1]
        invariant Holds(base, PackAll(cfg.mtu, Packing([], []), AckPackets(k, i)))
      {
        last := acks[i];
        AckNext(k, i, cfg.mtu);
        Append(Packet(cfg.conv, CMD_ACK, 0, wnd % 0x1_0000, last.ts, last.sn, rcvNxt, []), base,
               PackAll(cfg.mtu, Packing([], []), AckPackets(k, i)));
        i := i + 1;
      }
      acks := [];
    }

    /** The zero-window probe timer. */
    method TickProbe()
      modifies `tm
      ensures tm == ProbeTimer(old(tm), cc.rmtWnd)
      ensures old(ProbeOk(tm)) ==>
              ProbeOk(tm)
              && (cc.rmtWnd == 0 ==> PROBE_INIT <= tm.probeWait && old(tm).probeWait <= tm.probeWait)
    {
      hide U32, TimeDiff;
      if cc.rmtWnd == 0 {
        if tm.probeWait == 0 {
          tm := tm.(probeWait := PROBE_INIT, tsProbe := U32(tm.current + PROBE_INIT));
        } else if TimeDiff(tm.current, tm.tsProbe) >= 0 {
          var wait := Max(tm.probeWait, PROBE_INIT);
          wait := wait + wait / 2;
          if wait > PROBE_LIMIT {
            wait := PROBE_LIMIT;
          }
          tm := tm.(probeWait := wait, tsProbe := U32(tm.current + wait), askSend := true);
        }
      } else {
        tm := tm.(tsProbe := 0, probeWait := 0);
      }
    }

    /** Encode the window probes asked for. */
    method FlushProbes(wnd: nat, last: Ack, ghost k: Kcb, ghost base: seq<seq<byte>>, ghost st: Packing)
      requires ConfigOk() && OutOk() && Holds(base, st)
      requires k.cfg == cfg && wnd == Unused(k) && last == LastAck(k) && last.sn < TWO_32 && last.ts < TWO_32
               && k.rcv.nxt == rcvNxt
      modifies `sent, `tm, out, out.data
      ensures OutOk() && Holds(base, PackAll(cfg.mtu, st, ProbePackets(k, old(tm))))
      ensures tm == old(tm).(askSend := false, askTell := false)
    {
      hide Holds, PackOne, Unused, LastAck;
      PackProbes(k, tm, cfg.mtu, st);
      ghost var st1 := st;
      if tm.askSend {
        Append(Packet(cfg.conv, CMD_WASK, 0, wnd % 0x1_0000, last.ts, last.sn, rcvNxt, []), base, st);
        st1 := PackOne(cfg.mtu, st, Control(k, CMD_WASK, last));
      }
      if tm.askTell {
        Append(Packet(cfg.conv, CMD_WINS, 0, wnd % 0x1_0000, last.ts, last.sn, rcvNxt, []), base, st1);
      }
      tm := tm.(askSend := false, askTell := false);
    }

    /** Move segments from snd_queue to snd_buf while they fit the window. */
    method LaunchSegments(window: nat, wnd: nat)
      requires Valid() && wnd == Unused(Abs())
      modifies `sndQueue, `sndBuf, `nSndQue, `nSndBuf, `sndNxt
      ensures Valid() && Abs() == Launch(true, old(Abs()), window)
    {
      hide Launch, TimeDiff, U32, AcksOk, ValidConfig;
      ghost var k := Abs();
      while TimeDiff(sndNxt, U32(sndUna + window)) < 0
        invariant Valid() && Launch(true, Abs(), window) == Launch(true, k, window) && wnd == Unused(Abs())
        decreases |sndQueue|
      {
        LaunchUnfolds(true, Abs(), window);
        if sndQueue == [] {
          break;
        }
        var seg := sndQueue[0].(wnd := wnd, ts := tm.current, sn := sndNxt, una := rcvNxt,
                                resendTs := tm.current, rto := tm.rto, fastAck := 0, xmit := 0);
        sndQueue := sndQueue[1..];
        sndBuf := sndBuf + [seg];
        nSndQue := nSndQue - 1;
        nSndBuf := nSndBuf + 1;
        WordU32(sndNxt + 1);
        sndNxt := U32(sndNxt + 1);
      }
      LaunchUnfolds(true, Abs(), window);
    }

    /** Whether a segment of snd_buf is due, and what it becomes. */
    method Retime(seg: Segment, wnd: nat, ghost k: Kcb) returns (next: Segment, why: Reason)
      requires Matches(k) && wnd == Unused(k)
      ensures why == WhySend(k, seg) && next == Flushed(k, seg)
      ensures why == Idle ==> next == seg
      ensures why != Idle ==> next.xmit == U32(seg.xmit + 1) && next.ts == tm.current
      ensures next.sn == seg.sn && next.frg == seg.frg && next.data == seg.data
    {
      hide U32, TimeDiff, Signed, HalfTowardZero, Unused;
      var resent := if cfg.fastResend > 0 then cfg.fastResend else 0xffff_ffff;
      var rtoMin := if cfg.nodelay == 0 then tm.rto / 8 else 0;
      next, why := seg, Idle;
      if seg.xmit == 0 {
        why := First;
        next := seg.(xmit := U32(seg.xmit + 1), rto := tm.rto, resendTs := U32(tm.current + tm.rto + rtoMin));
      } else if TimeDiff(tm.current, seg.resendTs) >= 0 {
        why := Timeout;
        var rto;
        if cfg.nodelay == 0 {
          rto := U32(seg.rto + Max(seg.rto, tm.rto));
        } else {
          var step := if cfg.nodelay < 2 then Signed(U32(seg.rto)) else tm.rto;
          rto := U32(seg.rto + HalfTowardZero(step));
        }
        next := seg.(xmit := U32(seg.xmit + 1), rto := rto, resendTs := U32(tm.current + rto));
      } else if seg.fastAck >= resent {
        if Signed(U32(seg.xmit)) <= cfg.fastLimit || cfg.fastLimit <= 0 {
          why := Fast;
          next := seg.(xmit := U32(seg.xmit + 1), fastAck := 0, resendTs := U32(tm.current + seg.rto));
        }
      }
      if why != Idle {
        next := next.(ts := tm.current, wnd := wnd, una := rcvNxt);
      }
    }

    /** The control block still has the settings, clock and receive side of k. */
    ghost predicate Matches(k: Kcb)
      reads `cfg, `tm, `rcvNxt
    {
      k.cfg == cfg && k.tm.current == tm.current && k.tm.rto == tm.rto && k.rcv.nxt == rcvNxt
    }

    /** Encode a segment and give up on the link when it has been sent too often. */
    method Transmit(seg: Segment, ghost k: Kcb, ghost base: seq<seq<byte>>, ghost st: Packing)
      requires OutOk() && Holds(base, st) && k.cfg == cfg
      requires Fits(DataPacket(k, seg)) && WireSize(DataPacket(k, seg)) <= cfg.mtu
      modifies `tm, `sent, out, out.data
      ensures OutOk() && Holds(base, PackOne(cfg.mtu, st, DataPacket(k, seg)))
      ensures tm == old(tm).(dead := old(tm).dead || seg.xmit >= cfg.deadLink)
    {
      hide Holds, Fits, PackOne;
      Append(Packet(cfg.conv, CMD_PUSH, seg.frg % 0x100, seg.wnd % 0x1_0000, seg.ts, seg.sn, seg.una, seg.data),
          base, st);
      if seg.xmit >= cfg.deadLink {
        tm := tm.(dead := true);
      }
    }

    /** Send the i-th segment of snd_buf if it is due. */
    method SendDue(i: nat, wnd: nat, ghost k: Kcb, ghost base: seq<seq<byte>>, ghost st: Packing) returns (why: Reason)
      requires ConfigOk() && SndOk() && TmOk() && OutOk() && Holds(base, st)
      requires i < |sndBuf| && Matches(k) && wnd == Unused(k)
      modifies `sndBuf, `tm, `sent, out, out.data
      ensures SndOk() && OutOk() && why == WhySend(k, old(sndBuf[i]))
              && sndBuf == old(sndBuf)[i := Flushed(k, old(sndBuf[i]))]
      ensures Holds(base, PackedDue(k, st, old(sndBuf[i])))
      ensures tm == TimedDue(k, old(tm), old(sndBuf[i]))
    {
      hide Holds, Fits, U32, Flushed, WhySend, PackOne, Unused, DataPacket, SegmentOk;
      var seg := sndBuf[i];
      var next;
      next, why := Retime(seg, wnd, k);
      DueFits(k, seg);
      hide ValidConfig;
      sndBuf := sndBuf[i := next];
      if why == Timeout {
        tm := tm.(xmit := U32(tm.xmit + 1));
      }
      if why != Idle {
        Transmit(next, k, base, st);
      }
    }

    /** The state of the sweep after the first n segments. */
    ghost predicate Swept(n: nat, k: Kcb, base: seq<seq<byte>>, st: Packing)
      requires n <= |k.snd.buf|
      reads `sndBuf, `tm, `sent, `cfg, out, out.data
    {
      var s := SweepUpto(k, n);
      && sndBuf == s.segs + k.snd.buf[n..] && Holds(base, PackAll(cfg.mtu, st, s.ps))
      && tm == k.tm.(xmit := U32(k.tm.xmit + s.timeouts), dead := k.tm.dead || s.dead)
    }

    /** One turn of the sweep; change counts fast retransmissions and lost notes a timeout. */
    method SendNext(i: nat, wnd: nat, change: nat, lost: bool, ghost k: Kcb, ghost base: seq<seq<byte>>,
                    ghost st: Packing)
      returns (change': nat, lost': bool)
      requires ConfigOk() && SndOk() && TmOk() && OutOk() && Matches(k) && wnd == Unused(k)
      requires i < |sndBuf| == |k.snd.buf| && Swept(i, k, base, st) && Counted(k, i, change, lost)
      modifies `sndBuf, `tm, `sent, out, out.data
      ensures SndOk() && TmOk() && OutOk() && Matches(k) && |sndBuf| == |k.snd.buf|
      ensures Swept(i + 1, k, base, st) && Counted(k, i + 1, change', lost')
    {
      hide Holds, U32, Flushed, WhySend, PackOne, PackAll, Unused, DataPacket, SegmentsOk, ValidConfig;
      ghost var s := SweepUpto(k, i);
      SweepNext(k, i, cfg.mtu, st);
      TimedNext(k, k.snd.buf[i], s.timeouts, s.dead);
      ReplaceNext(s.segs, k.snd.buf, i, Flushed(k, k.snd.buf[i]));
      hide SweepUpto, PackedDue, TimedDue;
      var why := SendDue(i, wnd, k, base, PackAll(cfg.mtu, st, s.ps));
      change' := if why == Fast then change + 1 else change;
      lost' := lost || why == Timeout;
    }

    lemma {:induction false} StartSweep(k: Kcb, base: seq<seq<byte>>, st: Packing)
      requires k == Abs() && TmOk() && Holds(base, st)
      ensures Swept(0, k, base, st) && Counted(k, 0, 0, false) && Matches(k)
    {
      SweepStart(k, cfg.mtu, st);
      assert [] + k.snd.buf[0..] == k.snd.buf;
      hide Holds, U32;
    }

    /** The loop of ikcp_flush over snd_buf. */
    method SweepBuf(wnd: nat, ghost k: Kcb, ghost base: seq<seq<byte>>, ghost st: Packing)
      returns (change: nat, lost: bool)
      requires Valid() && OutOk() && Holds(base, st) && k == Abs() && wnd == Unused(k)
      modifies `sndBuf, `tm, `sent, out, out.data
      ensures SndOk() && TmOk() && OutOk() && Swept(|k.snd.buf|, k, base, st) && Counted(k, |k.snd.buf|, change, lost)
    {
      hide Holds, Unused, RcvOk, AcksOk, ValidConfig, Swept, Counted, Matches;
      change, lost := 0, false;
      StartSweep(k, base, st);
      var i := 0;
      while i < |sndBuf|
        invariant 0 <= i <= |sndBuf| == |k.snd.buf|
        invariant SndOk() && TmOk() && OutOk() && Matches(k) && Swept(i, k, base, st) && Counted(k, i, change, lost)
      {
        change, lost := SendNext(i, wnd, change, lost, k, base, st);
        i := i + 1;
      }
    }

    /** ssthresh and cwnd after the sweep. */
    method AdjustWindow(change: nat, lost: bool)
      requires ConfigOk()
      modifies `cc
      ensures cc == Adjusted(cfg, old(cc), U32(sndNxt - sndUna), change, if lost then 1 else 0)
    {
      hide U32, Product;
      var prior := cc.cwnd;
      if change > 0 {
        var inflight := U32(sndNxt - sndUna);
        cc := cc.(ssthresh := Max(inflight / 2, THRESH_MIN));
        cc := cc.(cwnd := U32(cc.ssthresh + ResendThreshold(cfg)));
        cc := cc.(incr := U32(Product(cc.cwnd, cfg.Mss())));
      }
      if lost {
        cc := cc.(ssthresh := Max(prior / 2, THRESH_MIN), cwnd := 1, incr := cfg.Mss());
      }
      if cc.cwnd < 1 {
        cc := cc.(cwnd := 1, incr := cfg.Mss());
      }
    }

    /** Acknowledgements and window probes. */
    method FlushControl(wnd: nat, ghost base: seq<seq<byte>>)
      requires Valid() && OutOk() && wnd == Unused(Abs()) && Holds(base, Packing([], []))
      modifies `sent, `acks, `tm, out, out.data
      ensures Valid() && OutOk() && Abs() == Quiet(old(Abs()))
      ensures Holds(base, PackAll(cfg.mtu, Packing([], []), ControlPackets(old(Abs()))))
    {
      hide Holds, SndOk, RcvOk, PackAll, Unused, ProbeTimer, LastAck, AckPackets, ProbePackets, ValidConfig;
      ghost var k := Abs();
      var last := FlushAcks(wnd, base);
      TickProbe();
      TimerKeeps(k.tm, k.cc.rmtWnd);
      PackAllAppend(cfg.mtu, Packing([], []), AckPackets(k, |k.rcv.acks|), ProbePackets(k, tm));
      FlushProbes(wnd, last, k, base, PackAll(cfg.mtu, Packing([], []), AckPackets(k, |k.rcv.acks|)));
    }

    /** New segments, as many as the send window lets in. */
    method LaunchNew(wnd: nat)
      requires Valid() && wnd == Unused(Abs())
      modifies `sndQueue, `sndBuf, `nSndQue, `nSndBuf, `sndNxt
      ensures Valid() && Abs() == LaunchedAll(old(Abs()))
    {
      hide Launch, Unused, Valid;
      var window := Min(cfg.sndWnd, cc.rmtWnd);
      if !cfg.noCwnd {
        window := Min(cc.cwnd, window);
      }
      LaunchSegments(window, wnd);
    }

    /** Whatever of snd_buf is due. */
    method FlushData(wnd: nat, ghost base: seq<seq<byte>>, ghost st: Packing) returns (change: nat, lost: bool)
      requires Valid() && OutOk() && wnd == Unused(Abs()) && Holds(base, st)
      modifies `sndBuf, `nSndBuf, `sent, `tm, out, out.data
      ensures Valid() && OutOk() && Abs() == SweptAll(old(Abs()))
      ensures Holds(base, PackAll(cfg.mtu, st, AllSwept(old(Abs())).ps))
      ensures Counted(old(Abs()), |old(sndBuf)|, change, lost)
    {
      hide Holds, RcvOk, AcksOk, SegmentsOk, PackAll, Unused, Counted, ValidConfig, SweepUpto, U32;
      change, lost := SweepBuf(wnd, Abs(), base, st);
    }

    lemma {:induction false} StartOutput(base: seq<seq<byte>>)
      requires OutOk() && out.size == 0 && sent == base
      ensures Holds(base, Packing([], []))
    {
      assert base + PrintDatagrams([]) == base;
    }

    lemma {:induction false} EndOutput(base: seq<seq<byte>>, ps: seq<Packet>)
      requires Holds(base, Emit(PackAll(cfg.mtu, Packing([], []), ps)))
      ensures Handed(base, sent, cfg.mtu, ps)
    {
      hide PackAll, PrintAll, Fits;
    }

    /** The write pointer goes back to the start of the buffer. */
    method BeginOutput()
      requires OutOk()
      modifies out
      ensures OutOk() && Holds(sent, Packing([], []))
    {
      out.Clear();
      StartOutput(sent);
    }

    /** ikcp_flush up to the loop over snd_buf. */
    method FlushHead() returns (wnd: nat)
      requires Valid() && OutOk()
      modifies `sndQueue, `sndBuf, `nSndQue, `nSndBuf, `sndNxt, `sent, `acks, `tm, out, out.data
      ensures Valid() && OutOk() && Abs() == LaunchedAll(Quiet(old(Abs()))) && wnd == Unused(Abs())
      ensures Holds(old(sent), PackAll(cfg.mtu, Packing([], []), ControlPackets(old(Abs()))))
    {
      hide ConfigOk, SndOk, AcksOk, TmOk, OutOk, Holds, Unused, PackAll, LaunchedAll, Quiet, ControlPackets;
      ghost var base := sent;
      SameWindow(Abs());
      wnd := WndUnused();
      BeginOutput();
      hide Abs, Valid;
      FlushControl(wnd, base);
      LaunchNew(wnd);
    }

    /** The last, partly filled datagram. */
    method FlushTail(ghost control: seq<Packet>, ghost data: seq<Packet>, ghost base: seq<seq<byte>>)
      requires OutOk() && Holds(base, PackAll(cfg.mtu, PackAll(cfg.mtu, Packing([], []), control), data))
      modifies `sent, out
      ensures OutOk() && Handed(base, sent, cfg.mtu, control + data)
    {
      hide Holds, PackAll, Handed, Emit;
      PackAllAppend(cfg.mtu, Packing([], []), control, data);
      Output(base, PackAll(cfg.mtu, Packing([], []), control + data));
      EndOutput(base, control + data);
    }

    /** Everything ikcp_flush encodes. */
    method FlushPackets() returns (change: nat, lost: bool)
      requires Valid() && OutOk() && tm.updated
      modifies `sndQueue, `sndBuf, `nSndQue, `nSndBuf, `sndNxt, `sent, `acks, `tm, out, out.data
      ensures var l := LaunchedAll(Quiet(old(Abs())));
              && Valid() && OutOk() && Abs() == SweptAll(l) && Counted(l, |l.snd.buf|, change, lost)
              && Handed(old(sent), sent, old(cfg).mtu, ControlPackets(old(Abs())) + AllSwept(l).ps)
    {
      hide Valid, Holds, PackAll, Unused, Counted, LaunchedAll, SweptAll, AllSwept, Quiet, ControlPackets, Handed, Rcv;
      ghost var control, base := ControlPackets(Abs()), sent;
      var wnd := FlushHead();
      ghost var l := Abs();
      change, lost := FlushData(wnd, base, PackAll(cfg.mtu, Packing([], []), control));
      FlushTail(control, AllSwept(l).ps, base);
    }

    /** The body of ikcp_flush. */
    method FlushAll()
      requires Valid() && OutOk()
      modifies `sndQueue, `sndBuf, `nSndQue, `nSndBuf, `sndNxt, `sent, `acks, `tm, `cc, out, out.data
      ensures Valid() && OutOk() && Abs() == KcpSpec.Flush(true, old(Abs())).k
      ensures Handed(old(sent), sent, cfg.mtu, KcpSpec.Flush(true, old(Abs())).ps)
    {
      ghost var k := Abs();
      if !tm.updated {
        HandedNothing(sent, cfg.mtu);
        return;
      }
      FlushStages(k);
      ghost var l := LaunchedAll(Quiet(k));
      hide OutOk, SndOk, RcvOk, AcksOk, Counted, LaunchedAll, AllSwept, Quiet, ControlPackets, KcpSpec.Flush, Handed,
           Adjusted, U32;
      hide SegmentsOk, ValidConfig, SweepUpto, PrintDatagrams, Datagrams;
      var change, lost := FlushPackets();
      CountedAdjusts(l, change, lost, cc);
      AdjustWindow(change, lost);
    }

    /**
     ikcp_flush: the new state, and to the output callback the datagrams of the packets; what it
     launches fills the windows, and timers, counters and congestion window change as they should.
     */
    method Flush()
      requires Valid() && OutOk()
      modifies `sndQueue, `sndBuf, `nSndQue, `nSndBuf, `sndNxt, `sent, `acks, `tm, `cc, out, out.data
      ensures Valid() && OutOk() && Abs() == KcpSpec.Flush(true, old(Abs())).k
      ensures Handed(old(sent), sent, cfg.mtu, KcpSpec.Flush(true, old(Abs())).ps)
      ensures old(Abs()).tm.updated ==>
              && KcpFlushing.Filled(true, old(Abs()), Abs().snd)
              && KcpFlushing.Timed(old(Abs()), Abs()) && KcpFlushing.Reacts(old(Abs()), Abs())
    {
      ghost var k := Abs();
      FlushMeans(k);
      hide *;
      FlushAll();
    }

    /** The clock part of ikcp_update: whether a flush is due. */
    method Tick(now: u32) returns (due: bool)
      modifies `tm
      ensures tm == Ticked(old(tm), cfg.interval, now).tm && due == Ticked(old(tm), cfg.interval, now).due
    {
      hide TimeDiff, U32;
      tm := tm.(current := now);
      if !tm.updated {
        tm := tm.(updated := true, tsFlush := now);
      }
      var slap := TimeDiff(now, tm.tsFlush);
      if slap >= 10000 || slap < -10000 {
        tm := tm.(tsFlush := now);
        slap := 0;
      }
      due := slap >= 0;
      if due {
        tm := tm.(tsFlush := U32(tm.tsFlush + cfg.interval));
        if TimeDiff(now, tm.tsFlush) >= 0 {
          tm := tm.(tsFlush := U32(now + cfg.interval));
        }
      }
    }

    /** ikcp_update */
    method Update(now: u32)
      requires Valid() && OutOk()
      modifies `sndQueue, `sndBuf, `nSndQue, `nSndBuf, `sndNxt, `sent, `acks, `tm, `cc, out, out.data
      ensures Valid() && OutOk() && Abs() == KcpSpec.Update(true, old(Abs()), now).k
      ensures Handed(old(sent), sent, cfg.mtu, KcpSpec.Update(true, old(Abs()), now).ps)
    {
      UpdateParts(Abs(), now);
      TickedKeeps(tm, cfg.interval, now);
      hide ConfigOk, SndOk, RcvOk, AcksOk, OutOk, Snd, Rcv, KcpSpec.Flush, KcpSpec.Update, Handed, Ticked;
      HandedNothing(sent, cfg.mtu);
      var due := Tick(now);
      if due {
        Flush();
      }
    }
  }

  /** The control block of a new connection: ikcp_create and the configuration calls of a tunnel. */
  method OpenTunnelBlock() returns (k: Kcp)
    ensures fresh(k) && fresh(k.out) && fresh(k.out.data)
    ensures k.Valid() && k.OutOk() && k.Abs() == Created(TunnelConfig()) && k.sent == []
  {
    k := new Kcp(0x11223344);
    k.WndSize(32, 32);
    k.NoDelay(1, 20, 2, 1);
  }

  lemma {:induction false} RttBounds(cfg: Config, tm: Timing, rtt: nat)
    ensures var t := UpdateRtt(cfg, tm, rtt);
            && (cfg.minRto <= RTO_MAX ==> cfg.minRto <= t.rto <= RTO_MAX && t.rto >= Min(t.srtt, RTO_MAX))
            && (tm.srtt > 0 ==> Max(1, Min(tm.srtt, rtt)) <= t.srtt <= Max(tm.srtt, rtt))
  {
    RttSteady(cfg.(minRto := Min(cfg.minRto, RTO_MAX)), tm, rtt);
  }

  lemma {:induction false} TickedKeeps(tm: Timing, interval: nat, now: nat)
    ensures Ticked(tm, interval, now).tm.current == now && Ticked(tm, interval, now).tm.xmit == tm.xmit
  {
    hide TimeDiff, U32;
  }

  lemma {:induction false} UpdateParts(k: Kcb, now: nat)
    requires ValidConfig(k.cfg)
    ensures var t := Ticked(k.tm, k.cfg.interval, now);
            KcpSpec.Update(true, k, now)
            == if t.due then KcpSpec.Flush(true, k.(tm := t.tm)) else FlushResult(k.(tm := t.tm), [])
  {
    hide TimeDiff, U32, KcpSpec.Flush;
  }

  /** The output callback has received the datagrams of ps. */
  predicate Handed(before: seq<seq<byte>>, after: seq<seq<byte>>, mtu: nat, ps: seq<Packet>)
  {
    var ds := Datagrams(mtu, ps);
    (forall i :: 0 <= i < |ds| ==> AllFit(ds[i])) && after == before + PrintDatagrams(ds)
  }

  lemma {:induction false} HandedNothing(sent: seq<seq<byte>>, mtu: nat)
    ensures Handed(sent, sent, mtu, [])
  {
    assert Datagrams(mtu, []) == [];
    assert sent + PrintDatagrams([]) == sent;
  }

  lemma {:induction false} SameWindow(k: Kcb)
    ensures Unused(Quiet(k)) == Unused(k) && Unused(LaunchedAll(Quiet(k))) == Unused(k)
    ensures Quiet(k).cfg == k.cfg && LaunchedAll(Quiet(k)).cfg == k.cfg
  {
    LaunchKeeps(true, Quiet(k), SendWindow(Quiet(k)));
    hide Launch, SendWindow, ProbeTimer;
  }

  lemma {:induction false} FlushMeans(k: Kcb)
    requires ValidConfig(k.cfg)
    ensures var f := KcpSpec.Flush(true, k).k;
            k.tm.updated ==>
              KcpFlushing.Filled(true, k, f.snd) && KcpFlushing.Timed(k, f) && KcpFlushing.Reacts(k, f)
  {
    hide *;
    if k.tm.updated {
      KcpFlushing.FlushFills(true, k);
      KcpFlushing.FlushTimes(true, k);
    }
  }

  /** ikcp_flush in stages. */
  lemma {:induction false} FlushStages(k: Kcb)
    requires k.tm.updated && ValidConfig(k.cfg)
    ensures var l := LaunchedAll(Quiet(k));
            var s := AllSwept(l);
            var cc := Adjusted(k.cfg, k.cc, U32(l.snd.nxt - l.snd.una), s.fasts, s.timeouts);
            KcpSpec.Flush(true, k) == FlushResult(SweptAll(l).(cc := cc), ControlPackets(k) + s.ps)
    ensures LaunchedAll(Quiet(k)).cc == k.cc && LaunchedAll(Quiet(k)).cfg == k.cfg
  {
    LaunchKeeps(true, Quiet(k), SendWindow(Quiet(k)));
    hide Launch, SweepUpto, U32, Adjusted, ProbeTimer, AckPackets, ProbePackets;
  }

  /** The flag and the count the loop keeps are all the window adjustment looks at. */
  lemma {:induction false} CountedAdjusts(l: Kcb, change: nat, lost: bool, cc: Congestion)
    requires ValidConfig(l.cfg) && Counted(l, |l.snd.buf|, change, lost)
    ensures Adjusted(l.cfg, cc, U32(l.snd.nxt - l.snd.una), change, if lost then 1 else 0)
         == Adjusted(l.cfg, cc, U32(l.snd.nxt - l.snd.una), AllSwept(l).fasts, AllSwept(l).timeouts)
  {
    hide SweepUpto, U32, Product;
  }

  function LaunchedAll(k: Kcb): Kcb
  {
    Launch(true, k, SendWindow(k))
  }

  function AllSwept(k: Kcb): Sweep
  {
    SweepUpto(k, |k.snd.buf|)
  }

  /** The control block after the sweep over snd_buf. */
  function SweptAll(k: Kcb): Kcb
  {
    k.(snd := k.snd.(buf := AllSwept(k).segs),
       tm := k.tm.(xmit := U32(k.tm.xmit + AllSwept(k).timeouts), dead := k.tm.dead || AllSwept(k).dead))
  }

  lemma {:induction false} TimerKeeps(tm: Timing, rmtWnd: nat)
    ensures ProbeTimer(tm, rmtWnd).current == tm.current && ProbeTimer(tm, rmtWnd).xmit == tm.xmit
  {
    hide U32, TimeDiff;
  }

  lemma {:induction false} DueFits(k: Kcb, seg: Segment)
    requires ValidConfig(k.cfg) && SegmentOk(seg, k.cfg.Mss()) && k.tm.current < TWO_32 && k.rcv.nxt < TWO_32
    ensures var next := Flushed(k, seg);
            SegmentOk(next, k.cfg.Mss()) && Fits(DataPacket(k, next)) && WireSize(DataPacket(k, next)) <= k.cfg.mtu
  {
    hide U32, TimeDiff, Signed, BackedOff, WhySend, Unused;
  }

  lemma {:induction false} SweepStart(k: Kcb, mtu: nat, st: Packing)
    ensures SweepUpto(k, 0) == Sweep([], [], 0, 0, false) && PackAll(mtu, st, []) == st
    ensures k.tm.xmit < TWO_32 ==> U32(k.tm.xmit) == k.tm.xmit
  {
  }

  predicate Counted(k: Kcb, n: nat, change: nat, lost: bool)
    requires n <= |k.snd.buf|
  {
    change == SweepUpto(k, n).fasts && lost == (SweepUpto(k, n).timeouts > 0)
  }

  /** The packing once the segment has been looked at. */
  function PackedDue(k: Kcb, st: Packing, seg: Segment): Packing
  {
    if WhySend(k, seg).Idle? then st else PackOne(k.cfg.mtu, st, DataPacket(k, Flushed(k, seg)))
  }

  /** The retransmission count and the dead-link flag once the segment has been looked at. */
  function TimedDue(k: Kcb, tm: Timing, seg: Segment): Timing
  {
    tm.(xmit := if WhySend(k, seg).Timeout? then U32(tm.xmit + 1) else tm.xmit,
        dead := tm.dead || (!WhySend(k, seg).Idle? && Flushed(k, seg).xmit >= k.cfg.deadLink))
  }

  lemma {:induction false} WrapNext(x: nat)
    ensures U32(U32(x) + 1) == U32(x + 1) < TWO_32 && U32(x) < TWO_32
  {
  }

  lemma {:induction false} TimedNext(k: Kcb, seg: Segment, timeouts: nat, dead: bool)
    ensures var why, tm := WhySend(k, seg), k.tm.(xmit := U32(k.tm.xmit + timeouts), dead := k.tm.dead || dead);
            && TimedDue(k, tm, seg)
               == k.tm.(xmit := U32(k.tm.xmit + (timeouts + (if why.Timeout? then 1 else 0))),
                        dead := k.tm.dead || (dead || (!why.Idle? && Flushed(k, seg).xmit >= k.cfg.deadLink)))
            && TimedDue(k, tm, seg).xmit < TWO_32
  {
    WrapNext(k.tm.xmit + timeouts);
    hide U32, WhySend, Flushed;
  }

  lemma {:induction false} SweepNext(k: Kcb, i: nat, mtu: nat, st: Packing)
    requires i < |k.snd.buf| && mtu == k.cfg.mtu
    ensures PackAll(mtu, st, SweepUpto(k, i + 1).ps) == PackedDue(k, PackAll(mtu, st, SweepUpto(k, i).ps), k.snd.buf[i])
    ensures var s, s', seg := SweepUpto(k, i), SweepUpto(k, i + 1), k.snd.buf[i];
            && s'.segs == s.segs + [Flushed(k, seg)]
            && s'.timeouts == s.timeouts + (if WhySend(k, seg).Timeout? then 1 else 0)
            && s'.fasts == s.fasts + (if WhySend(k, seg).Fast? then 1 else 0)
            && s'.dead == (s.dead || (!WhySend(k, seg).Idle? && Flushed(k, seg).xmit >= k.cfg.deadLink))
  {
    var s, seg := SweepUpto(k, i), k.snd.buf[i];
    hide Flushed, WhySend, PackOne, PackAll, DataPacket;
    PackAllSnoc(mtu, st, s.ps, DataPacket(k, Flushed(k, seg)));
  }

  lemma {:induction false} ReplaceNext(front: seq<Segment>, buf: seq<Segment>, i: nat, out: Segment)
    requires |front| == i < |buf|
    ensures (front + buf[i..])[i] == buf[i]
    ensures (front + buf[i..])[i := out] == front + [out] + buf[i + 1..]
  {
  }

  lemma {:induction false} NoAcks(k: Kcb, mtu: nat)
    ensures PackAll(mtu, Packing([], []), AckPackets(k, 0)) == Packing([], [])
  {
  }

  lemma {:induction false} AckNext(k: Kcb, i: nat, mtu: nat)
    requires i < |k.rcv.acks|
    ensures PackAll(mtu, Packing([], []), AckPackets(k, i + 1))
         == PackOne(mtu, PackAll(mtu, Packing([], []), AckPackets(k, i)), Control(k, CMD_ACK, k.rcv.acks[i]))
  {
    hide PackAll, PackOne, Control;
    assert AckPackets(k, i + 1) == AckPackets(k, i) + [Control(k, CMD_ACK, k.rcv.acks[i])];
    PackAllSnoc(mtu, Packing([], []), AckPackets(k, i), Control(k, CMD_ACK, k.rcv.acks[i]));
  }

  lemma {:induction false} PackProbes(k: Kcb, tm: Timing, mtu: nat, st: Packing)
    ensures var st1 := if tm.askSend then PackOne(mtu, st, Control(k, CMD_WASK, LastAck(k))) else st;
            PackAll(mtu, st, ProbePackets(k, tm))
            == if tm.askTell then PackOne(mtu, st1, Control(k, CMD_WINS, LastAck(k))) else st1
  {
    hide PackOne, Control, LastAck;
    var ask, tell := Control(k, CMD_WASK, LastAck(k)), Control(k, CMD_WINS, LastAck(k));
    assert [ask] == [] + [ask] && [tell] == [] + [tell] && [ask] + [] == [ask];
    PackNone(mtu, st);
    PackAllSnoc(mtu, st, [], ask);
    PackAllSnoc(mtu, st, [], tell);
    PackAllSnoc(mtu, st, [ask], tell);
    hide PackAll;
  }

  predicate PackingFits(st: Packing)
  {
    (forall i :: 0 <= i < |st.done| ==> AllFit(st.done[i])) && AllFit(st.cur)
  }

  function PrintDatagrams(ds: seq<seq<Packet>>): (out: seq<seq<byte>>)
    requires forall i :: 0 <= i < |ds| ==> AllFit(ds[i])
    ensures |out| == |ds|
  {
    seq(|ds|, i requires 0 <= i < |ds| => PrintAll(ds[i]))
  }

  lemma {:induction false} EmitFits(st: Packing)
    requires PackingFits(st)
    ensures PackingFits(Emit(st)) && TotalSize(Emit(st).cur) == 0
    ensures PrintDatagrams(Emit(st).done)
            == PrintDatagrams(st.done) + (if TotalSize(st.cur) == 0 then [] else [PrintAll(st.cur)])
    ensures PrintAll(Emit(st).cur) == []
  {
    hide Fits, Print;
  }

  lemma {:induction false} PutFits(st: Packing, p: Packet)
    requires PackingFits(st) && Fits(p)
    ensures var st' := st.(cur := st.cur + [p]);
            PackingFits(st') && PrintAll(st'.cur) == PrintAll(st.cur) + Print(p)
  {
    hide Fits, Print;
    assert (st.cur + [p])[..|st.cur|] == st.cur;
  }

  predicate ScanOk(scan: Scan)
  {
    scan.Latest? ==> scan.sn < TWO_32 && scan.ts < TWO_32
  }

  function Extend(done: seq<Packet>, more: Parsed): Parsed
  {
    Parsed(done + more.ps, more.code)
  }

  /**
   ikcp_input on octets: the packets before the first malformed one take effect; only a clean end runs
   what follows the loop.
   */
  function InputData(k: Kcb, d: seq<byte>): (Kcb, int)
    requires ValidConfig(k.cfg)
  {
    if |d| < OVERHEAD then (k, -1)
    else
      var parsed := Parse(k.cfg.conv, d);
      var st := InputPackets(true, InputState(k, NoAck), parsed.ps);
      InputKeepsConfig(true, InputState(k, NoAck), parsed.ps);
      if parsed.code == 0 then (KcpSpec.FinishInput(true, k.snd.una, st), 0) else (st.k, parsed.code)
  }

  lemma {:induction false} InputDataConfig(k: Kcb, d: seq<byte>)
    requires ValidConfig(k.cfg)
    ensures InputData(k, d).0.cfg == k.cfg
  {
    InputKeepsConfig(true, InputState(k, NoAck), Parse(k.cfg.conv, d).ps);
    hide InputPackets, Parse, KcpSpec.ParseFastAck, KcpSpec.GrowWindow, TimeDiff;
  }

  /** On the octets of a printed datagram ikcp_input is Input of its packets. */
  lemma {:induction false} InputPrinted(k: Kcb, ps: seq<Packet>)
    requires ValidConfig(k.cfg) && ps != [] && AllFit(ps) && forall i :: 0 <= i < |ps| ==> ps[i].conv == k.cfg.conv
    ensures InputData(k, PrintAll(ps)) == (KcpSpec.Input(true, k, ps), 0)
  {
    ParsePrinted(k.cfg.conv, ps);
    assert TotalSize(ps) >= OVERHEAD;
    hide Parse, PrintAll, InputPackets, KcpSpec.FinishInput;
  }

  /**
   A malformed packet ends the call with its code.  The packets before it have been taken as if they
   had come alone, except that no segment is counted as overtaken and the window does not grow.
   */
  lemma {:induction false} InputMalformed(k: Kcb, d: seq<byte>)
    requires ValidConfig(k.cfg) && Parse(k.cfg.conv, d).code != 0
    ensures var (k', ret) := InputData(k, d);
            var ps := Parse(k.cfg.conv, d).ps;
            var alone := KcpSpec.Input(true, k, ps);
            && ret == Parse(k.cfg.conv, d).code
            && k'.rcv == alone.rcv && k'.tm == alone.tm
            && k'.snd == alone.snd.(buf := k'.snd.buf)
            && KcpLists.SameSegments(k'.snd.buf, alone.snd.buf)
            && k'.cc == k.cc.(rmtWnd := k'.cc.rmtWnd)
  {
    var ps := Parse(k.cfg.conv, d).ps;
    assert |d| >= OVERHEAD;
    KcpInputs.PacketsFrame(true, InputState(k, NoAck), ps);
    InputKeepsConfig(true, InputState(k, NoAck), ps);
    KcpInputs.FinishFrame(true, k.snd.una, InputPackets(true, InputState(k, NoAck), ps));
    FinishSender(k.snd.una, InputPackets(true, InputState(k, NoAck), ps));
    hide Parse, InputPackets, KcpSpec.FinishInput, UpdateRtt, KcpSpec.GrowWindow, TimeDiff;
  }

  lemma {:induction false} FinishSender(prevUna: nat, st: InputState)
    requires ValidConfig(st.k.cfg)
    ensures var k' := KcpSpec.FinishInput(true, prevUna, st);
            st.k.snd == k'.snd.(buf := st.k.snd.buf) && KcpLists.SameSegments(st.k.snd.buf, k'.snd.buf)
  {
    if st.scan.Latest? {
      var n := KcpLists.FastAckScan(true, st.k.snd.buf, st.scan.sn, st.scan.ts);
    }
    hide KcpSpec.GrowWindow, FastAckBuf, TimeDiff;
  }

  lemma {:induction false} StartInput(conv: nat, data: seq<byte>, st: InputState)
    ensures Parse(conv, data) == Extend([], Parse(conv, data[0..]))
    ensures InputPackets(true, st, []) == st
  {
    assert data[0..] == data;
    var parsed := Parse(conv, data);
    hide Parse;
    assert [] + parsed.ps == parsed.ps;
  }

  lemma {:induction false} EndInput(conv: nat, rest: seq<byte>, done: seq<Packet>)
    requires |rest| < OVERHEAD
    ensures Extend(done, Parse(conv, rest)) == Parsed(done, 0)
  {
  }

  /** One turn of the parser at position pos. */
  lemma {:induction false} ParseNext(conv: nat, data: seq<byte>, pos: nat, done: seq<Packet>)
    requires pos + OVERHEAD <= |data|
    ensures var h, len := ReadHeader(data[pos..]), ReadLength(data[pos..]);
            var body := pos + OVERHEAD;
            && (h.conv != conv ==> Extend(done, Parse(conv, data[pos..])) == Parsed(done, -1))
            && (h.conv == conv && (|data| - body < len || len >= TWO_31) ==>
               Extend(done, Parse(conv, data[pos..])) == Parsed(done, -2))
            && (h.conv == conv && len <= |data| - body && len < TWO_31 && !KnownCommand(h.cmd) ==>
                  Extend(done, Parse(conv, data[pos..])) == Parsed(done, -3))
            && (h.conv == conv && len <= |data| - body && len < TWO_31 && KnownCommand(h.cmd) ==>
                  && Fits(h.(data := data[body..body + len]))
                  && Extend(done, Parse(conv, data[pos..]))
                     == Extend(done + [h.(data := data[body..body + len])], Parse(conv, data[body + len..])))
  {
    var d := data[pos..];
    var h, len, body := ReadHeader(d), ReadLength(d), pos + OVERHEAD;
    HeaderInRange(d);
    hide ReadHeader, ReadLength, KnownCommand;
    var rest := d[OVERHEAD..];
    assert rest == data[body..];
    assert done + [] == done;
    if h.conv == conv && len <= |rest| && len < TWO_31 && KnownCommand(h.cmd) {
      assert rest[len..] == data[body + len..];
      assert rest[..len] == data[body..body + len];
      ParseStep(conv, d);
      hide Parse;
      var p, more := h.(data := rest[..len]), Parse(conv, rest[len..]);
      assert done + ([p] + more.ps) == done + [p] + more.ps;
    }
  }

  lemma {:induction false} ParseStep(conv: nat, d: seq<byte>)
    requires |d| >= OVERHEAD
    requires ReadHeader(d).conv == conv && ReadLength(d) <= |d[OVERHEAD..]| && ReadLength(d) < TWO_31
             && KnownCommand(ReadHeader(d).cmd)
    ensures var rest := d[OVERHEAD..];
            Parse(conv, d)
            == Parsed([ReadHeader(d).(data := rest[..ReadLength(d)])] + Parse(conv, rest[ReadLength(d)..]).ps,
               Parse(conv, rest[ReadLength(d)..]).code)
  {
    hide ReadHeader, ReadLength;
  }

  /** InputPacket, with its parts written out. */
  lemma {:induction false} InputCases(st: InputState, p: Packet)
    ensures var k := st.k;
            var cc := k.cc.(rmtWnd := p.wnd);
            var snd := Shrink(k.snd.(buf := DropAcked(true, k.snd.buf, p.una)));
            var rtt := TimeDiff(k.tm.current, p.ts);
            InputPacket(true, st, p)
            == if p.cmd == CMD_ACK as int then
                 InputState(Kcb(k.cfg, Shrink(KcpSpec.ParseAck(true, snd, p.sn)), k.rcv, cc,
                                if rtt >= 0 then UpdateRtt(k.cfg, k.tm, rtt) else k.tm),
                            ScanAck(true, st.scan, p))
               else if p.cmd == CMD_PUSH as int then
                 InputState(Kcb(k.cfg, snd, TakePush(true, k.rcv, k.cfg.rcvWnd, p), cc, k.tm), st.scan)
               else if p.cmd == CMD_WASK as int then
                 InputState(Kcb(k.cfg, snd, k.rcv, cc, k.tm.(askTell := true)), st.scan)
               else InputState(Kcb(k.cfg, snd, k.rcv, cc, k.tm), st.scan)
    ensures forall rtt: nat ::
              UpdateRtt(st.k.cfg, st.k.tm, rtt).(srtt := 0, rttVal := 0, rto := 0)
              == st.k.tm.(srtt := 0, rttVal := 0, rto := 0)
    ensures ScanOk(st.scan) && p.sn < TWO_32 && p.ts < TWO_32 ==> ScanOk(ScanAck(true, st.scan, p))
  {
    assert ScanOk(st.scan) && p.sn < TWO_32 && p.ts < TWO_32 ==> ScanOk(ScanAck(true, st.scan, p));
    hide TimeDiff, Shrink, DropAcked, ParseAck, TakePush, ScanAck;
    forall rtt: nat
      ensures UpdateRtt(st.k.cfg, st.k.tm, rtt).(srtt := 0, rttVal := 0, rto := 0)
              == st.k.tm.(srtt := 0, rttVal := 0, rto := 0)
    {
    }
    hide UpdateRtt;
  }

  lemma {:induction false} RemoveNext(buf: seq<Segment>, i: nat, sn: nat)
    requires i < |buf|
    ensures RemoveSn(true, buf[i..], sn)
         == if sn == buf[i].sn then buf[i + 1..]
            else if TimeDiff(sn, buf[i].sn) < 0 then buf[i..]
            else [buf[i]] + RemoveSn(true, buf[i + 1..], sn)
    ensures buf[..i] + buf[i..] == buf
    ensures buf[..i] + ([buf[i]] + RemoveSn(true, buf[i + 1..], sn)) == buf[..i + 1] + RemoveSn(true, buf[i + 1..], sn)
  {
    hide TimeDiff;
    assert buf[i..][1..] == buf[i + 1..];
  }

  lemma {:induction false} RemoveNone(buf: seq<Segment>, sn: nat)
    ensures RemoveSn(true, [], sn) == [] && buf + [] == buf && buf[..|buf|] == buf && buf[|buf|..] == []
  {
  }

  lemma {:induction false} BumpMeans(seg: Segment, sn: nat, ts: nat)
    ensures BumpFastAck(seg, sn, ts)
         == if sn != seg.sn && TimeDiff(ts, seg.ts) >= 0 then seg.(fastAck := U32(seg.fastAck + 1)) else seg
  {
  }

  lemma {:induction false} FastAckNext(buf: seq<Segment>, i: nat, sn: nat, ts: nat)
    requires i < |buf|
    ensures FastAckBuf(true, buf[i..], sn, ts)
         == if TimeDiff(sn, buf[i].sn) < 0 then buf[i..]
            else [BumpFastAck(buf[i], sn, ts)] + FastAckBuf(true, buf[i + 1..], sn, ts)
    ensures forall mss: nat :: SegmentOk(buf[i], mss) ==> SegmentOk(BumpFastAck(buf[i], sn, ts), mss)
  {
    hide TimeDiff;
    assert buf[i..][1..] == buf[i + 1..];
  }

  lemma {:induction false} FastAckNone(sn: nat, ts: nat)
    ensures FastAckBuf(true, [], sn, ts) == []
  {
  }

  lemma {:induction false} InsertNext(buf: seq<Segment>, p: nat, seg: Segment)
    requires 0 < p <= |buf|
    ensures Insert(true, buf[..p], seg)
         == if buf[p - 1].sn == seg.sn then buf[..p]
            else if TimeDiff(seg.sn, buf[p - 1].sn) > 0 then buf[..p] + [seg]
            else Insert(true, buf[..p - 1], seg) + [buf[p - 1]]
    ensures buf[..p] + buf[p..] == buf
    ensures Insert(true, buf[..p - 1], seg) + [buf[p - 1]] + buf[p..] == Insert(true, buf[..p - 1], seg) + buf[p - 1..]
  {
    hide TimeDiff;
    assert buf[..p][..p - 1] == buf[..p - 1];
    var more := Insert(true, buf[..p - 1], seg);
    hide Insert;
    assert [buf[p - 1]] + buf[p..] == buf[p - 1..];
    AppendAssociates(more, [buf[p - 1]], buf[p..]);
  }

  lemma {:induction false} InsertNone(seg: Segment)
    ensures Insert(true, [], seg) == [seg]
  {
  }

  lemma {:induction false} RecvCases(k: Kcb, len: int)
    ensures var queue := k.rcv.queue;
            KcpSpec.Recv(true, k, len)
            == if queue == [] then (k, -1, [])
               else if PeekSize(queue) < 0 then (k, -2, [])
               else if PeekSize(queue) > (if len < 0 then -len else len) then (k, -3, [])
               else
                 var kept := if len < 0 then queue else queue[MessageEnd(queue)..];
                 var rcv := Drain(true, k.rcv.(queue := kept), k.cfg.rcvWnd);
                 var tell := |queue| >= k.cfg.rcvWnd && |rcv.queue| < k.cfg.rcvWnd;
                 (k.(rcv := rcv, tm := k.tm.(askTell := k.tm.askTell || tell)),
                  PeekSize(queue), Join(queue[..MessageEnd(queue)]))
    ensures k.rcv.queue != [] && PeekSize(k.rcv.queue) >= 0 ==>
              PeekSize(k.rcv.queue) == |Join(k.rcv.queue[..MessageEnd(k.rcv.queue)])|
  {
    hide Drain, Join, MessageEnd;
    if k.rcv.queue != [] && PeekSize(k.rcv.queue) >= 0 {
      PeekedLength(k.rcv.queue);
    }
  }

  /** What ikcp_peeksize announces is what merging yields. */
  lemma {:induction false} PeekedLength(queue: seq<Segment>)
    requires queue != [] && PeekSize(queue) >= 0
    ensures PeekSize(queue) == |Join(queue[..MessageEnd(queue)])|
  {
    PeekCases(queue);
  }

  lemma {:induction false} DrainUnfolds(r: Receiver, wnd: nat)
    ensures Drain(true, r, wnd)
         == if r.buf != [] && r.buf[0].sn == r.nxt && |r.queue| < wnd
            then Drain(true, Receiver(U32(r.nxt + 1), r.queue + [r.buf[0]], r.buf[1..], r.acks), wnd)
            else r
  {
  }

  lemma {:induction false} WordU32(x: int)
    ensures U32(x) < TWO_32
  {
  }

  lemma {:induction false} EmptyJoin(queue: seq<Segment>)
    ensures Join(queue[..0]) == [] && queue[0..] == queue && MessageEnd([]) == 0 && queue[..|queue|] == queue
  {
  }

  lemma {:induction false} JoinNext(queue: seq<Segment>, i: nat)
    requires i < |queue|
    ensures Join(queue[..i + 1]) == Join(queue[..i]) + queue[i].data
  {
    assert queue[..i + 1][..i] == queue[..i];
  }

  lemma {:induction false} EndNext(queue: seq<Segment>, i: nat)
    requires i < |queue|
    ensures MessageEnd(queue[i..]) == if queue[i].frg == 0 then 1 else 1 + MessageEnd(queue[i + 1..])
  {
    assert queue[i..][1..] == queue[i + 1..];
  }

  lemma {:induction false} CountCovers(len: nat, mss: nat)
    requires mss > 0
    ensures len <= Product(FragmentCount(len, mss), mss)
  {
    FragmentsCover(len, mss);
  }

  lemma {:induction false} NextCovers(len: nat, mss: nat, count: nat)
    requires mss > 0 && count > 0 && len <= Product(count, mss)
    ensures len - Min(len, mss) <= Product(count - 1, mss)
  {
    RestFits(len, mss, count);
  }

  lemma {:induction false} OkSnoc(segs: seq<Segment>, seg: Segment, mss: nat)
    requires SegmentsOk(segs, mss) && SegmentOk(seg, mss)
    ensures SegmentsOk(segs + [seg], mss)
  {
    hide SegmentOk;
  }

  lemma {:induction false} FragmentsNext(data: seq<byte>, pos: nat, len: nat, mss: nat, count: nat, stream: bool)
    requires mss > 0 && count > 0 && pos <= len <= |data|
    ensures var size := if len - pos > mss then mss else len - pos;
            Fragments(data[pos..len], mss, count, stream)
            == [Blank(if stream then 0 else count - 1, data[pos..pos + size])]
               + Fragments(data[pos + size..len], mss, count - 1, stream)
  {
    var size := if len - pos > mss then mss else len - pos;
    assert data[pos..len][..size] == data[pos..pos + size];
    assert data[pos..len][size..] == data[pos + size..len];
  }

  lemma {:induction false} NoFragments(rest: seq<byte>, mss: nat, stream: bool)
    requires mss > 0
    ensures Fragments(rest, mss, 0, stream) == []
  {
  }
}
