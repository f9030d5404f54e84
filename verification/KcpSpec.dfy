/**
 The KCP control block (ikcp.c) as a value and its operations as functions.

 Sequence numbers are compared through Diff and advanced through Norm.  With wrap == true these
 are the 32-bit operations of the source; with wrap == false they are integers without bound.
 Time stamps are 32-bit in both.
 */
module KcpSpec {
  import opened Bytes

  // ---------------------------------------------------------------- constants and numbers

  const CMD_PUSH: byte := 81
  const CMD_ACK: byte := 82
  const CMD_WASK: byte := 83
  const CMD_WINS: byte := 84
  const OVERHEAD: nat := 24
  const WND_RCV: nat := 128
  const THRESH_MIN: nat := 2
  const RTO_MAX: nat := 60000
  const PROBE_INIT: nat := 5000
  const PROBE_LIMIT: nat := 120000

  const TWO_32: nat := 0x1_0000_0000
  const TWO_31: nat := 0x8000_0000

  /** The value kept in an unsigned 32-bit field. */
  function U32(x: int): nat
  {
    x % TWO_32
  }

  /** An unsigned 32-bit value read as signed. */
  function Signed(x: nat): int
  {
    if x < TWO_31 then x else x - TWO_32
  }

  /** _itimediff on 32-bit operands. */
  function TimeDiff(later: int, earlier: int): int
  {
    Signed(U32(later - earlier))
  }

  function Diff(wrap: bool, later: int, earlier: int): int
  {
    if wrap then TimeDiff(later, earlier) else later - earlier
  }

  function Norm(wrap: bool, x: nat): nat
  {
    if wrap then U32(x) else x
  }

  // ---------------------------------------------------------------- state

  /** A queued segment (IKCPSEG); its length is |data|. */
  datatype Segment = Segment(
    frg: nat, wnd: nat, ts: nat, sn: nat, una: nat,
    resendTs: nat, rto: nat, fastAck: nat, xmit: nat, data: seq<byte>)

  /** A segment as it travels. */
  datatype Packet = Packet(conv: nat, cmd: nat, frg: nat, wnd: nat, ts: nat, sn: nat, una: nat, data: seq<byte>)

  datatype Ack = Ack(sn: nat, ts: nat)

  /** Settings that stay fixed once a tunnel has configured its control block. */
  datatype Config = Config(
    conv: nat, mtu: nat, sndWnd: nat, rcvWnd: nat, nodelay: nat, interval: nat, minRto: nat,
    deadLink: nat, fastResend: nat, fastLimit: int, noCwnd: bool, stream: bool)
  {
    function Mss(): nat
      requires mtu >= OVERHEAD
    {
      mtu - OVERHEAD
    }
  }

  predicate ValidConfig(c: Config)
  {
    && c.conv < TWO_32
    && 50 <= c.mtu < 0x1_0000
    && 1 <= c.sndWnd < 0x1000_0000
    && WND_RCV <= c.rcvWnd < 0x1000_0000
  }

  datatype Sender = Sender(una: nat, nxt: nat, queue: seq<Segment>, buf: seq<Segment>)

  datatype Receiver = Receiver(nxt: nat, queue: seq<Segment>, buf: seq<Segment>, acks: seq<Ack>)

  datatype Congestion = Congestion(cwnd: nat, incr: nat, ssthresh: nat, rmtWnd: nat)

  datatype Timing = Timing(
    current: nat, tsFlush: nat, updated: bool,
    srtt: nat, rttVal: nat, rto: nat,
    tsProbe: nat, probeWait: nat, askSend: bool, askTell: bool,
    xmit: nat, dead: bool)

  datatype Kcb = Kcb(cfg: Config, snd: Sender, rcv: Receiver, cc: Congestion, tm: Timing)

  /** ikcp_create followed by the configuration calls. */
  function Created(cfg: Config): Kcb
  {
    Kcb(cfg,
        Sender(0, 0, [], []),
        Receiver(0, [], [], []),
        Congestion(0, 0, THRESH_MIN, WND_RCV),
        Timing(0, 100, false, 0, 0, 200, 0, 0, false, false, 0, false))
  }

  /** ikcp_wndsize: the receive window never goes below the largest message. */
  function WithWindows(cfg: Config, snd: int, rcv: int): Config
  {
    var c := if snd > 0 then cfg.(sndWnd := snd) else cfg;
    if rcv > 0 then c.(rcvWnd := Max(rcv, WND_RCV)) else c
  }

  /** ikcp_nodelay */
  function WithNoDelay(cfg: Config, nodelay: int, interval: int, resend: int, nc: int): Config
  {
    var c1 := if nodelay >= 0 then cfg.(nodelay := nodelay, minRto := if nodelay != 0 then 30 else 100) else cfg;
    var c2 := if interval >= 0 then c1.(interval := Min(Max(interval, 10), 5000)) else c1;
    var c3 := if resend >= 0 then c2.(fastResend := resend) else c2;
    if nc >= 0 then c3.(noCwnd := nc != 0) else c3
  }

  function DefaultConfig(conv: nat): Config
  {
    Config(conv, 1400, 32, WND_RCV, 0, 100, 100, 20, 0, 5, false, false)
  }

  /** The configuration every tunnel uses: windows 32 and 32, mtu 1400, nodelay 1, interval 20, resend 2, nc 1. */
  function TunnelConfig(): (cfg: Config)
    ensures ValidConfig(cfg) && cfg.rcvWnd == 128 && cfg.sndWnd == 32 && cfg.mtu == 1400 && cfg.fastResend == 2
  {
    WithNoDelay(WithWindows(DefaultConfig(0x11223344), 32, 32), 1, 20, 2, 1)
  }

  function Blank(frg: nat, data: seq<byte>): Segment
  {
    Segment(frg, 0, 0, 0, 0, 0, 0, 0, 0, data)
  }

  // ---------------------------------------------------------------- ikcp_send

  /** The number of segments a payload of len octets is cut into. */
  function FragmentCount(len: nat, mss: nat): (count: nat)
    requires mss > 0
  {
    if len <= mss then 1 else (len + mss - 1) / mss
  }

  /** The remaining segments of a message; in message mode the last carries frg 0. */
  function Fragments(msg: seq<byte>, mss: nat, count: nat, stream: bool): (segs: seq<Segment>)
    requires mss > 0
    ensures |segs| == count
    decreases count
  {
    if count == 0 then []
    else
      var size := Min(|msg|, mss);
      [Blank(if stream then 0 else count - 1, msg[..size])] + Fragments(msg[size..], mss, count - 1, stream)
  }

  /** How many octets stream mode adds to the last queued segment. */
  function Extension(cfg: Config, snd: Sender, msg: seq<byte>): (e: nat)
    requires cfg.mtu >= OVERHEAD
    ensures e <= |msg|
  {
    if cfg.stream && snd.queue != [] && |snd.queue[|snd.queue| - 1].data| < cfg.Mss()
    then Min(|msg|, cfg.Mss() - |snd.queue[|snd.queue| - 1].data|)
    else 0
  }

  function Extended(cfg: Config, snd: Sender, msg: seq<byte>): Sender
    requires cfg.mtu >= OVERHEAD
  {
    var e := Extension(cfg, snd, msg);
    if cfg.stream && snd.queue != [] && |snd.queue[|snd.queue| - 1].data| < cfg.Mss() then
      var last := |snd.queue| - 1;
      snd.(queue := snd.queue[..last] + [Blank(0, snd.queue[last].data + msg[..e])])
    else snd
  }

  lemma {:induction false} NoExtension(cfg: Config, snd: Sender, msg: seq<byte>)
    requires cfg.mtu >= OVERHEAD
    ensures !cfg.stream ==> Extension(cfg, snd, msg) == 0 && Extended(cfg, snd, msg) == snd
  {
  }

  function Send(k: Kcb, msg: seq<byte>): (Kcb, int)
    requires ValidConfig(k.cfg)
  {
    var mss := k.cfg.Mss();
    var e := Extension(k.cfg, k.snd, msg);
    var snd := Extended(k.cfg, k.snd, msg);
    var rest := msg[e..];
    if k.cfg.stream && rest == [] then (k.(snd := snd), e)
    else
      var count := FragmentCount(|rest|, mss);
      if count >= WND_RCV then
        if k.cfg.stream && e > 0 then (k.(snd := snd), e) else (k.(snd := snd), -2)
      else
        (k.(snd := snd.(queue := snd.queue + Fragments(rest, mss, count, k.cfg.stream))), |msg|)
  }

  // ---------------------------------------------------------------- ikcp_peeksize and ikcp_recv

  /** Segments up to and including the first with frg 0, or all of them. */
  function MessageEnd(queue: seq<Segment>): (n: nat)
    ensures n <= |queue|
    ensures queue != [] ==> n > 0
  {
    if queue == [] then 0
    else if queue[0].frg == 0 then 1
    else 1 + MessageEnd(queue[1..])
  }

  function Join(segs: seq<Segment>): seq<byte>
  {
    if segs == [] then [] else Join(segs[..|segs| - 1]) + segs[|segs| - 1].data
  }

  function PeekSize(queue: seq<Segment>): int
  {
    if queue == [] then -1
    else if queue[0].frg == 0 then |queue[0].data|
    else if |queue| < queue[0].frg + 1 then -1
    else |Join(queue[..MessageEnd(queue)])|
  }

  /** Move in-order segments from rcv_buf to rcv_queue while the window allows. */
  function Drain(wrap: bool, rcv: Receiver, wnd: nat): Receiver
    decreases |rcv.buf|
  {
    if rcv.buf != [] && rcv.buf[0].sn == rcv.nxt && |rcv.queue| < wnd
    then Drain(wrap, Receiver(Norm(wrap, rcv.nxt + 1), rcv.queue + [rcv.buf[0]], rcv.buf[1..], rcv.acks), wnd)
    else rcv
  }

  /** ikcp_recv: a negative len only peeks.  Result code and the octets delivered. */
  function Recv(wrap: bool, k: Kcb, len: int): (Kcb, int, seq<byte>)
  {
    var queue := k.rcv.queue;
    if queue == [] then (k, -1, [])
    else
      var size := PeekSize(queue);
      if size < 0 then (k, -2, [])
      else if size > (if len < 0 then -len else len) then (k, -3, [])
      else
        var n := MessageEnd(queue);
        var recover := |queue| >= k.cfg.rcvWnd;
        var msg := Join(queue[..n]);
        var kept := if len < 0 then queue else queue[n..];
        var rcv := Drain(wrap, k.rcv.(queue := kept), k.cfg.rcvWnd);
        var tell := recover && |rcv.queue| < k.cfg.rcvWnd;
        (k.(rcv := rcv, tm := k.tm.(askTell := k.tm.askTell || tell)), |msg|, msg)
  }

  // ---------------------------------------------------------------- ikcp_input

  /** ikcp_parse_una: forget the leading segments below una. */
  function DropAcked(wrap: bool, buf: seq<Segment>, una: nat): seq<Segment>
  {
    if buf != [] && Diff(wrap, una, buf[0].sn) > 0 then DropAcked(wrap, buf[1..], una) else buf
  }

  /** ikcp_shrink_buf */
  function Shrink(snd: Sender): Sender
  {
    snd.(una := if snd.buf != [] then snd.buf[0].sn else snd.nxt)
  }

  function RemoveSn(wrap: bool, buf: seq<Segment>, sn: nat): seq<Segment>
  {
    if buf == [] then []
    else if sn == buf[0].sn then buf[1..]
    else if Diff(wrap, sn, buf[0].sn) < 0 then buf
    else [buf[0]] + RemoveSn(wrap, buf[1..], sn)
  }

  predicate Outstanding(wrap: bool, snd: Sender, sn: nat)
  {
    Diff(wrap, sn, snd.una) >= 0 && Diff(wrap, sn, snd.nxt) < 0
  }

  /** ikcp_parse_ack */
  function ParseAck(wrap: bool, snd: Sender, sn: nat): Sender
  {
    if Outstanding(wrap, snd, sn) then snd.(buf := RemoveSn(wrap, snd.buf, sn)) else snd
  }

  function BumpFastAck(seg: Segment, sn: nat, ts: nat): Segment
  {
    if sn != seg.sn && TimeDiff(ts, seg.ts) >= 0 then seg.(fastAck := U32(seg.fastAck + 1)) else seg
  }

  function FastAckBuf(wrap: bool, buf: seq<Segment>, sn: nat, ts: nat): seq<Segment>
  {
    if buf == [] || Diff(wrap, sn, buf[0].sn) < 0 then buf
    else [BumpFastAck(buf[0], sn, ts)] + FastAckBuf(wrap, buf[1..], sn, ts)
  }

  /** ikcp_parse_fastack */
  function ParseFastAck(wrap: bool, snd: Sender, sn: nat, ts: nat): Sender
  {
    if Outstanding(wrap, snd, sn) then snd.(buf := FastAckBuf(wrap, snd.buf, sn, ts)) else snd
  }

  /** ikcp_update_ack */
  function UpdateRtt(cfg: Config, tm: Timing, rtt: nat): Timing
  {
    var first := tm.srtt == 0;
    var rttVal := if first then rtt / 2 else (3 * tm.rttVal + Max(rtt - tm.srtt, tm.srtt - rtt)) / 4;
    var srtt := if first then rtt else Max(1, (7 * tm.srtt + rtt) / 8);
    var rto := srtt + Max(cfg.interval, 4 * rttVal);
    tm.(rttVal := rttVal, srtt := srtt, rto := Min(Max(cfg.minRto, rto), RTO_MAX))
  }

  /** Insert by scanning from the tail; a segment already present is dropped. */
  function Insert(wrap: bool, buf: seq<Segment>, seg: Segment): seq<Segment>
  {
    if buf == [] then [seg]
    else
      var last := buf[|buf| - 1];
      if last.sn == seg.sn then buf
      else if Diff(wrap, seg.sn, last.sn) > 0 then buf + [seg]
      else Insert(wrap, buf[..|buf| - 1], seg) + [last]
  }

  predicate InWindow(wrap: bool, rcv: Receiver, wnd: nat, sn: nat)
  {
    Diff(wrap, sn, Norm(wrap, rcv.nxt + wnd)) < 0 && Diff(wrap, sn, rcv.nxt) >= 0
  }

  /** ikcp_parse_data */
  function ParseData(wrap: bool, rcv: Receiver, wnd: nat, seg: Segment): Receiver
  {
    if InWindow(wrap, rcv, wnd, seg.sn) then Drain(wrap, rcv.(buf := Insert(wrap, rcv.buf, seg)), wnd) else rcv
  }

  function Arrived(p: Packet): Segment
  {
    Segment(p.frg, p.wnd, p.ts, p.sn, p.una, 0, 0, 0, 0, p.data)
  }

  /**
   The first test of a data packet.  With unbounded numbers it keeps an effect of the 32-bit
   comparison that shows below 2^31: a packet more than half the range behind the edge is ignored.
   */
  predicate BelowEdge(wrap: bool, sn: nat, edge: nat)
  {
    Diff(wrap, sn, Norm(wrap, edge)) < 0 && (wrap || edge <= sn + TWO_31)
  }

  /** A data packet: acknowledge it unless it lies beyond the window, then store it. */
  function TakePush(wrap: bool, rcv: Receiver, wnd: nat, p: Packet): Receiver
  {
    if BelowEdge(wrap, p.sn, rcv.nxt + wnd) then
      var r := rcv.(acks := rcv.acks + [Ack(p.sn, p.ts)]);
      if Diff(wrap, p.sn, rcv.nxt) >= 0 then ParseData(wrap, r, wnd, Arrived(p)) else r
    else rcv
  }

  /** The acknowledgement that drives fast retransmission: the latest one seen in a datagram. */
  datatype Scan = NoAck | Latest(sn: nat, ts: nat)

  /** With unbounded numbers, too, half the range ahead is not ahead. */
  predicate Ahead(wrap: bool, sn: nat, last: nat)
  {
    Diff(wrap, sn, last) > 0 && (wrap || sn < last + TWO_31)
  }

  function ScanAck(wrap: bool, scan: Scan, p: Packet): Scan
  {
    if scan.NoAck? then Latest(p.sn, p.ts)
    else if Ahead(wrap, p.sn, scan.sn) && TimeDiff(p.ts, scan.ts) > 0 then Latest(p.sn, p.ts)
    else scan
  }

  datatype InputState = InputState(k: Kcb, scan: Scan)

  function TakeHeader(wrap: bool, k: Kcb, p: Packet): Kcb
  {
    k.(cc := k.cc.(rmtWnd := p.wnd),
       snd := Shrink(k.snd.(buf := DropAcked(wrap, k.snd.buf, p.una))))
  }

  function TakeAck(wrap: bool, k: Kcb, p: Packet): Kcb
  {
    var rtt := TimeDiff(k.tm.current, p.ts);
    k.(tm := if rtt >= 0 then UpdateRtt(k.cfg, k.tm, rtt) else k.tm,
       snd := Shrink(ParseAck(wrap, k.snd, p.sn)))
  }

  /** One turn of the ikcp_input loop. */
  function InputPacket(wrap: bool, st: InputState, p: Packet): InputState
  {
    var k := TakeHeader(wrap, st.k, p);
    if p.cmd == CMD_ACK as int then InputState(TakeAck(wrap, k, p), ScanAck(wrap, st.scan, p))
    else if p.cmd == CMD_PUSH as int then InputState(k.(rcv := TakePush(wrap, k.rcv, k.cfg.rcvWnd, p)), st.scan)
    else if p.cmd == CMD_WASK as int then InputState(k.(tm := k.tm.(askTell := true)), st.scan)
    else InputState(k, st.scan)
  }

  function InputPackets(wrap: bool, st: InputState, ps: seq<Packet>): InputState
  {
    if ps == [] then st
    else InputPacket(wrap, InputPackets(wrap, st, ps[..|ps| - 1]), ps[|ps| - 1])
  }

  lemma {:induction false} InputSnoc(wrap: bool, st: InputState, ps: seq<Packet>)
    requires ps != []
    ensures InputPackets(wrap, st, ps) == InputPacket(wrap, InputPackets(wrap, st, ps[..|ps| - 1]), ps[|ps| - 1])
  {
    hide InputPacket;
  }

  function Product(a: nat, b: nat): nat
  {
    a * b
  }

  function Quotient(a: nat, b: nat): nat
    requires b > 0
  {
    a / b
  }

  /** Congestion avoidance adds about one segment per round trip. */
  function Avoid(incr: nat, mss: nat): nat
    requires mss > 0
  {
    var base := Max(incr, mss);
    U32(base + Quotient(Product(mss, mss), base) + mss / 16)
  }

  /** Window growth when an acknowledgement advanced snd_una. */
  function GrowWindow(cc: Congestion, mss: nat): Congestion
    requires mss > 0
  {
    if cc.cwnd >= cc.rmtWnd then cc
    else
      var grown :=
        if cc.cwnd < cc.ssthresh then cc.(cwnd := U32(cc.cwnd + 1), incr := U32(cc.incr + mss))
        else
          var incr := Avoid(cc.incr, mss);
          if U32(Product(cc.cwnd + 1, mss)) <= incr then cc.(cwnd := Quotient(U32(incr + mss - 1), mss), incr := incr)
          else cc.(incr := incr);
      if grown.cwnd > grown.rmtWnd then grown.(cwnd := grown.rmtWnd, incr := U32(Product(grown.rmtWnd, mss))) else grown
  }

  /** What ikcp_input does after its loop. */
  function FinishInput(wrap: bool, prevUna: nat, st: InputState): Kcb
    requires ValidConfig(st.k.cfg)
  {
    var k := if st.scan.Latest? then st.k.(snd := ParseFastAck(wrap, st.k.snd, st.scan.sn, st.scan.ts)) else st.k;
    if Diff(wrap, k.snd.una, prevUna) > 0 then k.(cc := GrowWindow(k.cc, k.cfg.Mss())) else k
  }

  lemma {:induction false} InputKeepsConfig(wrap: bool, st: InputState, ps: seq<Packet>)
    ensures InputPackets(wrap, st, ps).k.cfg == st.k.cfg
    decreases |ps|
  {
    if ps != [] {
      InputKeepsConfig(wrap, st, ps[..|ps| - 1]);
      hide DropAcked, Shrink, ParseAck, TakePush, UpdateRtt, ScanAck;
    }
  }

  /** A well-formed datagram. */
  function Input(wrap: bool, k: Kcb, ps: seq<Packet>): Kcb
    requires ValidConfig(k.cfg)
  {
    InputKeepsConfig(wrap, InputState(k, NoAck), ps);
    FinishInput(wrap, k.snd.una, InputPackets(wrap, InputState(k, NoAck), ps))
  }

  // ---------------------------------------------------------------- ikcp_flush

  function Unused(k: Kcb): nat
  {
    if |k.rcv.queue| < k.cfg.rcvWnd then k.cfg.rcvWnd - |k.rcv.queue| else 0
  }

  function Control(k: Kcb, cmd: byte, a: Ack): Packet
  {
    Packet(k.cfg.conv, cmd, 0, Unused(k) % 0x1_0000, a.ts, a.sn, k.rcv.nxt, [])
  }

  function AckPackets(k: Kcb, n: nat): (ps: seq<Packet>)
    requires n <= |k.rcv.acks|
    ensures |ps| == n
  {
    seq(n, i requires 0 <= i < n => Control(k, CMD_ACK, k.rcv.acks[i]))
  }

  /** The header fields left over from the last acknowledgement; probes reuse them. */
  function LastAck(k: Kcb): Ack
  {
    if k.rcv.acks == [] then Ack(0, 0) else k.rcv.acks[|k.rcv.acks| - 1]
  }

  /** Zero-window probe timer. */
  function ProbeTimer(tm: Timing, rmtWnd: nat): Timing
  {
    if rmtWnd != 0 then tm.(tsProbe := 0, probeWait := 0)
    else if tm.probeWait == 0 then tm.(probeWait := PROBE_INIT, tsProbe := U32(tm.current + PROBE_INIT))
    else if TimeDiff(tm.current, tm.tsProbe) >= 0 then
      var w := Max(tm.probeWait, PROBE_INIT);
      var wait := Min(w + w / 2, PROBE_LIMIT);
      tm.(probeWait := wait, tsProbe := U32(tm.current + wait), askSend := true)
    else tm
  }

  function ProbePackets(k: Kcb, tm: Timing): seq<Packet>
  {
    (if tm.askSend then [Control(k, CMD_WASK, LastAck(k))] else [])
    + (if tm.askTell then [Control(k, CMD_WINS, LastAck(k))] else [])
  }

  /** The control block after acknowledgements and probes have been encoded. */
  function Quiet(k: Kcb): Kcb
  {
    k.(rcv := k.rcv.(acks := []), tm := ProbeTimer(k.tm, k.cc.rmtWnd).(askSend := false, askTell := false))
  }

  function ControlPackets(k: Kcb): seq<Packet>
  {
    AckPackets(k, |k.rcv.acks|) + ProbePackets(k, ProbeTimer(k.tm, k.cc.rmtWnd))
  }

  function SendWindow(k: Kcb): nat
  {
    var w := Min(k.cfg.sndWnd, k.cc.rmtWnd);
    if k.cfg.noCwnd then w else Min(k.cc.cwnd, w)
  }

  function Launched(k: Kcb, seg: Segment): Segment
  {
    seg.(wnd := Unused(k), ts := k.tm.current, sn := k.snd.nxt, una := k.rcv.nxt,
         resendTs := k.tm.current, rto := k.tm.rto, fastAck := 0, xmit := 0)
  }

  function LaunchedOne(wrap: bool, k: Kcb): Kcb
    requires k.snd.queue != []
  {
    k.(snd := Sender(k.snd.una, Norm(wrap, k.snd.nxt + 1), k.snd.queue[1..], k.snd.buf + [Launched(k, k.snd.queue[0])]))
  }

  /** Move segments from snd_queue to snd_buf, numbering them, while they fit the window. */
  function Launch(wrap: bool, k: Kcb, cwnd: nat): Kcb
    decreases |k.snd.queue|
  {
    if k.snd.queue != [] && Diff(wrap, k.snd.nxt, Norm(wrap, k.snd.una + cwnd)) < 0 then
      Launch(wrap, LaunchedOne(wrap, k), cwnd)
    else k
  }

  lemma {:induction false} LaunchUnfolds(wrap: bool, k: Kcb, cwnd: nat)
    ensures Launch(wrap, k, cwnd)
         == if k.snd.queue != [] && Diff(wrap, k.snd.nxt, Norm(wrap, k.snd.una + cwnd)) < 0
            then Launch(wrap, LaunchedOne(wrap, k), cwnd) else k
  {
    hide TimeDiff, U32, Launched;
  }

  /** Launching changes the sender only. */
  lemma {:induction false} LaunchKeeps(wrap: bool, k: Kcb, cwnd: nat)
    ensures Launch(wrap, k, cwnd) == k.(snd := Launch(wrap, k, cwnd).snd)
    decreases |k.snd.queue|
  {
    hide Launch, Launched;
    LaunchUnfolds(wrap, k, cwnd);
    if k.snd.queue != [] && Diff(wrap, k.snd.nxt, Norm(wrap, k.snd.una + cwnd)) < 0 {
      LaunchKeeps(wrap, LaunchedOne(wrap, k), cwnd);
    }
  }

  datatype Reason = Idle | First | Timeout | Fast

  function HalfTowardZero(x: int): int
  {
    if x >= 0 then x / 2 else -((-x) / 2)
  }

  function ResendThreshold(cfg: Config): nat
  {
    if cfg.fastResend > 0 then cfg.fastResend else 0xffff_ffff
  }

  /** Why a segment of snd_buf is (re)sent in this flush. */
  function WhySend(k: Kcb, seg: Segment): Reason
  {
    if seg.xmit == 0 then First
    else if TimeDiff(k.tm.current, seg.resendTs) >= 0 then Timeout
    else if seg.fastAck >= ResendThreshold(k.cfg)
            && (Signed(U32(seg.xmit)) <= k.cfg.fastLimit || k.cfg.fastLimit <= 0) then Fast
    else Idle
  }

  function BackedOff(k: Kcb, rto: nat): nat
  {
    if k.cfg.nodelay == 0 then U32(rto + Max(rto, k.tm.rto))
    else U32(rto + HalfTowardZero(if k.cfg.nodelay < 2 then Signed(U32(rto)) else k.tm.rto))
  }

  function Retimed(k: Kcb, seg: Segment): Segment
  {
    match WhySend(k, seg)
    case Idle => seg
    case First =>
      seg.(xmit := U32(seg.xmit + 1), rto := k.tm.rto,
           resendTs := U32(k.tm.current + k.tm.rto + (if k.cfg.nodelay == 0 then k.tm.rto / 8 else 0)))
    case Timeout =>
      var rto := BackedOff(k, seg.rto);
      seg.(xmit := U32(seg.xmit + 1), rto := rto, resendTs := U32(k.tm.current + rto))
    case Fast =>
      seg.(xmit := U32(seg.xmit + 1), fastAck := 0, resendTs := U32(k.tm.current + seg.rto))
  }

  /** A segment of snd_buf after the flush has looked at it. */
  function Flushed(k: Kcb, seg: Segment): Segment
  {
    if WhySend(k, seg).Idle? then seg
    else Retimed(k, seg).(ts := k.tm.current, wnd := Unused(k), una := k.rcv.nxt)
  }

  function DataPacket(k: Kcb, seg: Segment): Packet
  {
    Packet(k.cfg.conv, CMD_PUSH, seg.frg % 0x100, seg.wnd % 0x1_0000, seg.ts, seg.sn, seg.una, seg.data)
  }

  /** The state of the flush loop over snd_buf. */
  datatype Sweep = Sweep(segs: seq<Segment>, ps: seq<Packet>, timeouts: nat, fasts: nat, dead: bool)

  function SweepUpto(k: Kcb, n: nat): (s: Sweep)
    requires n <= |k.snd.buf|
    ensures |s.segs| == n
  {
    if n == 0 then Sweep([], [], 0, 0, false)
    else
      var s := SweepUpto(k, n - 1);
      var seg := k.snd.buf[n - 1];
      var out := Flushed(k, seg);
      var why := WhySend(k, seg);
      Sweep(s.segs + [out],
            if why.Idle? then s.ps else s.ps + [DataPacket(k, out)],
            s.timeouts + (if why.Timeout? then 1 else 0),
            s.fasts + (if why.Fast? then 1 else 0),
            s.dead || (!why.Idle? && out.xmit >= k.cfg.deadLink))
  }

  /** ssthresh and cwnd after the sweep. */
  function Adjusted(cfg: Config, cc: Congestion, inflight: nat, fasts: nat, timeouts: nat): Congestion
    requires cfg.mtu >= OVERHEAD
  {
    var prior := cc.cwnd;
    var mss := cfg.Mss();
    var c1 :=
      if fasts > 0 then
        var th := Max(inflight / 2, THRESH_MIN);
        var w := U32(th + ResendThreshold(cfg));
        cc.(ssthresh := th, cwnd := w, incr := U32(Product(w, mss)))
      else cc;
    var c2 :=
      if timeouts > 0 then c1.(ssthresh := Max(prior / 2, THRESH_MIN), cwnd := 1, incr := mss) else c1;
    if c2.cwnd < 1 then c2.(cwnd := 1, incr := mss) else c2
  }

  datatype FlushResult = FlushResult(k: Kcb, ps: seq<Packet>)

  /** What a flush leaves once segments are launched and the sweep is done. */
  function FlushTail(k: Kcb, launched: Kcb, s: Sweep): FlushResult
    requires ValidConfig(k.cfg)
  {
    var quiet := Quiet(k);
    var snd := launched.snd.(buf := s.segs);
    var cc := Adjusted(k.cfg, k.cc, U32(snd.nxt - snd.una), s.fasts, s.timeouts);
    FlushResult(quiet.(snd := snd, cc := cc,
                       tm := quiet.tm.(xmit := U32(quiet.tm.xmit + s.timeouts), dead := quiet.tm.dead || s.dead)),
                ControlPackets(k) + s.ps)
  }

  /** ikcp_flush: the new state and the packets in the order they are encoded. */
  function Flush(wrap: bool, k: Kcb): FlushResult
    requires ValidConfig(k.cfg)
  {
    if !k.tm.updated then FlushResult(k, [])
    else
      var launched := Launch(wrap, Quiet(k), SendWindow(k));
      FlushTail(k, launched, SweepUpto(launched, |launched.snd.buf|))
  }

  lemma {:induction false} FlushIsTail(wrap: bool, k: Kcb)
    requires ValidConfig(k.cfg) && k.tm.updated
    ensures var launched := Launch(wrap, Quiet(k), SendWindow(k));
            Flush(wrap, k) == FlushTail(k, launched, SweepUpto(launched, |launched.snd.buf|))
  {
    hide Launch, SweepUpto, ProbeTimer, AckPackets, ProbePackets, Adjusted, SendWindow;
  }

  datatype Clock = Clock(tm: Timing, due: bool)

  /** The flush timer after ikcp_update; due when the clock has reached it or jumped. */
  function Ticked(tm: Timing, interval: nat, now: nat): Clock
  {
    var start := if tm.updated then tm.tsFlush else now;
    var slap := TimeDiff(now, start);
    var late := slap >= 10000 || slap < -10000;
    var base := if late then now else start;
    var next := U32(base + interval);
    var due := late || slap >= 0;
    Clock(tm.(current := now, updated := true,
              tsFlush := if !due then base else if TimeDiff(now, next) >= 0 then U32(now + interval) else next), due)
  }

  /** ikcp_update */
  function Update(wrap: bool, k: Kcb, now: nat): FlushResult
    requires ValidConfig(k.cfg)
  {
    var t := Ticked(k.tm, k.cfg.interval, now);
    if t.due then Flush(wrap, k.(tm := t.tm)) else FlushResult(k.(tm := t.tm), [])
  }

  // ---------------------------------------------------------------- datagrams

  function WireSize(p: Packet): nat
  {
    OVERHEAD + |p.data|
  }

  function TotalSize(ps: seq<Packet>): nat
  {
    if ps == [] then 0 else TotalSize(ps[..|ps| - 1]) + WireSize(ps[|ps| - 1])
  }

  /** Finished datagrams and the one being filled. */
  datatype Packing = Packing(done: seq<seq<Packet>>, cur: seq<Packet>)

  /** ikcp_output: nothing happens for an empty buffer. */
  function Emit(st: Packing): Packing
  {
    if st.cur == [] then st else Packing(st.done + [st.cur], [])
  }

  function PackOne(mtu: nat, st: Packing, p: Packet): Packing
  {
    var st' := if TotalSize(st.cur) + WireSize(p) > mtu then Emit(st) else st;
    st'.(cur := st'.cur + [p])
  }

  function PackAll(mtu: nat, st: Packing, ps: seq<Packet>): Packing
  {
    if ps == [] then st else PackOne(mtu, PackAll(mtu, st, ps[..|ps| - 1]), ps[|ps| - 1])
  }

  /** The datagrams a flush hands to the output callback. */
  function Datagrams(mtu: nat, ps: seq<Packet>): seq<seq<Packet>>
  {
    Emit(PackAll(mtu, Packing([], []), ps)).done
  }
}
