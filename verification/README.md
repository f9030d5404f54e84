# BiTun protocol model

BiTun carries TCP connections between two peers over one encrypted UDP tunnel. This project models
the protocol logic stacked between the UDP socket and the TCP sockets and proves what each layer
owes the next:

- **KCP** (`src/ikcp.c`), the reliable transport: four segment queues, a sliding window, cumulative
  and selective acknowledgements, fragmentation, retransmission, congestion arithmetic and 32-bit
  sequence numbers.
- **The erasure code** (`src/fec.c`, `src/fec.h`): table-driven arithmetic in GF(256), a Cauchy
  Reed-Solomon encoder, a Gauss-Jordan inverter and the decoder.
- **Packet groups** (`src/tunnel.c`): how payloads are framed into blocks, numbered, tracked in
  three slots and recovered.
- **The handshake** (`src/tunnel.c`, `src/encrypt.c`): challenge and response between two symmetric
  peers, key derivation and roles.
- **The anti-replay window** (`src/encrypt.c`), **channel credit** (`src/tunnel.c`) and the
  **streaming SOCKS5 parser** (`src/socks5.c`).

## How it is built

Every component has two halves. A class holds the fields the C code updates, and its methods, with
the C code's loops and branches, are proved against a function of the old state. Lemmas then prove
what the source promises about that function: invariants of every run, round trips, uniqueness,
conservation. In KCP the function is `KcpSpec`, the class `KcpBlock.Kcp`.

| files | contents |
|---|---|
| Bytes, Counting | octets and machine words; finite sets |
| KcpSpec | the control block as a value, all operations as functions of a number mode: 32-bit or unbounded |
| KcpWire, KcpMessages, KcpSending, KcpLists | datagram octets; fragments and messages; the send queue; queue scans |
| KcpFlow, KcpWorld | the invariant of one direction; two endpoints, a network, all runs |
| KcpWrap, KcpRefine | 32-bit numbers refine unbounded ones, step by step and run by run |
| KcpReassembly, KcpCongestion, KcpTimers | order independence; the congestion window; what the timing rules mean |
| KcpFlushing, KcpFastAck, KcpInputs, KcpEcho | what a flush launches and sends; fast retransmission; what a datagram, a read and the clock change; echoed stamps |
| KcpTunnel, KcpLimit, KcpProgress | the run theorems at the settings of a tunnel; where they end; every run can finish |
| KcpBuffer, Kcp, KcpOctets | the output buffer and the control block updated in place; two blocks joined by octets |
| Gf256, GfOrder, GfField, GfTables | the field, the order of its generator, inverses, the tables |
| Matrix, GaussJordan, Cauchy, ErasureCode, FecCodec | linear algebra, inversion, independence, the code, the coder over buffers |
| FecGroups, FecDelivery, FecRuns, FecSending, FecTunnel | group framing and tracking; one slot; all arrivals; both ends; the in-place tables |
| FecComplete, FecEviction | every packet of a group is sent once, and any n of them suffice; which group loses its slot, and the loss report |
| FecExpiry, FecCorruption | groups the 10 ms timer closes early: when recovery misreads them, and what it then hands up |
| TunnelStack, StackProgress | KCP over packet groups over a lossy wire, in place; it can always finish |
| Handshake, HandshakeProgress, HandshakeSteps, HandshakePeer | the two-peer protocol; it can always connect; each datagram and clock turn exactly; the tunnel fields |
| AntiReplay, Credit, Socks5, Socks5Parser | the smaller components with their classes |

The KCP argument goes through unbounded sequence numbers. `KcpWorld.EveryRunSafe` is an invariant
proof over every interleaving of send, receive, tick, flush and delivery, where the network holds
every datagram ever sent and may deliver any of them at any time or never. `KcpRefine.RunRefines`
then shows that the 32-bit run is the image of the unbounded run while every delivered number lies
within half the range of the counters it meets, and `KcpRefine.EveryShortRunSafe` that this is so in
every run of at most 2^31 + 1 segments a side. `KcpLimit.StaleAckOutcome` is a run of any length that
shows where this ends: a datagram of the first exchange arrives again and removes the segment in
flight exactly when the number of that segment modulo 2^32 is above 2^31, so already with 2^31 + 2
segments (`KcpLimit.BoundMatters`). With unbounded numbers the
model keeps two rules of the 32-bit comparison: a data packet more than half the range behind the
window edge is ignored (`KcpSpec.BelowEdge`), and an acknowledgement half the range ahead of the last
one seen does not count as ahead of it (`KcpSpec.Ahead`).

Safety has two companions. `KcpProgress.EveryRunCanFinish` says that no reachable state is a dead
end: retransmission at its time, an answer and an acknowledgement free the oldest segment, reading
and window probes open a closed window, and so every message can still arrive, over new datagrams
only. `KcpOctets` and `TunnelStack` compose the classes: any schedule of calls on two control blocks
joined by the octets of their output callbacks, or by packet groups on a wire that loses, repeats and
reorders, is a run of `KcpWorld`, so what is proved there holds of the code that is updated in place.
`StackProgress.Follow` goes the other way: the stacks carry out every such finishing run. The
handshake has the same pair: `Handshake.EveryPeerOk` and `HandshakeProgress.EveryRunCanConnect`.

Beside the invariants stand theorems that fix what single operations do, in terms of windows, timers
and counters. A flush launches exactly what the least of its windows lets in
(`KcpFlushing.FlushRespectsWindows`) and sends the pending acknowledgements, the probes asked for and
then exactly the segments that are due (`KcpFlushing.FlushSpeaks`, `KcpFlushing.SentExactly`). An
acknowledgement counts against exactly the older segments it skips, and enough of them bring a
segment into the next flush (`KcpFastAck.FastRetransmit`). Every acknowledgement echoes the stamp of a
data packet that was sent (`KcpEcho.EveryAckEchoes`).

The erasure code rests on one algebraic fact: eliminating an unknown from a Cauchy system leaves a
rescaled smaller Cauchy system (`Cauchy.CauchyNonsingular`). With it every choice of n rows of the
generator is invertible, so decoding n distinct blocks never fails and has one answer. That x has
order exactly 255 in the field (`GfOrder.OrderIs255`) makes the logarithm table total; the table
loop runs 256 times, so the entry for 1 is 255 and not 0.

A group that the 10 ms timer closes after m of n data packets has parities computed over m blocks,
while its data packets still announce n. Recovery can therefore run with the wrong size, for some
order of arrival, exactly when m < n < min(m + r, 2 m) (`FecExpiry.MisreadExactly`). It then solves a
row of the code for n with parities in the place of data. For m = 2 and n = 3 that yields a block of
zeros, which is not handed up. In every other case the block is a nontrivial sum of the data, because
Cauchy systems are nonsingular, and some payloads make it one that nobody sent
(`FecCorruption.EarlyCloseExactly`). Of the settings chosen in lines 1136-1149 of `src/tunnel.c`,
those with more than one parity are unsound at m = n - 1 and nowhere else. For every other size, and
always with the one parity per group a tunnel starts with, the group theorems cover closed groups.

What a group sends is stated from the calls alone: `FecComplete.EachPacketOnce` has each index of a
group once on the wire, with its payload or its encoded block, and `FecComplete.FullGroupDelivered`
adds that any n of these packets that find their slot at the receiver bring all n payloads out. When
a fourth group arrives, the one that has been silent longest loses its slot
(`FecEviction.SilentLongestGoes`). Together they give completeness in terms of what the network does
and of nothing inside the receiver (`FecComplete.DeliveredUnlessCrowded`).

Keyed hashes and key derivation are injective constructors; clocks, random octets, the octets a
local socket takes and the network's choices are inputs. Automatic induction is switched off on
every lemma, so each inductive proof is the one written.

Where code and documentation differ the model follows the code: `ikcp_wndsize(32, 32)` leaves a
receive window of 128 (`KcpSpec.TunnelConfig`), and a greeting of 255 SOCKS5 methods is not
completed because the method counter has eight bits (`Socks5.GreetingAccepted`). The record of
accepted reset requests that `docs/design.md` lines 246-249 and `docs/verification_report.md` line 60
rely on to discard a repeated one is erased by the reset it belongs to (`src/tunnel.c` lines 485-486),
so a repetition is accepted for as long as its stamp is timely (`HandshakeSteps.RepeatsExactly`, with
the instance `HandshakeSteps.RepeatedResetAccepted`).

## Model

| member | source | states |
|---|---|---|
| KcpWorld.EveryRunSafe | src/ikcp.c:364-1264 | In every run of two endpoints over a network that loses, repeats and reorders: the messages received are a prefix of the messages sent (octets, boundaries, order), no segment is freed before the far side holds it, snd_buf is strictly increasing inside [snd_una, snd_nxt), the window is at most snd_wnd, snd_una is the head of snd_buf or snd_nxt, rcv_buf is sorted inside the window, and a full receive window can be read |
| KcpWorld.StepInv | src/ikcp.c:364-1264 | Each single step of either endpoint (send, receive, tick, flush, delivery) keeps the protocol invariant |
| KcpRefine.EveryShortRunSafe | src/ikcp.c:136-139 | The same safety for 32-bit sequence numbers in every run in which each side sends at most 2^31 + 1 segments |
| KcpTunnel.EveryTunnelRun | src/tunnel.c:839-843 | Between two endpoints configured as tunnels configure them, in every run of at most 2^31 + 1 segments a side: prefix delivery, no loss, windows, readability and balanced congestion arithmetic, all on 32-bit numbers |
| KcpRefine.EveryFreshRunSafe | src/ikcp.c:136-139 | The same safety for 32-bit numbers in runs of any length whose delivered numbers lie within half the range of the counters they are compared with |
| KcpRefine.RunRefines | src/ikcp.c:136-139 | A 32-bit run is, state by state and datagram by datagram, the reduction modulo 2^32 of the unbounded run |
| KcpLimit.StaleAckOutcome | src/ikcp.c:364-1264 | For every n a run of two tunnels in which A sends n + 1 messages, n of them arrive, and B's first datagram arrives again while the last is in flight: the sender then forgets that message, which is nowhere at the far side, exactly when n modulo 2^32 is above 2^31 |
| KcpLimit.BoundMatters | src/ikcp.c:619-638 | Such a run of n + 1 segments is not the reduction of the unbounded run, from n = 2^31 + 1 on: the bound of the short runs is the last that holds |
| KcpLimit.AckRemoves | src/ikcp.c:619-638 | On 32-bit numbers a cumulative acknowledgement removes a segment exactly when it is ahead of it, modulo 2^32, by more than 0 and less than 2^31 |
| KcpProgress.EveryRunCanFinish | src/ikcp.c:364-1264 | From every state two 32-bit tunnels reach within 2^31 + 1 segments a side there is a continuation that sends no new message, in which only new datagrams arrive, and after which both applications have read every message and no segment is queued or outstanding |
| KcpProgress.Round | src/ikcp.c:1117-1149 | With a segment outstanding, its retransmission at its time, one answer and one delivery advance snd_una |
| KcpProgress.OpenWindow | src/ikcp.c:1026-1070 | From a zero window the probe timer, one probe, reading at the far side and one window tell lead to a positive window |
| KcpOctets.Drive | src/ikcp.c:364-1264 | Any schedule of calls on two control blocks updated in place, each receiving the octets the other's output callback was given, is the 32-bit run over packets |
| KcpOctets.RunTunnels | src/tunnel.c:839-843 | Two tunnels exchanging octets: each application has read a prefix of what the other wrote, while each side has sent at most 2^31 + 1 segments |
| KcpOctets.OctetsArePackets | src/ikcp.c:780-943 | In every state of the invariant the octets of a datagram in the network are processed as its packets, with code 0 |
| TunnelStack.RunStacks | src/tunnel.c:69-274 | Two control blocks whose datagrams travel as packet groups over a wire that loses, repeats and reorders data and parity packets, with protection settings changing and groups closed early at any time: each application has read a prefix of what the other wrote, while neither side has opened more than 65536 groups, closed one at an unsound size or sent more than 2^31 + 1 segments |
| TunnelStack.DriveStacks | src/tunnel.c:107-274 | Any schedule of events on two such stacks is, for their control blocks, some run over packets |
| TunnelStack.UpIsDatagram | src/tunnel.c:167-258 | Whatever the group tracker hands up is one of the datagrams the far control block emitted |
| TunnelStack.DoAt | src/tunnel.c:159-274 | Each event at a stack does to its control block what the event says, and an arriving packet reaches the tracker once, and all that the tracker then hands up goes through ikcp_input, in order |
| TunnelStack.GroupReaches | src/tunnel.c:107-274 | At any point of any schedule: when n different packets of a full group have arrived while it held its slot, all its datagrams have been handed up |
| StackProgress.Follow | src/tunnel.c:107-274 | Any schedule of the control blocks in which only new datagrams arrive is carried out by the stacks, sending without protection: the resulting state is that of the packet run |
| StackProgress.FinishStacks | src/tunnel.c:107-274 | After any schedule of two stacks within the bounds of RunStacks some plan without new messages finishes, and the stacks carry out every plan that does: each application has then read exactly what the other wrote |
| KcpWrap.DiffExact | src/ikcp.c:136-139 | The signed 32-bit difference is integer subtraction exactly when the numbers lie within half the range |
| KcpWrap.DiffBehind | src/ikcp.c:136-139 | Between half and a whole range behind, the signed difference comes out non-negative |
| KcpFlow.NeverWedged | src/ikcp.c:364-417 | When nrcv_que has reached rcv_wnd the head of rcv_queue is a complete message, ikcp_peeksize is non-negative and equals the merged length |
| KcpFlow.PeekFindsMessage | src/ikcp.c:447-469 | What ikcp_recv would merge is exactly the next message of the sender, and the peeked size is its length |
| KcpFlow.LaunchFlow | src/ikcp.c:1076-1098 | Moving segments into snd_buf numbers them in stream order inside the window and keeps the invariant of the direction |
| KcpFlushing.FlushRespectsWindows | src/ikcp.c:1073-1098 | Every segment a flush adds to snd_buf is numbered less than snd_wnd, less than the peer's window and, with congestion control, less than cwnd after snd_una; the queued segments come in order with consecutive numbers; and the flush leaves snd_queue empty or snd_nxt at or past one of these bounds |
| KcpFlushing.FlushRespectsWindows32 | src/ikcp.c:1073-1098 | The same on 32-bit numbers, as distances from snd_una |
| KcpFlushing.ClosedWindow | src/ikcp.c:1073-1076 | With a zero peer window nothing is launched |
| KcpFlushing.EveryFlushBounded | src/ikcp.c:1073-1098 | In every run of two tunnels of at most 2^31 + 1 segments a side, a flush of either side respects these bounds |
| KcpFlushing.FlushSpeaks | src/ikcp.c:1004-1189 | The packets of a flush, 32-bit or unbounded, are one acknowledgement for each pending one, in order, with its number and stamp; a window probe and a window tell exactly where asked for or due; then one data packet, in the order of snd_buf, for each segment launched now, never sent, timed out, or overtaken often enough and not sent too often for that; all under the current rcv_nxt and free window |
| KcpFlushing.SentExactly | src/ikcp.c:1116-1149 | Of the outstanding segments a flush sends exactly the due ones |
| KcpFlushing.FlushTimes | src/ikcp.c:1116-1229 | After a flush: what was launched has been sent once and waits one time-out; xmit has grown by the number of expired timers; the link is given up exactly when it was before or a segment sent now reaches dead_link transmissions; after an expired timer cwnd is 1 and ssthresh half the old window, after an overtaken segment only, ssthresh is half of what is in flight and cwnd that plus fast_resend, and otherwise both stay; cwnd is never below 1 |
| KcpFlow.PushFlow | src/ikcp.c:857-882 | A genuine data packet, new, repeated or late, keeps the invariant of its direction |
| KcpLists.DropAckedSpec | src/ikcp.c:619-638 | A cumulative acknowledgement removes exactly the leading segments below it |
| KcpLists.RemoveSnSpec | src/ikcp.c:587-617 | A selective acknowledgement removes exactly the segment it names, if present |
| KcpLists.FastAckScan | src/ikcp.c:647-661 | The scan counts against exactly the segments before the first number above sn whose number differs and whose stamp is not later, each once |
| KcpFastAck.FastAckExactly | src/ikcp.c:640-662 | In an ordered snd_buf an acknowledgement of an outstanding number counts against exactly the segments with smaller numbers whose stamp is not later than its own; one that is not outstanding counts against none; nothing else changes |
| KcpFastAck.FastAckExactly32 | src/ikcp.c:640-662 | The same on 32-bit numbers within half the range |
| KcpFastAck.FastRetransmit | src/ikcp.c:640-662 | In every run from a reachable state: once fast_resend datagrams have arrived all of whose acknowledgements overtake an outstanding segment, sent at most fast_limit times and neither acknowledged nor sent in between, the next flush puts its data packet on the wire, whatever its timer says |
| KcpFastAck.TunnelFastRetransmit | src/ikcp.c:1137-1148 | The same between two tunnels on 32-bit numbers, where two such datagrams suffice |
| KcpLists.InsertSpec | src/ikcp.c:726-746 | The scan from the tail of rcv_buf inserts a new number in order and drops a repeated one |
| KcpLists.DrainSpec | src/ikcp.c:753-764 | The refill loop moves exactly the in-order run that fits the window |
| KcpMessages.CutSpec | src/ikcp.c:515-547 | The fragments of a message count frg down to 0, hold at most mss octets each and merge back to the message |
| KcpSending.SendAppends | src/ikcp.c:475-550 | In both modes ikcp_send adds exactly the first ret octets to the queued octets, nothing on a negative result, no segment exceeds mss, and message mode refuses exactly what needs 128 segments or more |
| KcpSending.StreamSends | src/ikcp.c:475-550 | Stream mode keeps every queued segment but the last full and none empty; it takes all of what needs fewer than 128 new segments, and of more exactly what the last queued segment has room for, or nothing with -2 |
| KcpSending.PackedUnique | src/ikcp.c:484-513 | Two such queues of the same octets hold the same payloads: how a stream was cut into calls leaves no trace |
| KcpReassembly.ReassemblyOrderIndependent | src/ikcp.c:714-764 | At a 32-bit receiver, also with a window across the wrap: the same in-window segments in any order with any repeats end in the same rcv_nxt, rcv_queue and rcv_buf, drained |
| KcpReassembly.RetransmissionsDoNotMatter | src/ikcp.c:714-764 | The same at a 32-bit receiver for fragments retransmitted with new header fields, up to those fields |
| KcpReassembly.EveryRunDrained | src/ikcp.c:419-431 | In every state of every run, of 32-bit or unbounded endpoints and of any length, rcv_buf is drained as far as the window allows |
| KcpInputs.PushExactly | src/ikcp.c:857-882 | A data packet below the end of the window is acknowledged with its own number and stamp; inside it, it is stored unless its number is, and the segments next in line move to rcv_queue while there is room; any other packet stores and moves nothing |
| KcpInputs.InputFrame | src/ikcp.c:823-904 | A datagram leaves rmt_wnd at what its last packet says, asks for a window tell exactly when it holds a probe, and changes of the clock fields only the round-trip estimates |
| KcpInputs.LatestIsForemost | src/ikcp.c:836-855 | The acknowledgement of a datagram that drives fast retransmission is one of its acknowledgements, and none has both a larger number and a later stamp |
| KcpInputs.ReceiveExactly | src/ikcp.c:364-441 | The codes -1, -2 and -3 as equivalences, with nothing changed; otherwise the octets of the first message come out, peeking leaves the queue, and a window tell is asked for exactly when a full queue stops being full |
| KcpInputs.TickExactly | src/ikcp.c:1238-1263 | ikcp_update flushes exactly on the first call, when the flush time is reached, or when the clock is ten seconds or more off; the next flush time is then ahead by at most one interval and keeps its grid |
| KcpEcho.EveryAckEchoes | src/ikcp.c:664-706 | In every run each acknowledgement, pending or in the network, carries the number and stamp of a data packet the far side has sent, so a round-trip sample is the time since that packet left |
| KcpCongestion.EveryRunBalanced | src/ikcp.c:910-1229 | In every run with fastresend at most 32768, 0 included: incr stays within one mss of cwnd times mss, ssthresh is at least 2 and cwnd stays bounded |
| KcpCongestion.EveryFreshRunBalanced | src/ikcp.c:910-1229 | The same for 32-bit endpoints |
| KcpCongestion.GrowBalanced | src/ikcp.c:918-940 | Slow start, avoidance and the clamp to the peer's window keep that balance |
| KcpCongestion.GrowExactly | src/ikcp.c:918-940 | In a balanced state: no growth at or past the peer's window; one segment in slow start; in avoidance incr gains mss^2 / incr + mss / 16 and cwnd becomes the least number of segments that holds it, once that is more; never past the peer's window |
| KcpInputs.DeliveryGrows | src/ikcp.c:906-940 | In every balanced state of the invariant a datagram makes the window grow in that way exactly when it moves snd_una on |
| KcpCongestion.GrowsToPeer | src/ikcp.c:918-940 | From every balanced state finitely many growths without loss reach the peer's window |
| KcpCongestion.AdjustBalanced | src/ikcp.c:1197-1229 | Fast retransmit and timeout keep it, and cwnd is at least 1 after every completed flush |
| KcpWire.LeRoundTrip | src/ikcp.c:53-121 | Decoding an encoded integer gives it back |
| KcpWire.ParsePrinted | src/ikcp.c:796-904 | Parsing the octets of a printed datagram ends without error and yields its packets in order |
| KcpWire.ParsedPacketsFit | src/ikcp.c:796-821 | Whatever the octets, the packets read fit their headers, carry the right conversation and print to a prefix of the octets; what follows that prefix gives the code: less than a header 0, a foreign conversation -1, a length past the end -2, an unknown command -3 |
| KcpWire.DatagramsCarry | src/ikcp.c:1012-1195 | The datagrams of a flush have between 1 and mtu octets and carry exactly the emitted packets, in order |
| KcpWire.DatagramsTight | src/ikcp.c:1012-1195 | A datagram is closed only when the next packet does not fit it |
| KcpRefine.EveryDatagramParses | src/ikcp.c:1012-1195 | Every datagram in the network of a reachable state has 1 to mtu octets and parses back to its packets |
| KcpSpec.TunnelConfig | src/tunnel.c:839-843 | The configuration calls of a tunnel give a valid configuration with receive window 128, send window 32 and mtu 1400 |
| KcpBlock.Kcp.constructor | src/ikcp.c:234-297 | A new control block is the specified initial state |
| KcpBlock.OpenTunnelBlock | src/tunnel.c:839-843 | The creation and configuration calls of a connection yield the starting endpoint of the run theorems |
| KcpBlock.Kcp.WndSize | src/ikcp.c:1364-1375 | A positive argument sets its window, the receive window never below 128; other arguments change nothing |
| KcpBlock.Kcp.NoDelay | src/ikcp.c:1338-1361 | The timing settings: the interval becomes the value of 10..5000 nearest to the argument, negative arguments leave their setting, setting twice is setting once |
| KcpTimers.NoDelaySpec | src/ikcp.c:1338-1361 | The same of the function, with the minimum timeout 30 or 100 by nodelay and every other setting as given |
| KcpBlock.Kcp.Send | src/ikcp.c:475-550 | The new send queue and the result are those of the specified ikcp_send; nothing else changes |
| KcpBlock.Kcp.TopUp | src/ikcp.c:484-513 | Stream mode extends the last queued segment by what fits |
| KcpBlock.Kcp.QueueFragments | src/ikcp.c:526-547 | The loop appends the specified fragments of the octets |
| KcpBlock.Kcp.PeekSize | src/ikcp.c:447-469 | The size of the first message, or -1 while it is incomplete |
| KcpBlock.Kcp.TakeMessage | src/ikcp.c:388-415 | The merged octets of the first message, removed from the queue unless peeking |
| KcpBlock.Kcp.MoveAvailable | src/ikcp.c:419-431 | The refill loop is Drain on 32-bit numbers |
| KcpBlock.Kcp.Recv | src/ikcp.c:364-441 | State, result and octets of the specified ikcp_recv; the merged length is the peeked one |
| KcpBlock.Kcp.ParseUna | src/ikcp.c:619-638 | The loop drops exactly what the cumulative acknowledgement covers and keeps the counter equal to the queue |
| KcpBlock.Kcp.ShrinkBuf | src/ikcp.c:576-585 | snd_una becomes the head of snd_buf or snd_nxt |
| KcpBlock.Kcp.ParseAck | src/ikcp.c:587-617 | The in-place removal is the specified one |
| KcpBlock.Kcp.ParseFastAck | src/ikcp.c:640-662 | The in-place scan counts against the segments before the first number above sn, those of another number and no later stamp, by one each; a number that is not outstanding changes nothing |
| KcpBlock.Kcp.UpdateAck | src/ikcp.c:556-574 | Smoothed round trip between its old value and the sample, timeout between the configured minimum and 60 s and not below the smoothed round trip unless capped |
| KcpTimers.RttSpec | src/ikcp.c:556-574 | The first sample sets the estimates; then the round trip moves an eighth of the way to the sample and the deviation a quarter of the way to their distance, rounded down; the time-out is the round trip plus the larger of the interval and four deviations, between the configured minimum and 60 s |
| KcpTimers.RttSteady | src/ikcp.c:556-574 | So the smoothed round trip stays between its old value and the sample, and a steady round trip is a fixed point with shrinking deviation |
| KcpBlock.Kcp.ParseData | src/ikcp.c:714-764 | Scan from the tail, insertion and refill are the specified ones |
| KcpBlock.Kcp.TakePacket | src/ikcp.c:823-904 | One turn of the input loop: header, acknowledgement, data, probe |
| KcpBlock.Kcp.GrowWindow | src/ikcp.c:918-940 | The congestion window after an acknowledgement advanced snd_una |
| KcpBlock.Kcp.Input | src/ikcp.c:780-943 | On any octets: the packets before the first malformed one take effect, the code names the error, and only a clean end runs what follows the loop |
| KcpBlock.InputPrinted | src/ikcp.c:780-943 | On the octets of a printed datagram ikcp_input is the specified input of its packets, with code 0 |
| KcpBlock.InputMalformed | src/ikcp.c:796-821 | A malformed packet: its code, and the packets before it taken as if they had come alone, except that no segment counts as overtaken and the window does not grow |
| KcpBlock.Kcp.FlushAcks | src/ikcp.c:1012-1024 | All pending acknowledgements are encoded in order and forgotten |
| KcpBlock.Kcp.FlushProbes | src/ikcp.c:1048-1070 | Window probes and window tells asked for are encoded and the flags cleared |
| KcpBlock.Kcp.TickProbe | src/ikcp.c:1026-1046 | The zero-window probe timer; while the window is zero the wait stays between 5 and 120 s and never shrinks |
| KcpTimers.ProbeSpec | src/ikcp.c:1026-1046 | While the peer's window is zero the wait starts at 5 s and grows by half, up to 120 s, with each probe; a probe is asked for exactly when the wait is over, and the next is due exactly one wait later |
| KcpBlock.Kcp.LaunchSegments | src/ikcp.c:1076-1098 | The loop is the specified Launch on 32-bit numbers |
| KcpBlock.Kcp.Retime | src/ikcp.c:1117-1149 | Whether and why a segment is sent; one that is not is left alone, one that is keeps number, fragment and octets and counts one more transmission |
| KcpTimers.RetimeSpec | src/ikcp.c:1117-1165 | Whether a segment is sent, and whether for the first time, for its timer or because it was overtaken, as equivalences in its transmissions, timer, count, fast_resend and fast_limit; a sent segment is due again exactly one wait later and carries the current clock and window; only a fast retransmission resets the count |
| KcpTimers.NotDueTwice | src/ikcp.c:1117-1165 | Within one clock value a segment is not sent twice for its timer |
| KcpTimers.BackoffGrows | src/ikcp.c:1127-1136 | A timeout adds to the wait the longer of itself and the current time-out without nodelay, half of itself with nodelay 1, and half of the current time-out above |
| KcpBlock.Kcp.SweepBuf | src/ikcp.c:1116-1189 | The loop over snd_buf rewrites every segment, emits the due ones and counts timeouts and fast retransmissions as specified |
| KcpBlock.Kcp.AdjustWindow | src/ikcp.c:1197-1229 | ssthresh, cwnd and incr after the sweep |
| KcpBlock.Kcp.Append | src/ikcp.c:1015-1023 | A packet is added to the datagram under construction, which is sent first when both do not fit the mtu |
| KcpBlock.Kcp.Flush | src/ikcp.c:974-1230 | The whole new state, and to the output callback the octets of exactly the datagrams of the specified packets; what is launched fills the least of the windows and no more, and timers, counters and window change as FlushTimes says |
| KcpBlock.Kcp.Update | src/ikcp.c:1238-1263 | The flush timer, and a flush when it is due |
| KcpBuffer.OutBuffer.PutPacket | src/ikcp.c:949-960 | The encoded header and payload are appended to the buffer |
| Gf256.MulAssoc | src/fec.h:66-70 | The carry-less product modulo 0x11d is associative |
| Gf256.MulAddLeft | src/fec.h:66-70 | It distributes over exclusive or |
| GfOrder.OrderIs255 | src/fec.c:7-19 | The powers of x return to 1 at 255 and not before |
| GfOrder.EveryNonzeroIsPower | src/fec.c:7-19 | Every nonzero element is a power of x, so the logarithm table is total on 1..255 |
| GfField.DivMul | src/fec.h:71-77 | Division undoes multiplication by a nonzero element |
| GfField.NoZeroDivisors | src/fec.h:66-70 | A product is zero only if a factor is |
| GfTables.Tables.Init | src/fec.c:7-19 | The loop fills both tables for every index the lookups form (at most 510), with 255 as the logarithm of 1 |
| GfTables.Tables.GfMul | src/fec.h:66-70 | The table lookup is the carry-less product |
| GfTables.Tables.GfDiv | src/fec.h:71-77 | The table lookup is division in the field, 0 for a zero operand |
| FecCodec.MulAddBuf | src/fec.c:21-35 | For every length and coefficient the buffer becomes itself plus the coefficient times the source, octet by octet |
| FecCodec.FecEncode | src/fec.c:37-47 | Parity block i is the Cauchy row n + i applied to the data, which is left unchanged |
| GaussJordan.InvertMatrix | src/fec.c:49-98 | Result 0 exactly for nonsingular matrices, and then the output times the original matrix is the identity; result -1 exactly when some nonzero vector is sent to zero |
| Cauchy.CauchyNonsingular | src/fec.c:100-119 | A Cauchy system with distinct, disjoint indices has only the zero solution |
| ErasureCode.AnyRowsIndependent | src/fec.c:100-123 | Every choice and order of n distinct generator rows is nonsingular |
| ErasureCode.EncodedData | src/fec.c:108-113 | The code is systematic: block idx below n is data block idx |
| ErasureCode.AnyNBlocksDetermineData | src/fec.c:100-144 | Blocks that explain n genuine blocks at distinct indices are the original data |
| FecCodec.FecDecode | src/fec.c:100-144 | Success exactly when enough blocks arrived and their rows are independent; the output then encodes to what was received, and on failure nothing is written |
| FecCodec.DecodeAnyLoss | src/fec.c:100-144 | Any n of the n + r encoded blocks, in any order, decode to the data |
| FecGroups.UnframeFramed | src/tunnel.c:133-140 | A framed payload of 1 to 1400 octets is read back from its block |
| FecGroups.UnframedExactly | src/tunnel.c:254-266 | A recovered block holds a payload exactly when it starts with a length of 1 to 1400 and then its octets |
| FecDelivery.SolutionIsData | src/tunnel.c:236-253 | Decoding a slot of n genuine packets gives the sender's framed payloads |
| FecDelivery.RecoveredAll | src/tunnel.c:252-266 | Recovery hands up exactly the data payloads whose packets did not arrive, each as sent |
| FecDelivery.RightSize | src/tunnel.c:227-236 | In a slot of genuine packets of a group whose data packets cannot be early, the packet that starts recovery carries the size of the group, or no payload is missing |
| FecDelivery.ThirdIsNothing | src/tunnel.c:227-256 | Two data packets of an announced three and a parity over the two: recovery with the wrong size hands up nothing |
| FecDelivery.TakeKeeps | src/tunnel.c:203-274 | One genuine packet keeps its slot consistent with what was sent and with what has been handed up |
| FecRuns.EveryUpGenuine | src/tunnel.c:159-274 | Over any run of arrivals, lost, repeated, reordered, interleaved and with slots evicted, every payload handed up is the one framed for that group and index, groups closed early at sound sizes included |
| FecRuns.GroupComplete | src/tunnel.c:172-274 | Once n distinct packets of a full group have arrived while it holds its slot, every data payload of the group has been handed up |
| FecRuns.ShortGroupComplete | src/tunnel.c:172-274 | The same of a group closed early after m data packets: m distinct packets suffice when the last to arrive is a parity |
| FecSending.SendAll | src/tunnel.c:69-157 | Over any calls that open at most 65536 groups, with settings changing between groups, any number of unprotected payloads and groups closed by the timer, every packet emitted belongs to one group that keeps its n, r and payloads, and no number is used twice |
| FecSending.EndToEnd | src/tunnel.c:69-274 | Both ends, at most 65536 groups, none closed at an unsound size, and any network: only payloads given to the sender are handed up, each at its own group and index |
| FecComplete.FullGroupSent | src/tunnel.c:107-157 | A group that gets its n-th payload, whatever unprotected payloads came in between, has put on the wire exactly one packet for each payload, then one for each parity, under the next group number and the settings its first payload found, held to 1..16 and 8 |
| FecComplete.ClosedGroupSent | src/tunnel.c:69-101 | The same of a group the timer closes after m payloads: m data packets and the parities computed from them |
| FecComplete.EachPacketOnce | src/tunnel.c:69-157 | In every run that opens at most 65536 groups each index of such a group occurs exactly once on the wire, with the payload or the block encoded from all payloads, and no further index occurs |
| FecComplete.FullGroupDelivered | src/tunnel.c:69-274 | Both ends: any n different packets of such a group that arrive while it holds its slot bring out all its n payloads |
| FecComplete.ClosedGroupDelivered | src/tunnel.c:69-274 | The same of a closed group, when the last of m different packets is a parity |
| FecComplete.DeliveredUnlessCrowded | src/tunnel.c:69-274 | Both ends, in terms of the network alone: any n different packets of such a group bring out all its n payloads, unless between the first and the last of them a packet of another group arrives while two further groups have been heard of no earlier than this one |
| FecExpiry.MisreadExactly | src/tunnel.c:227-256 | For every group: some genuine arrivals make recovery run with a size that is not the group's while something is missing, exactly when m < n < min(m + r, 2 m) for the m data packets it was closed after |
| FecExpiry.NeverMisread | src/tunnel.c:227-256 | Over any run of genuine arrivals of groups outside that condition this never happens |
| FecCorruption.CorruptsExactly | src/tunnel.c:203-274 | For all n, m and r: some payloads and some genuine arrivals make the receiver hand up something not framed for that group and index, exactly when m < n < min(m + r, 2 m) and not both m = 2 and n = 3 |
| FecCorruption.EarlyCloseExactly | src/tunnel.c:69-274 | Both ends, for all n, m and r: some m payloads sent under these settings, the timer and some network make the receiver hand up a payload that was in no call, exactly under the same condition |
| FecCorruption.MixedSolves | src/fec.c:100-144 | What a decoder for n computes for a block z in a group of m: block z plus the weighted parities it took for data, over the coefficient of z |
| FecCorruption.SomeWeight | src/fec.c:100-123 | In that sum, among as many data blocks as there are such parities one has a nonzero weight |
| FecExpiry.OneParityIsTimely | src/tunnel.c:394-395 | As long as no setting asks for more than one parity the timer closes no group at an unsound size, whenever it fires |
| FecTunnel.GroupSender.Output | src/tunnel.c:107-157 | The encoder state and the packets emitted are those of the function FecComplete.FullGroupSent fixes |
| FecTunnel.GroupSender.SendParity | src/tunnel.c:69-101 | All parity packets over the blocks collected so far, numbered from their count, and an empty encoder |
| FecTunnel.GroupSender.Expire | src/tunnel.c:526-530 | The timer sends the parities of an open group and empties the encoder, and does nothing without one |
| FecTunnel.DecodeBlocks | src/tunnel.c:238-251 | With distinct indices the decoder never fails |
| FecTunnel.OnlySolution | src/tunnel.c:251-253 | The decoder's blocks are the only explanation of the slot |
| FecTunnel.GroupReceiver.Find | src/tunnel.c:172-178 | The first slot in use for the group |
| FecTunnel.GroupReceiver.Pick | src/tunnel.c:181-193 | The first empty slot, else the one whose last activity is earliest, the first of them on ties |
| FecTunnel.PickSpec | src/tunnel.c:181-193 | The same of the function the run theorems use |
| FecEviction.EverySlotCurrent | src/tunnel.c:172-203 | In every run of arrivals each slot in use records the time of the last accepted packet of its group, stored or not, and no group has two slots |
| FecEviction.SilentLongestGoes | src/tunnel.c:172-203 | A packet of a group with a slot changes that slot only; the first of another group takes the first empty slot, or else the slot of the group whose last packet is oldest, the first of them on ties |
| FecEviction.HeldUnlessCrowded | src/tunnel.c:172-203 | A group heard of with a packet to store has a slot, and keeps it until a packet of another group arrives while two further groups have been heard of no earlier |
| FecEviction.CountsExactly | src/tunnel.c:196-297 | A group counts as expected, with n + r packets, exactly when it takes a slot; a packet is stored and counted exactly when its index is below n + r and new to the slot; a report follows after 100 stored packets, a second or a clock set back, with the whole per cent that did not come, and starts the counts anew |
| FecTunnel.GroupReceiver.Receive | src/tunnel.c:159-297 | Slots, payloads handed up and loss statistics are, on every packet, those of the functions that FecRuns, FecEviction and FecComplete fix |
| FecGroups.ShareOfHundred | src/tunnel.c:280-284 | The loss rate reported is the missing share of the expected packets in whole per cent, rounded down |
| Handshake.EveryPeerOk | src/tunnel.c:475-904 | In every reachable state a control block exists exactly when connected, none is leaked or released twice, and key and role are those of the current salt pair |
| Handshake.ConnectedNeedsAnswer | src/tunnel.c:808-849 | A peer enters CONNECTED only if the other earlier held the mirrored salts and had answered with them |
| Handshake.ResponseOrigin | src/tunnel.c:793-804 | Every response in the network was sent by a peer that held its two salts at that moment |
| Handshake.AgreedKeysAndRoles | src/tunnel.c:766-836 | Connected peers with mirrored salts have equal keys, and opposite roles exactly when the salts differ |
| Handshake.EqualKeysMeanSharedSalts | src/encrypt.c:54-73 | Connected peers with equal keys hold the same two salts |
| Handshake.SameKeySamePair | src/encrypt.c:54-73 | Two derivations agree exactly when their salt pairs are the same up to order |
| Handshake.GreaterTotal | src/encrypt.c:63-70 | memcmp orders the salts: of two different ones exactly one is greater |
| Handshake.GreaterTransitive | src/encrypt.c:63-70 | and the order is transitive |
| HandshakeSteps.KeyAndRole | src/encrypt.c:54-73 | A connected peer's key is derived from both salts, first the one that is larger in the first octet in which they differ, and its role is odd exactly when that salt is its own |
| Handshake.RunMirrors | src/tunnel.c:690-904 | Swapping the peers of a run swaps its outcome, so each statement about one peer holds of the other |
| HandshakeProgress.EveryRunCanConnect | src/tunnel.c:537-904 | From every state of every run, if a peer is configured with an address: a continuation in which time moves forward and only new messages arrive connects both over any two salts drawn in it, with one key, and opposite roles unless the salts are equal |
| HandshakeProgress.CanConnectExactly | src/tunnel.c:537-904 | Some run connects both peers exactly when one of them is configured with an address |
| HandshakePeer.Tunnel.OnMessage | src/tunnel.c:690-904 | State and replies for every handshake datagram in every state are the specified ones and keep the peer invariant; only the awaited response in AUTH connects, then with a control block, the key and the role of the current salts, and only a timely reset request disconnects |
| HandshakePeer.Tunnel.OnTick | src/tunnel.c:537-592 | Time-outs, keepalives and retransmissions are the specified ones; a connection ends exactly after 30 s of silence, AUTH exactly after 5 s, and time alone never connects |
| Handshake.OnlyAwaitedResponseConnects | src/tunnel.c:690-904 | Of all datagrams only the response over the salts held connects, and only in AUTH |
| Handshake.OnlyResetsDisconnect | src/tunnel.c:852-901 | Of all datagrams only a reset request within 5 s of the clock and not the one recorded ends a connection |
| HandshakeSteps.ResetExactly | src/tunnel.c:852-901 | The same equivalence of the function, with every field of the new state |
| HandshakeSteps.RepeatsExactly | src/tunnel.c:475-501 | In every state of every run a reset request, new or repeated, is accepted exactly when its stamp is within 5 s of the clock, the request of time 0 and nonce 0 apart, because accepting one erases the record |
| HandshakeSteps.RepeatedResetAccepted | src/tunnel.c:881-898 | One request delivered twice within 20 ms resets a peer twice |
| Handshake.TimeOutsExact | src/tunnel.c:537-592 | The time-outs as equivalences, and punching starts only from a disconnected peer with a known address |
| HandshakeSteps.TickExactly | src/tunnel.c:537-592 | What each turn of the clock sends and changes in every state: a ping, with a reset request to a known peer, more than a second after the last; a challenge more than half a second after the last; a keepalive every 10 s; and the two time-outs |
| HandshakeSteps.PacketPutsOffEnd | src/tunnel.c:906-948 | After a genuine packet that passes the window the connection lasts exactly 30 s more |
| HandshakePeer.Tunnel.ResetTunnel | src/tunnel.c:475-501 | Nothing of the connection survives: the control block is released, key, anti-replay window, reset record and channels are cleared, and a learned peer is forgotten |
| HandshakePeer.Tunnel.OnChal | src/tunnel.c:753-806 | A challenge is stored and answered with both salts in every state, which it does not change; when connected it re-keys and replaces the control block |
| HandshakePeer.Tunnel.OnResp | src/tunnel.c:807-851 | A response connects exactly in AUTH and for the salts held; otherwise nothing changes |
| HandshakePeer.Tunnel.OnReset | src/tunnel.c:852-901 | A request restarts the peer exactly when its stamp is within 5 s of the clock and it is later than the recorded one: AUTH with a new salt since now, no control block, key or channels, an empty anti-replay window; otherwise nothing changes |
| AntiReplay.EveryRunAgrees | src/encrypt.c:6-44 | In every run the bitmap agrees with the set of all accepted numbers, and no number is accepted twice |
| AntiReplay.AcceptedExactly | src/tunnel.c:911-938 | In any run the next packet is accepted exactly when it decrypts, is nonzero, was not accepted before and is less than 64 behind the newest |
| AntiReplay.CheckExact | src/encrypt.c:12-25 | The check passes exactly for nonzero numbers above the maximum or less than 64 behind it and not yet accepted |
| AntiReplay.UpdateAgrees | src/encrypt.c:28-44 | Shifting and marking keep bitmap and set in agreement |
| AntiReplay.BitOfShift | src/encrypt.c:31-33 | A left shift in 64 bits moves every bit and drops the rest |
| AntiReplay.ReplayWindow.Check | src/encrypt.c:12-25 | The in-place check decides by the accepted set |
| AntiReplay.ReplayWindow.Update | src/encrypt.c:28-44 | The in-place update adds the number to the set the window stands for |
| Credit.EveryRunConserves | src/tunnel.c:1091-1099 | In every run and direction, window, DATA in flight, collected octets, credit in flight and refused octets add up to 4096 |
| Credit.NoWrap | src/tunnel.c:1253-1276 | No unsigned addition of the credit counters ever wraps |
| Credit.DrainedIsNotStuck | src/tunnel.c:1091-1099 | With both links empty the window is what was neither refused nor is being collected; with nothing refused more than 2048 is open and the next read is forwarded |
| Credit.ReadExactly | src/tunnel.c:1091-1099 | A read sends, in one frame, the most that its octets, the window and 2048 allow, and charges it |
| Credit.DataExactly | src/tunnel.c:1253-1264 | Credit goes back exactly when 2048 octets have been collected, all of them in one frame |
| Credit.ForwardedExactly | src/tunnel.c:1091-1099 | With both links empty a read is forwarded exactly while refused and collected octets leave some of the window |
| Credit.LossIsPermanent | src/tunnel.c:1253-1264 | In every continuation the window stays short of all that has been refused so far |
| Credit.SilentForGood | src/tunnel.c:1091-1276 | With both links empty: refused and collected octets make up the whole window exactly when no continuation whatever forwards another octet |
| Credit.RefusedCreditIsLost | src/tunnel.c:1253-1264 | Such a state is reachable: after two refused frames the window stays 0 in every continuation |
| Credit.ChannelEnd.LocalRead | src/tunnel.c:1091-1099 | At most the window and at most 2048 octets are sent, and charged |
| Credit.ChannelEnd.DataArrived | src/tunnel.c:1253-1264 | Consumed octets are collected and returned as credit from 2048 on |
| Credit.ChannelEnd.CreditArrived | src/tunnel.c:1268-1271 | Credit is added to the window |
| Socks5.ChunkingIrrelevant | src/socks5.c:29-179 | The context after any sequence of calls depends only on the concatenated octets |
| Socks5.CallsJoin | src/socks5.c:29-179 | One call on two pieces of input has the code of the second of two calls, and its reply or, if it has none, that of the first |
| Socks5.SuccessOnce | src/socks5.c:159-172 | Code 1 is returned by exactly one call when the octets complete a request, and by none otherwise |
| Socks5.GreetingAccepted | src/socks5.c:39-77 | For every method list: accepted exactly with 1 to 254 methods including 0x00, with the replies of section 3 of RFC 1928; 255 methods leave the parser waiting |
| Socks5.HeaderOutcome | src/socks5.c:79-122 | For every four header octets: the error replies 07 and 08, the silent error, or the address state |
| Socks5.RequestRoundTrip | src/socks5.c:79-167 | A CONNECT request for any IPv4 address, domain of 1 to 255 octets or IPv6 address (sections 4 and 5 of RFC 1928) yields that address and port |
| Socks5.ExchangeRoundTrip | src/socks5.c:29-179 | Greeting and request cut into calls in any way end in the requested address and port, and exactly one call says so |
| Socks5Parser.DomainAsString | src/tunnel.c:1076-1082 | The domain read back with strlen is the requested one exactly when it holds no zero octet |
| Socks5Parser.Parser.HandleInput | src/socks5.c:29-179 | Context, code and reply of every call on any octets are the specified ones |
| Socks5Parser.Parser.OnAddr | src/socks5.c:140-157 | Address octets go to the buffer of their type, never past its end, and a domain is closed with a zero octet |

## Left out

- KCP congestion callbacks, pacing and ackedlen, the allocator and logging hooks, ikcp_check, ikcp_release and malloc failure: never used by BiTun's protocol state, or plumbing.
- ikcp_setmtu: BiTun calls it with the default mtu, which leaves the state as it was; the mtu is fixed in every run.
- Segment queues are sequence-valued fields rather than linked lists, and the acknowledgement list is a sequence rather than a block that doubles; aliasing of list nodes is not captured.
- KcpBlock.Kcp.UpdateAck: computes with unbounded integers, so an overflow of the signed C arithmetic on round-trip times of many days is not modelled.
- KcpBlock.Kcp.Recv: the caller's buffer is a sequence result; the octets written through a NULL or short buffer are not modelled.
- KcpCongestion.EveryRunBalanced: needs fastresend at most 32768 (KcpCongestion.Modest), since a threshold near 2^32 wraps when it is added to cwnd; BiTun sets 2.
- KcpRefine.EveryFreshRunSafe: assumes of each delivered datagram that its numbers are within half the range, which a network that stores datagrams for 2^31 segments could break (KcpLimit.StaleAckOutcome).
- KcpProgress.EveryRunCanFinish: says that finishing stays possible, not that it happens under every schedule; a network that loses everything is one of the runs.
- StackProgress.FinishStacks: its plans send without protection, one of the settings the feedback chooses; that finishing stays possible under given settings is not claimed.
- HandshakeProgress.EveryRunCanConnect: needs room for 32 s before the 64-bit clock wraps.
- Stream mode appears in ikcp_send only; the run theorems are about message mode, which BiTun uses.
- Matrices are two-dimensional arrays instead of flat ones of stride n; fec_decode's stack arrays are allocated at size n.
- FecSending.EndToEnd: at most 65536 groups, after which group numbers repeat; that the anti-replay window keeps old packets away is not used. The timer may close groups at sound sizes only (FecSending.Timely); FecCorruption.EarlyCloseExactly refutes it for every other size. Whether 10 ms have passed is an input.
- FecTunnel.GroupReceiver.Receive: requires a data packet of a group to have at most 1406 octets (FecGroups.WireOk); the source copies a longer one past its block, and no sender of this protocol emits one. Parities and unprotected packets may have any length.
- FEC slots keep blocks as sequence values copied to buffers for decoding; the stored n and r of a slot, which nothing reads, and the change of settings a feedback frame causes are not modelled: settings are inputs of every call.
- TunnelStack.RunStacks: encryption and the anti-replay window are left out of the stack, so its wire may repeat packets that they would reject.
- Encryption, nonces and sockets; a datagram that fails decryption is the genuine flag of AntiReplay.Arrival.
- Peer addresses beyond whether one is known, and connection migration; channels are a set of open numbers, without their sockets.
- Channel numbers across a re-key: roles may flip while channels stay open, so their disjointness is not claimed.
- Fidelity of TCP octets end to end: octets read beyond the window are not forwarded; credit conservation is what is stated.
- SOCKS5 replies of one call overwrite each other, as in the code; a concatenation of replies is not claimed, and allocation failure for the domain is not modelled.
- The DNS worker, polling, threads, the command line, the ESP32 port and the bounded queue: input and output, or only easy members.
