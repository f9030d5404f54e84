/**
 Packet grouping around the erasure code (tunnel.c): the sender frames payloads into blocks and
 numbers them by group and index; the receiver tracks three groups and recovers lost payloads.
 */
module FecGroups {
  import opened Bytes
  import opened ErasureCode

  const MAX_N: nat := 16
  const MAX_R: nat := 8
  const BLOCK: nat := 1408
  const SLOTS: nat := 3
  const MTU: nat := 1400
  const NEVER: nat := 0xffff_ffff_ffff_ffff

  type Payload = seq<byte>

  datatype Header = Header(group: u16, index: byte, n: byte, r: byte)

  /** What travels in one encrypted datagram. */
  datatype Wire = Wire(h: Header, body: seq<byte>)

  // ---------------------------------------------------------------- blocks

  /** A data block: length, payload, zeros. */
  function Framed(p: Payload): (b: Block)
    requires |p| <= BLOCK - 2
    ensures |b| == BLOCK
  {
    [(|p| / 0x100) as byte, (|p| % 0x100) as byte] + p + seq(BLOCK - 2 - |p|, i => 0)
  }

  /** A parity block as stored: cut or filled with zeros to the block size. */
  function Padded(s: seq<byte>): (b: Block)
    ensures |b| == BLOCK
  {
    if |s| >= BLOCK then s[..BLOCK] else s + seq(BLOCK - |s|, i => 0)
  }

  /** The payload a recovered block holds, if its length is plausible. */
  function Unframed(b: Block): seq<Payload>
    requires |b| == BLOCK
  {
    var len := b[0] as int * 0x100 + b[1];
    if 0 < len <= MTU then [b[2..2 + len]] else []
  }

  lemma {:induction false} UnframeFramed(p: Payload)
    requires 1 <= |p| <= MTU
    ensures Unframed(Framed(p)) == [p]
  {
    var b := Framed(p);
    assert b[0] == |p| / 0x100 && b[1] == |p| % 0x100;
    assert b[2..2 + |p|] == p;
  }

  /** A block holds a payload exactly when it starts with its length, 1 to 1400, and its octets. */
  lemma {:induction false} UnframedExactly(b: Block, p: Payload)
    requires |b| == BLOCK
    ensures Unframed(b) == [p] <==>
            1 <= |p| <= 1400 && b[0] as int * 0x100 + b[1] as int == |p| && b[2..2 + |p|] == p
    ensures Unframed(b) == [] <==> b[0] as int * 0x100 + b[1] as int == 0 || b[0] as int * 0x100 + b[1] as int > 1400
  {
    var len := b[0] as int * 0x100 + b[1] as int;
    if 0 < len <= 1400 {
      assert Unframed(b) == [b[2..2 + len]];
    }
  }

  /** Blocks are filled with zeros, and a parity longer than a block is cut. */
  lemma {:induction false} FilledWithZeros(p: Payload, s: seq<byte>)
    requires |p| <= BLOCK - 2
    ensures forall i :: 0 <= i < |p| ==> Framed(p)[2 + i] == p[i]
    ensures forall i :: 2 + |p| <= i < BLOCK ==> Framed(p)[i] == 0
    ensures forall i :: 0 <= i < BLOCK ==> Padded(s)[i] == if i < |s| then s[i] else 0
  {
    var b := Framed(p);
    forall i | 0 <= i < |p|
      ensures b[2 + i] == p[i]
    {
    }
  }

  function Frames(ps: seq<Payload>): (bs: seq<Block>)
    requires forall i :: 0 <= i < |ps| ==> |ps[i]| <= BLOCK - 2
    ensures |bs| == |ps|
    ensures forall i :: 0 <= i < |bs| ==> |bs[i]| == BLOCK
  {
    seq(|ps|, i requires 0 <= i < |ps| => Framed(ps[i]))
  }

  // ---------------------------------------------------------------- sender

  /** fec_encoder_t between calls. */
  datatype Encoder = Encoder(group: u16, n: byte, r: byte, blocks: seq<Block>)

  predicate EncoderOk(e: Encoder)
  {
    && (forall i :: 0 <= i < |e.blocks| ==> |e.blocks[i]| == BLOCK)
    && (e.blocks != [] ==> |e.blocks| < e.n <= MAX_N && e.r <= MAX_R)
  }

  function Clamp(x: int, lo: int, hi: int): int
    requires lo <= hi
  {
    if x < lo then lo else if x > hi then hi else x
  }

  /** A group starts with the settings of the moment; a running group keeps its own. */
  function Opened(e: Encoder, fecN: byte, fecR: byte): (e': Encoder)
    requires EncoderOk(e)
    ensures |e'.blocks| < e'.n <= MAX_N && e'.r <= MAX_R && e'.blocks == e.blocks
  {
    if e.blocks == [] then Encoder(((e.group + 1) % 0x1_0000) as u16, Clamp(fecN, 1, MAX_N), Clamp(fecR, 0, MAX_R), [])
    else e
  }

  /** send_parity_packets: the headers carry the number of blocks there are, not the n of the group. */
  ghost function ParityPackets(e: Encoder): (ws: seq<Wire>)
    requires 0 < |e.blocks| <= MAX_N && e.r <= MAX_R && forall i :: 0 <= i < |e.blocks| ==> |e.blocks[i]| == BLOCK
    ensures |ws| == e.r
  {
    var size := |e.blocks|;
    seq(e.r, i requires 0 <= i < e.r =>
          Wire(Header(e.group, size + i, size, e.r), Encoded(e.blocks, size, BLOCK, size + i)))
  }

  datatype Sending = Sending(e: Encoder, ws: seq<Wire>)

  /** A payload joins the open group, followed by the parities when it completes it. */
  ghost function Added(o: Encoder, p: Payload): (s: Sending)
    requires |o.blocks| < o.n <= MAX_N && o.r <= MAX_R && |p| <= BLOCK - 2
    requires forall i :: 0 <= i < |o.blocks| ==> |o.blocks[i]| == BLOCK
    ensures EncoderOk(s.e)
  {
    var w := Wire(Header(o.group, |o.blocks|, o.n, o.r), p);
    var full := o.(blocks := o.blocks + [Framed(p)]);
    if |full.blocks| < full.n then Sending(full, [w])
    else Sending(full.(blocks := []), [w] + ParityPackets(full))
  }

  /** kcp_output_cb: send the payload, and the parities when it completes its group. */
  ghost function Output(e: Encoder, fecN: byte, fecR: byte, p: Payload): (s: Sending)
    requires EncoderOk(e) && |p| <= BLOCK - 2
    ensures EncoderOk(s.e)
  {
    if fecR == 0 then Sending(e, [Wire(Header(0, 0, 1, 0), p)]) else Added(Opened(e, fecN, fecR), p)
  }

  /** The 10 ms timer of the event loop: an open group is closed with the packets it has. */
  ghost function Expired(e: Encoder): (s: Sending)
    requires EncoderOk(e)
    ensures EncoderOk(s.e)
  {
    if e.r > 0 && e.blocks != [] then Sending(e.(blocks := []), ParityPackets(e)) else Sending(e, [])
  }

  // ---------------------------------------------------------------- receiver

  /** fec_group_t: the blocks received so far and their indices, in order of arrival. */
  datatype Slot = Slot(group: u16, lastActive: nat, indices: seq<nat>, blocks: seq<Block>, decoded: bool)

  predicate SlotOk(s: Slot)
  {
    && |s.indices| == |s.blocks|
    && (forall i :: 0 <= i < |s.indices| ==> s.indices[i] < MAX_N + MAX_R)
    && (forall i, j :: 0 <= i < j < |s.indices| ==> s.indices[i] != s.indices[j])
    && (forall i :: 0 <= i < |s.blocks| ==> |s.blocks[i]| == BLOCK)
  }

  predicate SlotsOk(slots: seq<Slot>)
  {
    |slots| == SLOTS && forall i :: 0 <= i < SLOTS ==> SlotOk(slots[i])
  }

  function Fresh(group: u16): (s: Slot)
    ensures SlotOk(s)
  {
    Slot(group, 0, [], [], false)
  }

  /** The first slot in use for the group, or -1. */
  function FindSlot(slots: seq<Slot>, group: u16, from: nat): (at: int)
    requires from <= |slots|
    ensures at == -1 || from <= at < |slots|
    decreases |slots| - from
  {
    if from == |slots| then -1
    else if slots[from].indices != [] && slots[from].group == group then from
    else FindSlot(slots, group, from + 1)
  }

  /** Where a new group goes: the first empty slot, or the one idle for longest. */
  function PickSlot(slots: seq<Slot>, from: nat, best: int, oldest: nat): (at: int)
    requires from <= |slots| && -1 <= best < |slots|
    ensures -1 <= at < |slots|
    decreases |slots| - from
  {
    if from == |slots| then best
    else if slots[from].indices == [] then from
    else if slots[from].lastActive < oldest then PickSlot(slots, from + 1, from, slots[from].lastActive)
    else PickSlot(slots, from + 1, best, oldest)
  }

  /** A payload handed to ikcp_input: as it came, or recovered. */
  datatype Up = Plain(payload: Payload) | Of(group: u16, index: nat, payload: Payload)

  datatype Receiving = Receiving(slots: seq<Slot>, ups: seq<Up>)

  /** The data blocks that explain the first n blocks of the slot. */
  ghost function Solution(s: Slot, n: nat): seq<Block>
    requires SlotOk(s) && n <= |s.indices| && n <= MAX_N
  {
    if exists d :: Explains(d, s.blocks[..n], s.indices[..n], n, BLOCK) then
      var d :| Explains(d, s.blocks[..n], s.indices[..n], n, BLOCK);
      d
    else []
  }

  function Unframe(group: u16, i: nat, b: Block): seq<Up>
    requires |b| == BLOCK
  {
    var ps := Unframed(b);
    if ps == [] then [] else [Of(group, i, ps[0])]
  }

  /** The payloads of the data blocks below k that did not arrive. */
  function RecoveredUpto(s: Slot, data: seq<Block>, k: nat): seq<Up>
    requires k <= |data| && forall i :: 0 <= i < k ==> |data[i]| == BLOCK
  {
    if k == 0 then []
    else RecoveredUpto(s, data, k - 1) + (if k - 1 in s.indices then [] else Unframe(s.group, k - 1, data[k - 1]))
  }

  lemma {:induction false} RecoveredSnoc(s: Slot, data: seq<Block>, k: nat)
    requires k < |data| && forall i :: 0 <= i <= k ==> |data[i]| == BLOCK
    ensures RecoveredUpto(s, data, k + 1)
         == RecoveredUpto(s, data, k) + (if k in s.indices then [] else Unframe(s.group, k, data[k]))
  {
    hide Unframe;
  }

  ghost function Recovered(s: Slot, n: nat): seq<Up>
    requires SlotOk(s) && n <= |s.indices| && n <= MAX_N
  {
    var d := Solution(s, n);
    if AreBlocks(d, n, BLOCK) then RecoveredUpto(s, d, n) else []
  }

  function Stored(h: Header, body: seq<byte>): (b: Block)
    requires h.index < h.n ==> |body| <= BLOCK - 2
    ensures |b| == BLOCK
  {
    if h.index < h.n then Framed(body) else Padded(body)
  }

  function Direct(h: Header, body: seq<byte>): seq<Up>
  {
    if h.index < h.n then [Of(h.group, h.index, body)] else []
  }

  /** What becomes of the slot a packet belongs to. */
  ghost function Take(s: Slot, w: Wire): (Slot, seq<Up>)
    requires SlotOk(s) && w.h.n <= MAX_N && w.h.r <= MAX_R
             && (w.h.index < w.h.n ==> |w.body| <= BLOCK - 2)
  {
    if w.h.index >= w.h.n + w.h.r || w.h.index in s.indices then (s, [])
    else
      var s1 := s.(indices := s.indices + [w.h.index], blocks := s.blocks + [Stored(w.h, w.body)]);
      if s1.decoded || |s1.indices| < w.h.n then (s1, Direct(w.h, w.body))
      else (s1.(decoded := true), Direct(w.h, w.body) + Recovered(s1.(decoded := true), w.h.n))
  }

  /** A data packet of a group fits its block; the handler copies it there unchecked. */
  predicate WireOk(w: Wire)
  {
    Protected(w.h) && w.h.index < w.h.n ==> |w.body| <= BLOCK - 2
  }

  /** The slot a packet of the group goes to, before it is looked at. */
  function Located(slots: seq<Slot>, group: u16, now: nat): (int, Slot)
  {
    var f := FindSlot(slots, group, 0);
    if f >= 0 then (f, slots[f].(lastActive := now))
    else (PickSlot(slots, 0, -1, NEVER), Fresh(group).(lastActive := now))
  }

  /** handle_incoming_fec_packet */
  ghost function Receive(slots: seq<Slot>, w: Wire, now: nat): (out: Receiving)
    requires SlotsOk(slots) && WireOk(w)
  {
    if w.h.n > MAX_N || w.h.r > MAX_R || w.h.n == 0 then Receiving(slots, [])
    else if w.h.r == 0 then Receiving(slots, [Plain(w.body)])
    else
      var (at, s) := Located(slots, w.h.group, now);
      if at < 0 then Receiving(slots, [])
      else
        var (s', ups) := Take(s, w);
        Receiving(slots[at := s'], ups)
  }

  // ---------------------------------------------------------------- loss statistics

  /** Packets expected and received since the last report, packets stored, and the loss rates reported to the peer. */
  datatype Stats = Stats(expected: nat, received: nat, packets: nat, lastReport: nat, reports: seq<byte>)

  /** The share of expected packets that did not come, in per cent. */
  function LossRate(expected: nat, received: nat): (rate: byte)
    requires expected > 0
    ensures rate <= 100
  {
    if expected > received then ShareOfHundred(expected - received, expected) else 0
  }

  function ShareOfHundred(part: nat, whole: nat): (share: byte)
    requires 0 < whole && part <= whole
    ensures share <= 100 && share * whole <= 100 * part < (share + 1) * whole
  {
    var q := part * 100 / whole;
    QuotientBounds(part * 100, whole, q);
    q
  }

  lemma {:induction false} QuotientBounds(a: nat, b: nat, q: nat)
    requires b > 0 && q == a / b && a <= 100 * b
    ensures q <= 100 && q * b <= a < (q + 1) * b
  {
    assert a == q * b + a % b;
  }

  predicate Protected(h: Header)
  {
    h.n <= MAX_N && h.r <= MAX_R && h.n > 0 && h.r > 0
  }

  /** The packet starts a slot of its own. */
  predicate OpensSlot(slots: seq<Slot>, w: Wire)
  {
    Protected(w.h) && FindSlot(slots, w.h.group, 0) < 0 && PickSlot(slots, 0, -1, NEVER) >= 0
  }

  /** The packet is new to its slot and is stored. */
  predicate StoresPacket(slots: seq<Slot>, w: Wire, now: nat)
  {
    && Protected(w.h) && Located(slots, w.h.group, now).0 >= 0
    && w.h.index < w.h.n + w.h.r && w.h.index !in Located(slots, w.h.group, now).1.indices
  }

  /** A report is due after 100 packets or a second, or when the clock was set back. */
  function Reported(st: Stats, wall: nat): Stats
  {
    if st.packets >= 100 || wall < st.lastReport || wall - st.lastReport >= 1000 then
      if st.expected > 0 then Stats(0, 0, 0, wall, st.reports + [LossRate(st.expected, st.received)])
      else st.(lastReport := wall)
    else st
  }

  /** What a packet does to the statistics. */
  function Tally(st: Stats, slots: seq<Slot>, w: Wire, now: nat, wall: nat): Stats
  {
    var st1 := if OpensSlot(slots, w) then st.(expected := st.expected + w.h.n as nat + w.h.r as nat) else st;
    if !StoresPacket(slots, w, now) then st1
    else Reported(st1.(received := st1.received + 1, packets := st1.packets + 1), wall)
  }

  lemma {:induction false} TakeKeepsOk(s: Slot, w: Wire)
    requires SlotOk(s) && Protected(w.h) && WireOk(w)
    ensures SlotOk(Take(s, w).0) && Take(s, w).0.group == s.group
  {
    hide Recovered, Stored, Direct;
  }

  lemma {:induction false} ReceiveKeepsOk(slots: seq<Slot>, w: Wire, now: nat)
    requires SlotsOk(slots) && WireOk(w)
    ensures SlotsOk(Receive(slots, w, now).slots)
  {
    hide Take, SlotOk, FindSlot, PickSlot;
    if !(w.h.n > MAX_N || w.h.r > MAX_R || w.h.n == 0) && w.h.r != 0 {
      var (at, s) := Located(slots, w.h.group, now);
      if at >= 0 {
        LocatedOk(slots, w.h.group, now);
        TakeKeepsOk(s, w);
      }
    }
  }

  lemma {:induction false} LocatedOk(slots: seq<Slot>, group: u16, now: nat)
    requires SlotsOk(slots)
    ensures SlotOk(Located(slots, group, now).1) && Located(slots, group, now).1.group == group
    ensures -1 <= Located(slots, group, now).0 < SLOTS
  {
    FindSpec(slots, group, 0);
    hide FindSlot, PickSlot;
  }

  lemma {:induction false} FindSpec(slots: seq<Slot>, group: u16, from: nat)
    requires from <= |slots|
    ensures var f := FindSlot(slots, group, from);
            && (f >= 0 ==> from <= f < |slots| && slots[f].indices != [] && slots[f].group == group)
            && (f < 0 ==> forall i :: from <= i < |slots| ==> slots[i].indices == [] || slots[i].group != group)
    decreases |slots| - from
  {
    if from < |slots| {
      FindSpec(slots, group, from + 1);
    }
  }

  /** Recovery of a slot that misses nothing hands up nothing, whatever the decoder computes. */
  lemma {:induction false} NothingUpto(s: Slot, data: seq<Block>, k: nat)
    requires k <= |data| && forall i :: 0 <= i < k ==> |data[i]| == BLOCK && i in s.indices
    ensures RecoveredUpto(s, data, k) == []
    decreases k
  {
    if k > 0 {
      NothingUpto(s, data, k - 1);
    }
  }

  lemma {:induction false} NothingMissing(s: Slot, n: nat)
    requires SlotOk(s) && n <= MAX_N && n <= |s.indices| && forall i :: 0 <= i < n ==> i in s.indices
    ensures Recovered(s, n) == []
  {
    hide Solution;
    var d := Solution(s, n);
    if AreBlocks(d, n, BLOCK) {
      NothingUpto(s, d, n);
    }
  }
}
