/** The encoder and the group table of a tunnel, updated in place by tunnel.c, proved against FecGroups. */
module FecTunnel {
  import opened Bytes
  import opened GfTables
  import opened Matrix
  import opened ErasureCode
  import opened FecCodec
  import opened FecGroups

  predicate Blocks(bs: seq<Block>)
  {
    forall i :: 0 <= i < |bs| ==> |bs[i]| == BLOCK
  }

  /** Fresh buffers, apart from each other and from the tables. */
  ghost predicate Apart(t: Tables, bufs: seq<array<byte>>)
  {
    && (forall i, j :: 0 <= i < j < |bufs| ==> bufs[i] != bufs[j])
    && (forall i :: 0 <= i < |bufs| ==> bufs[i] != t.exp && bufs[i] != t.log && bufs[i].Length == BLOCK)
  }

  /** Copies of blocks in buffers of their own. */
  method Load(t: Tables, blocks: seq<Block>) returns (bufs: seq<array<byte>>)
    requires Blocks(blocks)
    ensures |bufs| == |blocks| && Apart(t, bufs)
    ensures forall i :: 0 <= i < |bufs| ==> fresh(bufs[i]) && bufs[i][..] == blocks[i]
  {
    bufs := [];
    for i := 0 to |blocks|
      invariant |bufs| == i && Apart(t, bufs)
      invariant forall k :: 0 <= k < i ==> fresh(bufs[k]) && bufs[k][..] == blocks[k]
    {
      var b := blocks[i];
      var buf := new byte[BLOCK](k requires 0 <= k < BLOCK => b[k]);
      assert buf[..] == b;
      bufs := bufs + [buf];
    }
  }

  method Room(t: Tables, count: nat) returns (bufs: seq<array<byte>>)
    ensures |bufs| == count && Apart(t, bufs)
    ensures forall i :: 0 <= i < |bufs| ==> fresh(bufs[i])
  {
    bufs := [];
    for i := 0 to count
      invariant |bufs| == i && Apart(t, bufs)
      invariant forall k :: 0 <= k < i ==> fresh(bufs[k])
    {
      var buf := new byte[BLOCK](_ => 0);
      bufs := bufs + [buf];
    }
  }

  method ReadOut(bufs: seq<array<byte>>) returns (blocks: seq<Block>)
    requires forall i :: 0 <= i < |bufs| ==> bufs[i].Length == BLOCK
    ensures |blocks| == |bufs| && Blocks(blocks)
    ensures forall i :: 0 <= i < |bufs| ==> blocks[i] == bufs[i][..BLOCK]
  {
    blocks := [];
    for i := 0 to |bufs|
      invariant |blocks| == i && Blocks(blocks)
      invariant forall k :: 0 <= k < i ==> blocks[k] == bufs[k][..BLOCK]
    {
      blocks := blocks + [bufs[i][..BLOCK]];
    }
  }

  lemma {:induction false} LoadedContents(bufs: seq<array<byte>>, blocks: seq<Block>, n: nat)
    requires Blocks(blocks) && |bufs| == |blocks| && n <= |bufs|
    requires forall i :: 0 <= i < |bufs| ==> bufs[i].Length == BLOCK && bufs[i][..] == blocks[i]
    ensures LongEnough(bufs, n, BLOCK) && Contents(bufs, n, BLOCK) == blocks[..n]
  {
    forall i | 0 <= i < n
      ensures Contents(bufs, n, BLOCK)[i] == blocks[..n][i]
    {
      assert bufs[i][..BLOCK] == bufs[i][..];
    }
  }

  /** The parity blocks of a full group. */
  method ParityBlocks(t: Tables, blocks: seq<Block>, n: nat, r: nat) returns (parity: seq<Block>)
    requires t.Ready() && 1 <= n <= MAX_N && 1 <= r <= MAX_R && |blocks| == n && Blocks(blocks)
    ensures |parity| == r && forall i :: 0 <= i < r ==> parity[i] == Encoded(blocks, n, BLOCK, n + i)
  {
    hide Encoded;
    var data := Load(t, blocks);
    var room := Room(t, r);
    LoadedContents(data, blocks, n);
    assert blocks[..n] == blocks;
    var ret := FecEncode(t, data, n, r, BLOCK, room);
    parity := ReadOut(room);
  }

  /** Decoding the first n blocks received: with distinct indices it never fails and gives the only solution. */
  method DecodeBlocks(t: Tables, blocks: seq<Block>, indices: seq<nat>, n: nat, r: nat)
    returns (ret: int, data: seq<Block>)
    requires t.Ready() && 1 <= n <= MAX_N && n <= |blocks| == |indices| && Blocks(blocks)
    requires forall i :: 0 <= i < |indices| ==> indices[i] < MAX_N + MAX_R
    requires forall i, j :: 0 <= i < j < |indices| ==> indices[i] != indices[j]
    ensures ret == 0 && Explains(data, blocks[..n], indices[..n], n, BLOCK)
  {
    hide Explains, Nonsingular, Received;
    AnyRowsIndependent(indices[..n], n, MAX_N + MAX_R);
    var received := Load(t, blocks);
    var room := Room(t, n);
    LoadedContents(received, blocks, n);
    ret := FecDecode(t, received, indices, |indices|, n, r, BLOCK, room);
    data := ReadOut(room);
    assert data == Contents(room, n, BLOCK);
  }

  // ---------------------------------------------------------------- sending

  /** fec_encoder_t and the path from kcp_output_cb to the socket. */
  class GroupSender {
    const t: Tables
    var group: u16
    var n: byte
    var r: byte
    var count: nat
    var blocks: seq<Block>
    var wire: seq<Wire>

    ghost predicate Valid()
      reads this, t.exp, t.log
    {
      t.Ready() && count == |blocks| && EncoderOk(Enc())
    }

    ghost function Enc(): Encoder
      reads `group, `n, `r, `blocks
    {
      Encoder(group, n, r, blocks)
    }

    constructor (tables: Tables)
      requires tables.Ready()
      ensures Valid() && Enc() == Encoder(0, 0, 0, []) && wire == [] && t == tables
    {
      t := tables;
      group, n, r, count, blocks, wire := 0, 0, 0, 0, [], [];
    }

    /** send_parity_packets: over the blocks there are, whatever n the group was opened with. */
    method SendParity()
      requires t.Ready() && count == |blocks| <= MAX_N && r <= MAX_R && Blocks(blocks)
      modifies `count, `blocks, `wire
      ensures count == 0 && blocks == []
      ensures wire == old(wire) + if old(blocks) == [] then [] else ParityPackets(old(Enc()))
    {
      hide Encoded, Tables.Ready;
      var size := count;
      if r == 0 || size == 0 {
        assert blocks != [] ==> ParityPackets(Enc()) == [];
        assert wire == wire + [];
        count, blocks := 0, [];
        return;
      }
      ghost var e, before := Enc(), wire;
      var parity := ParityBlocks(t, blocks, size, r);
      for i := 0 to r
        invariant Enc() == e && wire == before + ParityPackets(e)[..i]
      {
        wire := wire + [Wire(Header(group, size + i, size, r), parity[i])];
      }
      count, blocks := 0, [];
    }

    /** The 10 ms timer found an open group. */
    method Expire()
      requires Valid()
      modifies `count, `blocks, `wire
      ensures Valid() && Enc() == Expired(old(Enc())).e && wire == old(wire) + Expired(old(Enc())).ws
    {
      hide Tables.Ready, ParityPackets;
      if r > 0 && count > 0 {
        SendParity();
      } else {
        assert wire == wire + [];
      }
    }

    /** Settings and number of a new group. */
    method OpenGroup(fecN: byte, fecR: byte)
      requires EncoderOk(Enc()) && count == |blocks|
      modifies `group, `n, `r
      ensures Enc() == Opened(old(Enc()), fecN, fecR)
    {
      if count == 0 {
        n := fecN;
        if n > MAX_N {
          n := MAX_N;
        }
        if n == 0 {
          n := 1;
        }
        r := fecR;
        if r > MAX_R {
          r := MAX_R;
        }
        group := (group + 1) % 0x1_0000;
      }
    }

    /** A protected payload joins the open group; the parities follow the one that fills it. */
    method AddToGroup(payload: Payload)
      requires t.Ready() && count == |blocks| < n <= MAX_N && r <= MAX_R && Blocks(blocks) && |payload| <= BLOCK - 2
      modifies `count, `blocks, `wire
      ensures count == |blocks| && Enc() == Added(old(Enc()), payload).e
              && wire == old(wire) + Added(old(Enc()), payload).ws
    {
      hide Encoded, Tables.Ready, ParityPackets, Framed;
      ghost var before := wire;
      blocks := blocks + [Framed(payload)];
      var w := Wire(Header(group, count, n, r), payload);
      wire := wire + [w];
      count := count + 1;
      if count >= n {
        ghost var full := Enc();
        SendParity();
        assert before + [w] + ParityPackets(full) == before + ([w] + ParityPackets(full));
      }
    }

    /** kcp_output_cb with a peer address. */
    method Output(fecN: byte, fecR: byte, payload: Payload)
      requires Valid() && |payload| <= BLOCK - 2
      modifies `group, `n, `r, `count, `blocks, `wire
      ensures Valid()
      ensures Enc() == FecGroups.Output(old(Enc()), fecN, fecR, payload).e
      ensures wire == old(wire) + FecGroups.Output(old(Enc()), fecN, fecR, payload).ws
    {
      hide Tables.Ready, Added, Opened;
      if fecR == 0 {
        wire := wire + [Wire(Header(0, 0, 1, 0), payload)];
        return;
      }
      OpenGroup(fecN, fecR);
      AddToGroup(payload);
    }
  }

  // ---------------------------------------------------------------- receiving

  predicate FirstEmpty(slots: seq<Slot>, at: int)
  {
    0 <= at < |slots| && slots[at].indices == [] && forall i :: 0 <= i < at ==> slots[i].indices != []
  }

  /** The slot of the earliest last activity, the first of them on ties. */
  predicate LongestIdle(slots: seq<Slot>, at: int)
  {
    && 0 <= at < |slots|
    && (forall i :: 0 <= i < |slots| ==> slots[at].lastActive <= slots[i].lastActive)
    && (forall i :: 0 <= i < at ==> slots[at].lastActive < slots[i].lastActive)
  }

  /** The state of the search for the longest idle slot before position from. */
  ghost predicate BestSoFar(slots: seq<Slot>, from: nat, best: int, oldest: nat)
    requires from <= |slots|
  {
    if from == 0 then best == -1 && oldest == NEVER
    else
      && 0 <= best < from && oldest == slots[best].lastActive
      && (forall i :: 0 <= i < from ==> oldest <= slots[i].lastActive)
      && (forall i :: 0 <= i < best ==> oldest < slots[i].lastActive)
  }

  lemma {:induction false} PickEmpty(slots: seq<Slot>, from: nat, best: int, oldest: nat)
    requires from <= |slots| && -1 <= best < |slots|
    requires forall i :: 0 <= i < from ==> slots[i].indices != []
    requires exists i :: from <= i < |slots| && slots[i].indices == []
    ensures FirstEmpty(slots, PickSlot(slots, from, best, oldest))
    decreases |slots| - from
  {
    if slots[from].indices != [] {
      if slots[from].lastActive < oldest {
        PickEmpty(slots, from + 1, from, slots[from].lastActive);
      } else {
        PickEmpty(slots, from + 1, best, oldest);
      }
    }
  }

  lemma {:induction false} PickIdle(slots: seq<Slot>, from: nat, best: int, oldest: nat)
    requires from <= |slots| && -1 <= best < |slots| && BestSoFar(slots, from, best, oldest) && slots != []
    requires forall i :: 0 <= i < |slots| ==> slots[i].indices != [] && slots[i].lastActive < NEVER
    ensures LongestIdle(slots, PickSlot(slots, from, best, oldest))
    decreases |slots| - from
  {
    if from < |slots| {
      if slots[from].lastActive < oldest {
        PickIdle(slots, from + 1, from, slots[from].lastActive);
      } else {
        PickIdle(slots, from + 1, best, oldest);
      }
    }
  }

  /** A new group takes the first empty slot, or else the one idle for longest. */
  lemma {:induction false} PickSpec(slots: seq<Slot>)
    ensures (exists i :: 0 <= i < |slots| && slots[i].indices == []) ==>
            FirstEmpty(slots, PickSlot(slots, 0, -1, NEVER))
    ensures (forall i :: 0 <= i < |slots| ==> slots[i].indices != [] && slots[i].lastActive < NEVER) && slots != [] ==>
              LongestIdle(slots, PickSlot(slots, 0, -1, NEVER))
  {
    if exists i :: 0 <= i < |slots| && slots[i].indices == [] {
      PickEmpty(slots, 0, -1, NEVER);
    } else if (forall i :: 0 <= i < |slots| ==> slots[i].lastActive < NEVER) && slots != [] {
      PickIdle(slots, 0, -1, NEVER);
    }
  }

  /** fec_decoder_t; what it passes to ikcp_input is collected in ups. */
  class GroupReceiver {
    const t: Tables
    var slots: seq<Slot>
    var ups: seq<Up>
    var stats: Stats

    ghost predicate Valid()
      reads `slots, t.exp, t.log
    {
      t.Ready() && SlotsOk(slots)
    }

    constructor (tables: Tables)
      requires tables.Ready()
      ensures Valid() && slots == [Fresh(0), Fresh(0), Fresh(0)] && ups == [] && t == tables
              && stats == Stats(0, 0, 0, 0, [])
    {
      stats := Stats(0, 0, 0, 0, []);
      t := tables;
      slots, ups := [Fresh(0), Fresh(0), Fresh(0)], [];
    }

    method Find(group: u16) returns (at: int)
      ensures at == FindSlot(slots, group, 0)
    {
      at := -1;
      var i := 0;
      while i < |slots|
        invariant 0 <= i <= |slots| && FindSlot(slots, group, 0) == FindSlot(slots, group, i)
      {
        if slots[i].indices != [] && slots[i].group == group {
          return i;
        }
        i := i + 1;
      }
    }

    method Pick() returns (at: int)
      ensures at == PickSlot(slots, 0, -1, NEVER)
      ensures (exists i :: 0 <= i < |slots| && slots[i].indices == []) ==> FirstEmpty(slots, at)
      ensures (forall i :: 0 <= i < |slots| ==> slots[i].indices != [] && slots[i].lastActive < NEVER)
              && slots != [] ==>
                LongestIdle(slots, at)
    {
      PickSpec(slots);
      at := -1;
      var oldest := NEVER;
      var i := 0;
      while i < |slots|
        invariant 0 <= i <= |slots| && -1 <= at < |slots|
        invariant PickSlot(slots, 0, -1, NEVER) == PickSlot(slots, i, at, oldest)
      {
        if slots[i].indices == [] {
          return i;
        }
        if slots[i].lastActive < oldest {
          oldest := slots[i].lastActive;
          at := i;
        }
        i := i + 1;
      }
    }

    /** The decoding step: hand up the data payloads that did not arrive. */
    method Recover(s: Slot, n: nat, r: nat)
      requires t.Ready() && SlotOk(s) && 1 <= n <= MAX_N && n <= |s.indices|
      modifies `ups
      ensures ups == old(ups) + FecGroups.Recovered(s, n)
    {
      hide Explains, Tables.Ready, Unframe, Received, Nonsingular;
      var missing := 0;
      for i := 0 to n
        invariant missing >= 0 && (missing == 0 ==> forall k :: 0 <= k < i ==> k in s.indices)
      {
        if i !in s.indices {
          missing := missing + 1;
        }
      }
      if missing > 0 {
        var ret, data := DecodeBlocks(t, s.blocks, s.indices, n, r);
        OnlySolution(s, n, data);
        ghost var before := ups;
        for i := 0 to n
          invariant ups == before + RecoveredUpto(s, data, i)
        {
          if i !in s.indices {
            ups := ups + Unframe(s.group, i, data[i]);
          }
          assert RecoveredUpto(s, data, i + 1)
              == RecoveredUpto(s, data, i) + (if i in s.indices then [] else Unframe(s.group, i, data[i]));
        }
      } else {
        NothingMissing(s, n);
      }
    }

    /** The slot of the packet's group, a new one being counted as expected; -1 when none can be had. */
    method Locate(w: Wire, now: nat) returns (at: int, s: Slot)
      requires Valid() && Protected(w.h)
      modifies `stats
      ensures at == Located(slots, w.h.group, now).0 && (at >= 0 ==> s == Located(slots, w.h.group, now).1)
      ensures stats == if !OpensSlot(slots, w) then old(stats)
                       else old(stats).(expected := old(stats).expected + w.h.n as nat + w.h.r as nat)
    {
      hide Tables.Ready, SlotsOk, FindSlot, PickSlot;
      at := Find(w.h.group);
      s := Fresh(w.h.group);
      if at >= 0 {
        s := slots[at];
      } else {
        at := Pick();
        if at == -1 {
          return;
        }
        stats := stats.(expected := stats.expected + w.h.n as nat + w.h.r as nat);
      }
      s := s.(lastActive := now);
    }

    /** Count a stored packet and report the loss rate when that is due. */
    method CountPacket(wall: nat)
      modifies `stats
      ensures stats
              == Reported(old(stats).(received := old(stats).received + 1, packets := old(stats).packets + 1), wall)
    {
      stats := stats.(received := stats.received + 1, packets := stats.packets + 1);
      if stats.packets >= 100 || wall < stats.lastReport || wall - stats.lastReport >= 1000 {
        if stats.expected > 0 {
          var rate := LossRate(stats.expected, stats.received);
          stats := Stats(0, 0, 0, wall, stats.reports + [rate]);
        } else {
          stats := stats.(lastReport := wall);
        }
      }
    }

    /** handle_incoming_fec_packet */
    method Receive(w: Wire, now: nat, wall: nat)
      requires Valid() && WireOk(w)
      modifies `slots, `ups, `stats
      ensures Valid()
      ensures slots == FecGroups.Receive(old(slots), w, now).slots
      ensures ups == old(ups) + FecGroups.Receive(old(slots), w, now).ups
      ensures stats == Tally(old(stats), old(slots), w, now, wall)
    {
      ghost var was := slots;
      ReceiveKeepsOk(slots, w, now);
      hide Tables.Ready, Stored, Recovered, SlotOk, FindSlot, PickSlot, Take, Reported;
      if w.h.n > MAX_N || w.h.r > MAX_R || w.h.n == 0 {
        return;
      }
      if w.h.r == 0 {
        ups := ups + [Plain(w.body)];
        return;
      }
      LocatedOk(slots, w.h.group, now);
      var at, s := Locate(w, now);
      if at == -1 {
        return;
      }
      var stored := Fill(at, s, w);
      if stored {
        CountPacket(wall);
      }
    }

    /** The part of the handler that works on one slot. */
    method Fill(at: nat, s: Slot, w: Wire) returns (stored: bool)
      requires t.Ready() && SlotOk(s) && WireOk(w) && at < |slots|
      requires Protected(w.h)
      modifies `slots, `ups
      ensures slots == old(slots)[at := FecGroups.Take(s, w).0]
      ensures ups == old(ups) + FecGroups.Take(s, w).1
      ensures stored <==> w.h.index < w.h.n + w.h.r && w.h.index !in s.indices
    {
      hide Tables.Ready, Stored, FecGroups.Recovered;
      if w.h.index >= w.h.n + w.h.r || w.h.index in s.indices {
        slots := slots[at := s];
        return false;
      }
      StoredOk(s, w);
      var s1 := s.(indices := s.indices + [w.h.index], blocks := s.blocks + [Stored(w.h, w.body)]);
      ghost var before := ups;
      if w.h.index < w.h.n {
        ups := ups + [Of(w.h.group, w.h.index, w.body)];
      }
      assert ups == before + Direct(w.h, w.body);
      if !s1.decoded && |s1.indices| >= w.h.n {
        s1 := s1.(decoded := true);
        Recover(s1, w.h.n, w.h.r);
        assert before + Direct(w.h, w.body) + FecGroups.Recovered(s1, w.h.n)
               == before + (Direct(w.h, w.body) + FecGroups.Recovered(s1, w.h.n));
      }
      slots := slots[at := s1];
      stored := true;
    }
  }

  lemma {:induction false} StoredOk(s: Slot, w: Wire)
    requires SlotOk(s) && WireOk(w) && Protected(w.h) && w.h.index < w.h.n + w.h.r && w.h.index !in s.indices
    ensures SlotOk(s.(indices := s.indices + [w.h.index], blocks := s.blocks + [Stored(w.h, w.body)]))
    ensures SlotOk(s.(indices := s.indices + [w.h.index], blocks := s.blocks + [Stored(w.h, w.body)], decoded := true))
  {
    hide Stored;
  }

  /** Distinct indices leave one explanation, so the decoder's answer is the specified one. */
  lemma {:induction false} OnlySolution(s: Slot, n: nat, data: seq<Block>)
    requires SlotOk(s) && 1 <= n <= MAX_N && n <= |s.indices|
    requires Explains(data, s.blocks[..n], s.indices[..n], n, BLOCK)
    ensures Solution(s, n) == data && AreBlocks(data, n, BLOCK)
  {
    FirstGood(s, n);
    hide Received, Nonsingular, Explains, SlotOk, GoodIndices;
    AnyRowsIndependent(s.indices[..n], n, MAX_N + MAX_R);
    var d := Solution(s, n);
    assert Explains(d, s.blocks[..n], s.indices[..n], n, BLOCK);
    ExplanationUnique(d, data, s.blocks[..n], s.indices[..n], n, BLOCK);
    ExplainedAreBlocks(data, s.blocks[..n], s.indices[..n], n);
  }

  lemma {:induction false} FirstGood(s: Slot, n: nat)
    requires SlotOk(s) && n <= MAX_N && n <= |s.indices|
    ensures GoodIndices(s.indices[..n], n, MAX_N + MAX_R) && AreBlocks(s.blocks[..n], n, BLOCK)
    ensures forall i :: 0 <= i < n ==> s.indices[..n][i] < 256
  {
  }

  lemma {:induction false} ExplainedAreBlocks(data: seq<Block>, received: seq<Block>, indices: seq<nat>, n: nat)
    requires AreBlocks(received, n, BLOCK) && |indices| == n <= 256 && forall i :: 0 <= i < n ==> indices[i] < 256
    requires Explains(data, received, indices, n, BLOCK)
    ensures AreBlocks(data, n, BLOCK)
  {
    hide Received;
  }
}
