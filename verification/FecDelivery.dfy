/**
 What the group tracker guarantees over whole runs: only genuine payloads, and all of a group once n of
 its packets are in.
 */
module FecDelivery {
  import opened Bytes
  import opened Counting
  import opened ErasureCode
  import opened FecGroups

  // ---------------------------------------------------------------- what was sent

  /**
   n is what the headers of its data packets say, size the number of data packets its parities are
   computed from: n again, unless the timer closed the group early.
   */
  datatype Group = Group(n: nat, size: nat, r: nat, payloads: seq<Payload>)

  /** Everything the sender framed, by group number, and what it sent without protection. */
  datatype Log = Log(groups: map<u16, Group>, plain: set<Payload>)

  predicate Framable(ps: seq<Payload>)
  {
    forall i :: 0 <= i < |ps| ==> 1 <= |ps[i]| <= MTU
  }

  predicate GroupOk(g: Group)
  {
    1 <= g.size <= g.n <= MAX_N && 1 <= g.r <= MAX_R && |g.payloads| <= g.size && Framable(g.payloads)
  }

  ghost predicate LogOk(log: Log)
  {
    forall id :: id in log.groups ==> GroupOk(log.groups[id])
  }

  /** The block of index i of a group, once the sender could compute it. */
  ghost predicate IsBlock(g: Group, i: nat, b: Block)
    requires GroupOk(g)
  {
    && i < g.size + g.r && |b| == BLOCK
    && if i < g.size then i < |g.payloads| && b == Framed(g.payloads[i])
       else |g.payloads| == g.size && b == Encoded(Frames(g.payloads), g.size, BLOCK, i)
  }

  /** A packet of a group as the sender emits it. */
  ghost predicate IsPacket(g: Group, w: Wire)
    requires GroupOk(g)
  {
    && w.h.r == g.r && w.h.index < g.size + g.r
    && if w.h.index < g.size then w.h.n == g.n && w.h.index < |g.payloads| && w.body == g.payloads[w.h.index]
       else w.h.n == g.size && IsBlock(g, w.h.index, w.body)
  }

  ghost predicate Authentic(log: Log, w: Wire)
    requires LogOk(log)
  {
    if w.h.r == 0 then w.h.n == 1 && w.body in log.plain && |w.body| <= MTU
    else w.h.group in log.groups && IsPacket(log.groups[w.h.group], w)
  }

  /** Handed up exactly as framed. */
  ghost predicate UpTrue(log: Log, up: Up)
  {
    match up
    case Plain(p) => p in log.plain
    case Of(id, i, p) => id in log.groups && i < |log.groups[id].payloads| && p == log.groups[id].payloads[i]
  }

  ghost predicate AllTrue(log: Log, ups: seq<Up>)
  {
    forall i :: 0 <= i < |ups| ==> UpTrue(log, ups[i])
  }

  /**
   The data packets of the group, whose headers still carry n, can never bring a slot to n packets
   while something is missing.
   */
  predicate NeverEarly(n: nat, size: nat, r: nat)
  {
    size == n || size + r <= n || 2 * size <= n
  }

  /**
   The sizes at which the timer may close a group.  At two packets of an announced three recovery may
   run with the wrong size, but all it can miss is a third block, which comes out as zeros.
   */
  predicate SoundSize(n: nat, size: nat, r: nat)
  {
    NeverEarly(n, size, r) || (n == 3 && size == 2)
  }

  predicate LogSound(log: Log)
  {
    forall id :: id in log.groups ==> SoundSize(log.groups[id].n, log.groups[id].size, log.groups[id].r)
  }

  // ---------------------------------------------------------------- one slot

  ghost predicate BlocksTrue(g: Group, s: Slot)
    requires GroupOk(g)
  {
    SlotOk(s) && forall k :: 0 <= k < |s.indices| ==> IsBlock(g, s.indices[k], s.blocks[k])
  }

  /** Before decoding a slot has fewer parities than the group has data, or recovery would have run on one of them. */
  ghost predicate SlotTrue(g: Group, s: Slot)
    requires GroupOk(g)
  {
    && BlocksTrue(g, s)
    && (s.decoded ==> |s.indices| >= g.size)
    && (!s.decoded ==> CountFrom(s.indices, g.size) < g.size && (g.size == g.n ==> |s.indices| < g.n))
  }

  /** Payload i of the slot's group has been handed up. */
  predicate Served(g: Group, id: u16, i: nat, ups: seq<Up>)
  {
    i < |g.payloads| && Of(id, i, g.payloads[i]) in ups
  }

  ghost predicate SlotServed(g: Group, s: Slot, ups: seq<Up>)
  {
    && (forall i: nat :: i in s.indices && i < g.size ==> Served(g, s.group, i, ups))
    && (s.decoded ==> forall i: nat :: i < g.size ==> Served(g, s.group, i, ups))
  }

  /** size blocks of a group are enough for its data to be complete at the sender. */
  lemma {:induction false} EnoughMeansFull(g: Group, s: Slot)
    requires GroupOk(g) && BlocksTrue(g, s) && |s.indices| >= g.size
    ensures |g.payloads| == g.size
  {
    if forall k :: 0 <= k < |s.indices| ==> s.indices[k] < g.size {
      forall k | 0 <= k < |s.indices|
        ensures s.indices[k] < |g.payloads|
      {
        assert IsBlock(g, s.indices[k], s.blocks[k]);
      }
      Pigeonhole(s.indices, |g.payloads|);
    } else {
      var k :| 0 <= k < |s.indices| && s.indices[k] >= g.size;
      assert IsBlock(g, s.indices[k], s.blocks[k]);
    }
  }

  lemma {:induction false} BlocksAreGenuine(g: Group, s: Slot)
    requires GroupOk(g) && BlocksTrue(g, s) && |s.indices| >= g.size == |g.payloads|
    ensures GoodIndices(s.indices[..g.size], g.size, g.size + g.r)
    ensures Genuine(Frames(g.payloads), s.blocks[..g.size], s.indices[..g.size], g.size, BLOCK)
  {
    hide Encoded;
    var data := Frames(g.payloads);
    forall i | 0 <= i < g.size
      ensures s.indices[..g.size][i] < g.size + g.r
      ensures s.blocks[..g.size][i] == Encoded(data, g.size, BLOCK, s.indices[..g.size][i])
    {
      assert IsBlock(g, s.indices[i], s.blocks[i]);
      if s.indices[i] < g.size {
        EncodedData(data, g.size, BLOCK, s.indices[i]);
      }
    }
  }

  /** Decoding size genuine blocks gives back the framed payloads. */
  lemma {:induction false} SolutionIsData(g: Group, s: Slot)
    requires GroupOk(g) && BlocksTrue(g, s) && |s.indices| >= g.size == |g.payloads|
    ensures Solution(s, g.size) == Frames(g.payloads)
  {
    BlocksAreGenuine(g, s);
    hide Encoded, Explains, Frames, BlocksTrue;
    var data := Frames(g.payloads);
    GenuineExplains(data, s.blocks[..g.size], s.indices[..g.size], g.size, BLOCK);
    var other := Solution(s, g.size);
    assert Explains(other, s.blocks[..g.size], s.indices[..g.size], g.size, BLOCK);
    AnyNBlocksDetermineData(data, other, s.blocks[..g.size], s.indices[..g.size], g.size, g.r, BLOCK);
  }

  /** A payload of the group whose own packet did not arrive. */
  predicate IsMissing(g: Group, s: Slot, up: Up)
  {
    up.Of? && up.group == s.group && up.index < |g.payloads| && up.index !in s.indices
        && up.payload == g.payloads[up.index]
  }

  predicate AllMissing(g: Group, s: Slot, ups: seq<Up>)
  {
    forall j :: 0 <= j < |ups| ==> IsMissing(g, s, ups[j])
  }

  lemma {:induction false} RecoveredOne(g: Group, s: Slot, ups: seq<Up>, up: Up)
    requires up.Of? && up.group == s.group && up.index < |g.payloads| && up.payload == g.payloads[up.index]
    requires AllMissing(g, s, ups) && forall i: nat :: i < up.index && i !in s.indices ==> Served(g, s.group, i, ups)
    ensures var more := ups + (if up.index in s.indices then [] else [up]);
            && AllMissing(g, s, more)
            && (forall i: nat :: i < up.index + 1 && i !in s.indices ==> Served(g, s.group, i, more))
  {
    if up.index !in s.indices {
      assert (ups + [up])[|ups|] == up;
    } else {
      assert ups + [] == ups;
    }
  }

  /** Recovery hands up exactly the payloads whose packets did not arrive. */
  lemma {:induction false} RecoveredSpec(g: Group, s: Slot, k: nat)
    requires GroupOk(g) && k <= |g.payloads|
    ensures var ups := RecoveredUpto(s, Frames(g.payloads), k);
            && AllMissing(g, s, ups)
            && (forall i: nat :: i < k && i !in s.indices ==> Served(g, s.group, i, ups))
    decreases k
  {
    if k > 0 {
      RecoveredSpec(g, s, k - 1);
      var i := k - 1;
      UnframeFramed(g.payloads[i]);
      var frames := Frames(g.payloads);
      RecoveredSnoc(s, frames, i);
      hide Framed, Unframed, RecoveredUpto;
      var up := Of(s.group, i, g.payloads[i]);
      assert Unframe(s.group, i, frames[i]) == [up];
      hide Unframe, Frames;
      RecoveredOne(g, s, RecoveredUpto(s, frames, i), up);
    }
  }

  // ---------------------------------------------------------------- one arrival

  lemma {:induction false} ServedMore(g: Group, id: u16, i: nat, ups: seq<Up>, more: seq<Up>)
    requires Served(g, id, i, ups) || Served(g, id, i, more)
    ensures Served(g, id, i, ups + more)
  {
  }

  /** Recovery of a slot of genuine blocks hands up just what did not arrive. */
  lemma {:induction false} RecoveredAll(log: Log, s: Slot)
    requires LogOk(log) && s.group in log.groups
    requires BlocksTrue(log.groups[s.group], s) && |s.indices| >= log.groups[s.group].size
    ensures var g := log.groups[s.group];
            && (forall i: nat :: i < g.size && i !in s.indices ==> Served(g, s.group, i, Recovered(s, g.size)))
            && AllTrue(log, Recovered(s, g.size))
  {
    var g := log.groups[s.group];
    EnoughMeansFull(g, s);
    SolutionIsData(g, s);
    RecoveredSpec(g, s, g.size);
    hide BlocksTrue, Solution, Framed;
    MissingTrue(log, s, Recovered(s, g.size));
  }

  lemma {:induction false} MissingTrue(log: Log, s: Slot, ups: seq<Up>)
    requires s.group in log.groups && AllMissing(log.groups[s.group], s, ups)
    ensures AllTrue(log, ups)
  {
    forall j | 0 <= j < |ups|
      ensures UpTrue(log, ups[j])
    {
      assert IsMissing(log.groups[s.group], s, ups[j]);
    }
  }

  function StoredIn(s: Slot, w: Wire): Slot
    requires w.h.index < w.h.n ==> |w.body| <= BLOCK - 2
  {
    s.(indices := s.indices + [w.h.index], blocks := s.blocks + [Stored(w.h, w.body)])
  }

  /** A genuine new packet keeps the blocks true. */
  lemma {:induction false} StoreKeepsTrue(g: Group, s: Slot, w: Wire)
    requires GroupOk(g) && BlocksTrue(g, s) && IsPacket(g, w) && w.h.index !in s.indices
    ensures WireOk(w) && BlocksTrue(g, StoredIn(s, w))
    ensures CountFrom(StoredIn(s, w).indices, g.size)
         == CountFrom(s.indices, g.size) + (if w.h.index >= g.size then 1 else 0)
  {
    hide Encoded, Framed;
    if w.h.index >= g.size {
      assert Padded(w.body) == w.body;
    }
    assert IsBlock(g, w.h.index, Stored(w.h, w.body));
    assert StoredIn(s, w).indices[..|s.indices|] == s.indices;
    hide IsBlock, Stored;
  }

  lemma {:induction false} TakeNew(s: Slot, w: Wire)
    requires SlotOk(s) && Protected(w.h) && WireOk(w) && SlotOk(StoredIn(s, w))
    requires w.h.index < w.h.n + w.h.r && w.h.index !in s.indices
    ensures var s1 := StoredIn(s, w);
            Take(s, w) == if s1.decoded || |s1.indices| < w.h.n then (s1, Direct(w.h, w.body))
                          else (s1.(decoded := true), Direct(w.h, w.body) + Recovered(s1.(decoded := true), w.h.n))
  {
  }

  /** The tracked group of the slot is consistent with what was sent and handed up. */
  ghost predicate Kept(log: Log, s: Slot, ups: seq<Up>)
    requires LogOk(log)
  {
    s.group in log.groups && SlotTrue(log.groups[s.group], s) && SlotServed(log.groups[s.group], s, ups)
  }

  lemma {:induction false} DirectServes(log: Log, s: Slot, w: Wire, ups: seq<Up>)
    requires LogOk(log) && Authentic(log, w) && w.h.r != 0 && w.h.group == s.group
    requires forall i: nat :: i in s.indices && i < log.groups[s.group].size ==>
             Served(log.groups[s.group], s.group, i, ups)
    ensures var g, now := log.groups[s.group], ups + Direct(w.h, w.body);
            && AllTrue(log, Direct(w.h, w.body))
            && forall i: nat :: i in s.indices + [w.h.index] && i < g.size ==> Served(g, s.group, i, now)
  {
    var g := log.groups[s.group];
    hide Encoded, GroupOk;
    forall i: nat | i in s.indices + [w.h.index] && i < g.size
      ensures Served(g, s.group, i, ups + Direct(w.h, w.body))
    {
      if i == w.h.index {
        assert Served(g, s.group, i, Direct(w.h, w.body));
      }
      ServedMore(g, s.group, i, ups, Direct(w.h, w.body));
    }
  }

  /** One genuine packet taken by its slot. */
  lemma {:induction false} TakeKeeps(log: Log, s: Slot, w: Wire, ups: seq<Up>)
    requires LogOk(log) && LogSound(log) && Authentic(log, w) && w.h.r != 0 && w.h.group == s.group && Kept(log, s, ups)
    ensures WireOk(w)
    ensures var (s', more) := Take(s, w);
            && s'.group == s.group && Kept(log, s', ups + more) && AllTrue(log, more)
            && w.h.index in s'.indices && forall x :: x in s.indices ==> x in s'.indices
  {
    var g := log.groups[s.group];
    hide Encoded, IsBlock, SlotOk;
    if w.h.index in s.indices {
      assert WireOk(w);
      assert ups + [] == ups;
    } else {
      StoreKeepsTrue(g, s, w);
      hide Take, Stored, Direct, SlotTrue, SlotServed;
      TakeNewServes(log, s, w, ups);
    }
  }

  lemma {:induction false} ServedStays(g: Group, s: Slot, ups: seq<Up>, more: seq<Up>)
    requires SlotServed(g, s, ups)
    ensures SlotServed(g, s, ups + more)
  {
    forall i: nat | Served(g, s.group, i, ups)
      ensures Served(g, s.group, i, ups + more)
    {
      ServedMore(g, s.group, i, ups, more);
    }
    hide Served;
  }

  /** Recovery runs with the size of the group, or finds nothing missing. */
  lemma {:induction false} RightSize(g: Group, s: Slot, w: Wire)
    requires GroupOk(g) && NeverEarly(g.n, g.size, g.r) && SlotTrue(g, s) && !s.decoded
    requires IsPacket(g, w) && w.h.index !in s.indices && WireOk(w) && |s.indices| + 1 >= w.h.n
    ensures w.h.n == g.size || forall i :: 0 <= i < w.h.n ==> i in StoredIn(s, w).indices
  {
    StoreKeepsTrue(g, s, w);
    var s1 := StoredIn(s, w);
    if w.h.n != g.size {
      CountBelow(s1.indices, g.size);
      forall k | 0 <= k < |s1.indices|
        ensures s1.indices[k] < g.size + g.r
      {
        assert IsBlock(g, s1.indices[k], s1.blocks[k]);
      }
      Pigeonhole(s1.indices, g.size + g.r);
      forall i | 0 <= i < w.h.n
        ensures i in s1.indices
      {
        PigeonholeFull(s1.indices, g.size + g.r, i);
      }
    }
  }

  // ---------------------------------------------------------------- two packets of three

  /** Decoding both data packets and a parity of two as if there were three. */
  lemma {:induction false} ThirdIsZero(g: Group, s: Slot)
    requires GroupOk(g) && g.size == 2 && BlocksTrue(g, s) && |s.indices| == 3
    requires 0 in s.indices && 1 in s.indices && 2 !in s.indices
    ensures |g.payloads| == 2 && Solution(s, 3) == Frames(g.payloads) + [ZeroBlock(BLOCK)]
  {
    EnoughMeansFull(g, s);
    var data := Frames(g.payloads) + [ZeroBlock(BLOCK)];
    assert s.blocks[..3] == s.blocks && s.indices[..3] == s.indices;
    hide Encoded, Explains, ZeroBlock, Framed;
    forall k | 0 <= k < 3
      ensures s.indices[k] < 3 + g.r && s.blocks[k] == Encoded(data, 3, BLOCK, s.indices[k])
    {
      assert IsBlock(g, s.indices[k], s.blocks[k]);
      if s.indices[k] < 2 {
        EncodedData(data, 3, BLOCK, s.indices[k]);
      } else {
        ZeroExtended(Frames(g.payloads), 2, BLOCK, s.indices[k]);
      }
    }
    hide BlocksTrue, IsBlock;
    GenuineExplains(data, s.blocks, s.indices, 3, BLOCK);
    var other := Solution(s, 3);
    assert Explains(other, s.blocks, s.indices, 3, BLOCK);
    AnyNBlocksDetermineData(data, other, s.blocks, s.indices, 3, g.r, BLOCK);
  }

  lemma {:induction false} ZerosAreNothing(s: Slot, data: seq<Block>)
    requires |data| == 3 && (forall i :: 0 <= i < 3 ==> |data[i]| == BLOCK) && data[2] == ZeroBlock(BLOCK)
    requires 0 in s.indices && 1 in s.indices && 2 !in s.indices
    ensures RecoveredUpto(s, data, 3) == []
  {
    assert Unframe(s.group, 2, data[2]) == [];
    assert RecoveredUpto(s, data, 0) == [];
    assert RecoveredUpto(s, data, 1) == [];
    assert RecoveredUpto(s, data, 2) == [];
  }

  lemma {:induction false} ThirdIsNothing(g: Group, s: Slot)
    requires GroupOk(g) && g.size == 2 && BlocksTrue(g, s) && |s.indices| == 3
    requires 0 in s.indices && 1 in s.indices
    ensures Recovered(s, 3) == []
  {
    if 2 in s.indices {
      NothingMissing(s, 3);
    } else {
      ThirdIsZero(g, s);
      hide Solution, RecoveredUpto, BlocksTrue;
      ZerosAreNothing(s, Solution(s, 3));
    }
  }

  /** A data packet that brings such a slot to three is the second of them. */
  lemma {:induction false} BothArrived(g: Group, s: Slot, w: Wire)
    requires GroupOk(g) && g.size == 2 && g.n == 3 && SlotTrue(g, s) && !s.decoded
    requires IsPacket(g, w) && w.h.index !in s.indices && |s.indices| + 1 >= w.h.n && w.h.n != 2
    ensures WireOk(w) && BlocksTrue(g, StoredIn(s, w))
    ensures var ids := StoredIn(s, w).indices; |ids| == 3 && 0 in ids && 1 in ids
  {
    StoreKeepsTrue(g, s, w);
    CountBelow(s.indices, 2);
    hide Encoded, IsBlock, Stored;
    var below := Smaller(s.indices, 2);
    assert w.h.index < 2 && w.h.index !in below;
    assert Distinct(below + [w.h.index]);
    var ids := StoredIn(s, w).indices;
    assert |below| == 1 || |below| == 0 || |below| >= 2;
    if |below| >= 2 {
      PigeonholeFull(below, 2, w.h.index);
    }
    PigeonholeFull(below + [w.h.index], 2, 0);
    PigeonholeFull(below + [w.h.index], 2, 1);
  }

  /** What recovery does whenever a genuine packet starts it. */
  lemma {:induction false} RecoveryIsRight(g: Group, s: Slot, w: Wire)
    requires GroupOk(g) && SoundSize(g.n, g.size, g.r) && SlotTrue(g, s) && !s.decoded
    requires IsPacket(g, w) && w.h.index !in s.indices && WireOk(w) && |s.indices| + 1 >= w.h.n
    requires SlotOk(StoredIn(s, w)) && w.h.n <= MAX_N
    ensures var s' := StoredIn(s, w).(decoded := true);
            w.h.n == g.size || (Recovered(s', w.h.n) == [] && forall i: nat :: i < g.size ==> i in s'.indices)
  {
    var s1 := StoredIn(s, w);
    var s' := s1.(decoded := true);
    hide Stored, Encoded, Recovered, IsBlock;
    if w.h.n == g.size {
    } else if NeverEarly(g.n, g.size, g.r) {
      RightSize(g, s, w);
      PacketShape(g, w);
      NothingMissing(s', w.h.n);
    } else {
      BothArrived(g, s, w);
      SameBlocks(g, s1, s');
      ThirdIsNothing(g, s');
      TwoBelow(s'.indices);
    }
  }

  lemma {:induction false} TwoBelow(ids: seq<nat>)
    requires 0 in ids && 1 in ids
    ensures forall i: nat :: i < 2 ==> i in ids
  {
  }

  /** A packet that does not start recovery. */
  lemma {:induction false} StoresOnly(g: Group, s: Slot, w: Wire)
    requires GroupOk(g) && SlotTrue(g, s) && IsPacket(g, w) && w.h.index !in s.indices && WireOk(w)
    requires s.decoded || |s.indices| + 1 < w.h.n
    ensures SlotTrue(g, StoredIn(s, w))
  {
    StoreKeepsTrue(g, s, w);
    hide BlocksTrue, Stored, IsBlock;
  }

  lemma {:induction false} PacketShape(g: Group, w: Wire)
    requires GroupOk(g) && IsPacket(g, w)
    ensures g.size <= w.h.n <= MAX_N && w.h.r <= MAX_R && w.h.index < w.h.n + w.h.r
  {
    hide Encoded;
  }

  lemma {:induction false} TakeNewServes(log: Log, s: Slot, w: Wire, ups: seq<Up>)
    requires LogOk(log) && LogSound(log) && Authentic(log, w) && w.h.r != 0 && w.h.group == s.group && Kept(log, s, ups)
    requires w.h.index !in s.indices && WireOk(w)
    ensures var (s', more) := Take(s, w);
            && s'.group == s.group && Kept(log, s', ups + more) && AllTrue(log, more)
            && s'.indices == s.indices + [w.h.index]
  {
    var g := log.groups[s.group];
    var s1 := StoredIn(s, w);
    var direct := Direct(w.h, w.body);
    hide Encoded, SlotOk, IsBlock, Framable, Stored, Direct;
    PacketShape(g, w);
    StoreKeepsTrue(g, s, w);
    TakeNew(s, w);
    DirectServes(log, s, w, ups);
    ServedStays(g, s, ups, direct);
    hide Take, IsPacket, BlocksTrue, Authentic;
    if s1.decoded || |s1.indices| < w.h.n {
      StoresOnly(g, s, w);
      hide SlotTrue, AllTrue;
    } else {
      var s2 := s1.(decoded := true);
      RecoveryIsRight(g, s, w);
      SameBlocks(g, s1, s2);
      hide SlotTrue, AllTrue, SlotServed;
      Recovers(log, s2, w.h.n, ups + direct);
      assert ups + (direct + Recovered(s2, w.h.n)) == ups + direct + Recovered(s2, w.h.n);
      AllTrueBoth(log, direct, Recovered(s2, w.h.n));
    }
  }

  lemma {:induction false} SameBlocks(g: Group, s: Slot, s': Slot)
    requires GroupOk(g) && BlocksTrue(g, s) && s' == s.(decoded := true)
    ensures BlocksTrue(g, s')
  {
    hide IsBlock;
  }

  lemma {:induction false} AllTrueBoth(log: Log, a: seq<Up>, b: seq<Up>)
    requires AllTrue(log, a) && AllTrue(log, b)
    ensures AllTrue(log, a + b)
  {
    hide UpTrue;
  }

  lemma {:induction false} Recovers(log: Log, s: Slot, n: nat, ups: seq<Up>)
    requires LogOk(log) && s.group in log.groups && s.decoded && n <= MAX_N && n <= |s.indices|
    requires BlocksTrue(log.groups[s.group], s) && n >= log.groups[s.group].size
    requires n == log.groups[s.group].size
          || (Recovered(s, n) == [] && forall i: nat :: i < log.groups[s.group].size ==> i in s.indices)
    requires forall i: nat :: i in s.indices && i < log.groups[s.group].size ==>
             Served(log.groups[s.group], s.group, i, ups)
    ensures SlotTrue(log.groups[s.group], s) && SlotServed(log.groups[s.group], s, ups + Recovered(s, n))
    ensures AllTrue(log, Recovered(s, n))
  {
    var g := log.groups[s.group];
    hide IsBlock, Framable;
    if n == g.size {
      RecoveredAll(log, s);
    }
    hide Recovered, SlotOk;
    FinishServes(log, s, ups, Recovered(s, n));
  }

  /** What arrived and what was recovered together are the whole group. */
  lemma {:induction false} FinishServes(log: Log, s: Slot, ups: seq<Up>, more: seq<Up>)
    requires LogOk(log) && s.group in log.groups
    requires forall i: nat :: i in s.indices && i < log.groups[s.group].size ==>
             Served(log.groups[s.group], s.group, i, ups)
    requires forall i: nat :: i < log.groups[s.group].size && i !in s.indices ==>
             Served(log.groups[s.group], s.group, i, more)
    ensures SlotServed(log.groups[s.group], s, ups + more)
  {
    var g := log.groups[s.group];
    forall i: nat | i < g.size
      ensures Served(g, s.group, i, ups + more)
    {
      ServedMore(g, s.group, i, ups, more);
    }
    hide Served;
  }
}
