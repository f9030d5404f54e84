/**
 Which group gives up its slot.  The activity a slot records is the time its group was last heard of,
 so a new group takes an empty slot, or else the place of the group that has been silent longest.
 */
module FecEviction {
  import opened Bytes
  import opened FecGroups
  import opened FecRuns
  import FecTunnel

  /** A protected packet of the group with settings the receiver accepts, whatever its index. */
  predicate HeardOf(a: Arrival, id: u16)
  {
    0 < a.w.h.n <= 16 && 0 < a.w.h.r <= 8 && a.w.h.group == id
  }

  /** When the group was last heard of; -1 if never. */
  function LastHeard(arrivals: seq<Arrival>, id: u16): int
  {
    if arrivals == [] then -1
    else if HeardOf(arrivals[|arrivals| - 1], id) then arrivals[|arrivals| - 1].now
    else LastHeard(arrivals[..|arrivals| - 1], id)
  }

  predicate InUse(s: Slot)
  {
    s.indices != []
  }

  /** Each slot in use records when its group was last heard of, and no group has two. */
  ghost predicate Current(arrivals: seq<Arrival>, slots: seq<Slot>)
  {
    && Unique(slots)
    && forall i :: 0 <= i < |slots| && InUse(slots[i]) ==> slots[i].lastActive == LastHeard(arrivals, slots[i].group)
  }

  lemma {:induction false} HeardMore(arrivals: seq<Arrival>, a: Arrival, id: u16)
    ensures LastHeard(arrivals + [a], id) == if HeardOf(a, id) then a.now else LastHeard(arrivals, id)
  {
    assert (arrivals + [a])[..|arrivals|] == arrivals;
  }

  // ---------------------------------------------------------------- one packet

  /** The slot a packet works on: its group's, or the one picked for a new group; -1 for none. */
  ghost predicate WorksOn(slots: seq<Slot>, id: u16, at: int)
  {
    if exists i :: 0 <= i < |slots| && InUse(slots[i]) && slots[i].group == id
    then 0 <= at < |slots| && InUse(slots[at]) && slots[at].group == id
    else
      && -1 <= at < |slots|
      && ((exists i :: 0 <= i < |slots| && !InUse(slots[i])) ==> FecTunnel.FirstEmpty(slots, at))
      && ((forall i :: 0 <= i < |slots| ==> InUse(slots[i]) && slots[i].lastActive < NEVER) && slots != [] ==>
            FecTunnel.LongestIdle(slots, at))
  }

  lemma {:induction false} LocatedWorks(slots: seq<Slot>, id: u16, now: nat)
    ensures WorksOn(slots, id, Located(slots, id, now).0)
    ensures Located(slots, id, now).0 >= 0 ==> Located(slots, id, now).1.lastActive == now
  {
    FindSpec(slots, id, 0);
    FecTunnel.PickSpec(slots);
    hide FindSlot, PickSlot, FecTunnel.FirstEmpty, FecTunnel.LongestIdle;
  }

  lemma {:induction false} TakeKeepsTime(s: Slot, w: Wire)
    requires SlotOk(s) && Protected(w.h) && WireOk(w)
    ensures Take(s, w).0.lastActive == s.lastActive && Take(s, w).0.group == s.group
  {
    hide Recovered, Stored, Direct;
  }

  /** An accepted packet changes one slot, which then belongs to its group and records its time. */
  lemma {:induction false} ReceiveWorks(slots: seq<Slot>, a: Arrival) returns (at: int)
    requires SlotsOk(slots) && WireOk(a.w) && HeardOf(a, a.w.h.group)
    ensures WorksOn(slots, a.w.h.group, at)
    ensures var slots' := Receive(slots, a.w, a.now).slots;
            && |slots'| == |slots|
            && (at < 0 ==> slots' == slots)
            && (at >= 0 ==>
                  at < |slots| && slots'[at].group == a.w.h.group && slots'[at].lastActive == a.now
                  && forall i :: 0 <= i < |slots| && i != at ==> slots'[i] == slots[i])
  {
    LocatedOk(slots, a.w.h.group, a.now);
    LocatedWorks(slots, a.w.h.group, a.now);
    hide Located, Take, SlotOk, WorksOn;
    var loc := Located(slots, a.w.h.group, a.now);
    at := loc.0;
    if at >= 0 {
      TakeKeepsTime(loc.1, a.w);
    }
  }

  /** Packets the receiver does not accept, and unprotected ones, change no slot. */
  lemma {:induction false} OthersChangeNothing(slots: seq<Slot>, a: Arrival)
    requires SlotsOk(slots) && WireOk(a.w) && !HeardOf(a, a.w.h.group)
    ensures Receive(slots, a.w, a.now)
         == Receiving(slots, if 0 < a.w.h.n <= 16 && a.w.h.r == 0 then [Plain(a.w.body)] else [])
  {
    hide Take, Located;
  }

  lemma {:induction false} NextCurrent(arrivals: seq<Arrival>, slots: seq<Slot>, a: Arrival)
    requires SlotsOk(slots) && WireOk(a.w) && Current(arrivals, slots)
    ensures Current(arrivals + [a], Receive(slots, a.w, a.now).slots)
  {
    var id := a.w.h.group;
    hide Receive, SlotOk, WireOk, LastHeard, FecTunnel.FirstEmpty, FecTunnel.LongestIdle;
    if HeardOf(a, id) {
      var at := ReceiveWorks(slots, a);
      var slots' := Receive(slots, a.w, a.now).slots;
      forall i | 0 <= i < |slots'| && InUse(slots'[i])
        ensures slots'[i].lastActive == LastHeard(arrivals + [a], slots'[i].group)
      {
        HeardMore(arrivals, a, slots'[i].group);
        if i != at {
          assert slots'[i] == slots[i] && slots[i].group != id;
        }
      }
    } else {
      OthersChangeNothing(slots, a);
      forall i | 0 <= i < |slots| && InUse(slots[i])
        ensures slots[i].lastActive == LastHeard(arrivals + [a], slots[i].group)
      {
        HeardMore(arrivals, a, slots[i].group);
      }
    }
  }

  // ---------------------------------------------------------------- whole runs

  /** In every run each slot in use records when its group was last heard of. */
  lemma {:induction false} EverySlotCurrent(arrivals: seq<Arrival>)
    requires Sized(arrivals)
    ensures Current(arrivals, After(arrivals).slots)
    decreases |arrivals|
  {
    if arrivals == [] {
      hide LastHeard;
    } else {
      hide Current, Receive, WireOk, SlotOk, After;
      var init, a := arrivals[..|arrivals| - 1], arrivals[|arrivals| - 1];
      AfterSnoc(arrivals);
      EverySlotCurrent(init);
      assert arrivals == init + [a];
      NextCurrent(init, After(init).slots, a);
    }
  }

  lemma {:induction false} HeardBefore(arrivals: seq<Arrival>, id: u16, limit: nat)
    requires forall k :: 0 <= k < |arrivals| ==> arrivals[k].now < limit
    ensures LastHeard(arrivals, id) < limit
    decreases |arrivals|
  {
    if arrivals != [] {
      HeardBefore(arrivals[..|arrivals| - 1], id, limit);
    }
  }

  /** Slot at now belongs to the group, the others are as they were. */
  predicate OnlyAt(slots: seq<Slot>, slots': seq<Slot>, at: nat, id: u16)
  {
    && |slots'| == |slots| && at < |slots| && slots'[at].group == id
    && forall i :: 0 <= i < |slots| && i != at ==> slots'[i] == slots[i]
  }

  predicate Has(slots: seq<Slot>, id: u16)
  {
    exists i :: 0 <= i < |slots| && InUse(slots[i]) && slots[i].group == id
  }

  predicate AllInUse(slots: seq<Slot>)
  {
    forall i :: 0 <= i < |slots| ==> InUse(slots[i])
  }

  /** Of the groups that hold slots, the one in slot at was heard of longest ago, the first of them on ties. */
  predicate SilentLongest(arrivals: seq<Arrival>, slots: seq<Slot>, at: nat)
  {
    && at < |slots|
    && (forall i :: 0 <= i < |slots| ==>
          LastHeard(arrivals, slots[at].group) <= LastHeard(arrivals, slots[i].group))
    && (forall i :: 0 <= i < at ==> LastHeard(arrivals, slots[at].group) < LastHeard(arrivals, slots[i].group))
  }

  lemma {:induction false} AllKnown(arrivals: seq<Arrival>, slots: seq<Slot>)
    requires Current(arrivals, slots) && AllInUse(slots)
    requires forall k :: 0 <= k < |arrivals| ==> arrivals[k].now < NEVER
    ensures forall i :: 0 <= i < |slots| ==> InUse(slots[i]) && slots[i].lastActive < NEVER
    ensures forall at: nat :: FecTunnel.LongestIdle(slots, at) ==> SilentLongest(arrivals, slots, at)
  {
    forall i | 0 <= i < |slots|
      ensures slots[i].lastActive < NEVER && slots[i].lastActive == LastHeard(arrivals, slots[i].group)
    {
      HeardBefore(arrivals, slots[i].group, NEVER);
      assert InUse(slots[i]);
    }
    hide LastHeard;
  }

  /**
   A packet of a group that has a slot touches that slot only.  The first packet of another group
   takes the first empty slot, and when there is none, the slot of the group that has been silent
   longest; the other groups keep theirs.
   */
  lemma {:induction false} SilentLongestGoes(arrivals: seq<Arrival>, a: Arrival) returns (at: nat)
    requires Sized(arrivals) && Sized(arrivals + [a]) && HeardOf(a, a.w.h.group)
    requires forall k :: 0 <= k < |arrivals| ==> arrivals[k].now < NEVER
    ensures var slots := After(arrivals).slots;
            && OnlyAt(slots, After(arrivals + [a]).slots, at, a.w.h.group)
            && (Has(slots, a.w.h.group) ==> InUse(slots[at]) && slots[at].group == a.w.h.group)
            && (!Has(slots, a.w.h.group) && !AllInUse(slots) ==> FecTunnel.FirstEmpty(slots, at))
            && (!Has(slots, a.w.h.group) && AllInUse(slots) ==> SilentLongest(arrivals, slots, at))
  {
    var slots, id := After(arrivals).slots, a.w.h.group;
    EverySlotCurrent(arrivals);
    LastSized(arrivals, a);
    AfterOneMore(arrivals, a);
    ThreeOf(slots);
    hide After, Receive, SlotOk, WireOk, LastHeard, Current, HeardOf, SilentLongest;
    var loc := ReceiveWorks(slots, a);
    if AllInUse(slots) {
      AllKnown(arrivals, slots);
    }
    at := loc;
  }

  lemma {:induction false} LastSized(arrivals: seq<Arrival>, a: Arrival)
    requires Sized(arrivals + [a])
    ensures WireOk(a.w)
  {
    assert (arrivals + [a])[|arrivals|] == a;
    hide WireOk;
  }

  lemma {:induction false} ThreeOf(slots: seq<Slot>)
    requires SlotsOk(slots)
    ensures |slots| == 3
  {
    hide SlotOk;
  }

  // ---------------------------------------------------------------- what is stored and counted

  /** What the slot had of the group before the packet. */
  function Had(slots: seq<Slot>, id: u16, at: nat): seq<nat>
    requires at < |slots|
  {
    if Has(slots, id) then slots[at].indices else []
  }

  predicate IsNew(slots: seq<Slot>, w: Wire, at: nat)
    requires at < |slots|
  {
    w.h.index as int < w.h.n as int + w.h.r as int && w.h.index !in Had(slots, w.h.group, at)
  }

  /**
   A report is made after 100 stored packets, a second, or a clock set back, and only when something
   was expected: the whole per cent of it that did not come.
   */
  predicate ReportedAs(st: Stats, wall: nat, st': Stats)
  {
    var due := st.packets >= 100 || wall < st.lastReport || wall >= st.lastReport + 1000;
    && (!due ==> st' == st)
    && (due && st.expected == 0 ==> st' == st.(lastReport := wall))
    && (due && st.expected > 0 ==>
          && |st'.reports| == |st.reports| + 1 && st'.reports[..|st.reports|] == st.reports
          && st' == Stats(0, 0, 0, wall, st'.reports)
          && var rate := st'.reports[|st.reports|];
             var lost := if st.received < st.expected then st.expected - st.received else 0;
             PercentOf(rate, lost, st.expected))
  }

  /** rate is lost / expected in per cent, rounded down. */
  predicate PercentOf(rate: nat, lost: nat, expected: nat)
  {
    rate * expected <= 100 * lost < (rate + 1) * expected
  }

  lemma {:induction false} ReportExactly(st: Stats, wall: nat)
    ensures ReportedAs(st, wall, Reported(st, wall))
  {
    if st.expected > 0 {
      RateExactly(st.expected, st.received);
    }
    hide LossRate, PercentOf;
  }

  lemma {:induction false} RateExactly(expected: nat, received: nat)
    requires expected > 0
    ensures PercentOf(LossRate(expected, received), if received < expected then expected - received else 0, expected)
  {
    assert 0 * expected == 0 && 1 * expected == expected;
  }

  lemma {:induction false} FindHas(slots: seq<Slot>, id: u16)
    ensures Has(slots, id) <==> FindSlot(slots, id, 0) >= 0
    ensures FindSlot(slots, id, 0) >= 0 ==> Located(slots, id, 0).0 == FindSlot(slots, id, 0)
  {
    FindSpec(slots, id, 0);
    hide FindSlot;
  }

  /** A packet is stored exactly when it is new to its slot. */
  ghost predicate StoredAs(slots: seq<Slot>, slots': seq<Slot>, w: Wire, at: int)
    requires -1 <= at < |slots|
  {
    && |slots'| == |slots|
    && (at < 0 ==> slots' == slots)
    && (at >= 0 ==> slots'[at].indices
                    == Had(slots, w.h.group, at) + (if IsNew(slots, w, at) then [w.h.index as nat] else []))
  }

  /** The packet that is counted is the one that is stored; a group is expected in full when it takes a slot. */
  ghost predicate CountedAs(slots: seq<Slot>, w: Wire, at: int, st: Stats, st': Stats, wall: nat)
    requires -1 <= at < |slots|
  {
    var opens := at >= 0 && !Has(slots, w.h.group);
    var st1 := if opens then st.(expected := st.expected + w.h.n as nat + w.h.r as nat) else st;
    if at >= 0 && IsNew(slots, w, at)
    then ReportedAs(st1.(received := st1.received + 1, packets := st1.packets + 1), wall, st')
    else st' == st1
  }

  lemma {:induction false} TakeStores(s: Slot, w: Wire)
    requires SlotOk(s) && Protected(w.h) && WireOk(w)
    ensures Take(s, w).0.indices
         == s.indices + (if w.h.index as int < w.h.n as int + w.h.r as int && w.h.index !in s.indices
                         then [w.h.index as nat] else [])
  {
    hide Recovered, Stored, Direct;
  }

  /** The slot a packet works on has what its group had before. */
  lemma {:induction false} LocatedHad(slots: seq<Slot>, id: u16, now: nat)
    requires SlotsOk(slots)
    ensures var (at, s) := Located(slots, id, now);
            && -1 <= at < |slots| && SlotOk(s)
            && (at >= 0 ==> s.indices == Had(slots, id, at))
            && (Has(slots, id) <==> FindSlot(slots, id, 0) >= 0)
            && (FindSlot(slots, id, 0) < 0 ==> at == PickSlot(slots, 0, -1, NEVER))
            && (FindSlot(slots, id, 0) >= 0 ==> at >= 0)
  {
    LocatedOk(slots, id, now);
    FindHas(slots, id);
    hide FindSlot, PickSlot, SlotOk, Has;
  }

  lemma {:induction false} StoresAt(slots: seq<Slot>, a: Arrival)
    requires SlotsOk(slots) && WireOk(a.w) && HeardOf(a, a.w.h.group)
    ensures -1 <= Located(slots, a.w.h.group, a.now).0 < |slots|
    ensures StoredAs(slots, Receive(slots, a.w, a.now).slots, a.w, Located(slots, a.w.h.group, a.now).0)
  {
    LocatedHad(slots, a.w.h.group, a.now);
    var (at, s) := Located(slots, a.w.h.group, a.now);
    if at >= 0 {
      TakeStores(s, a.w);
    }
    hide Located, Take, SlotOk, WireOk, Had;
  }

  lemma {:induction false} StoresMeans(slots: seq<Slot>, a: Arrival)
    requires SlotsOk(slots) && HeardOf(a, a.w.h.group)
    ensures var at := Located(slots, a.w.h.group, a.now).0;
            && -1 <= at < |slots|
            && (StoresPacket(slots, a.w, a.now) <==> at >= 0 && IsNew(slots, a.w, at))
            && (OpensSlot(slots, a.w) <==> at >= 0 && !Has(slots, a.w.h.group))
  {
    LocatedHad(slots, a.w.h.group, a.now);
    hide Located, FindSlot, PickSlot, SlotOk, Has, Had;
  }

  lemma {:induction false} TallyMeans(st: Stats, slots: seq<Slot>, a: Arrival, wall: nat)
    ensures var w := a.w;
            var st1 := if OpensSlot(slots, w) then st.(expected := st.expected + w.h.n as nat + w.h.r as nat) else st;
            Tally(st, slots, w, a.now, wall)
            == if StoresPacket(slots, w, a.now)
               then Reported(st1.(received := st1.received + 1, packets := st1.packets + 1), wall) else st1
  {
    hide OpensSlot, StoresPacket, Reported;
  }

  lemma {:induction false} CountsAt(slots: seq<Slot>, a: Arrival, st: Stats, wall: nat)
    requires SlotsOk(slots) && HeardOf(a, a.w.h.group)
    ensures -1 <= Located(slots, a.w.h.group, a.now).0 < |slots|
    ensures CountedAs(slots, a.w, Located(slots, a.w.h.group, a.now).0, st, Tally(st, slots, a.w, a.now, wall), wall)
  {
    var w := a.w;
    StoresMeans(slots, a);
    TallyMeans(st, slots, a, wall);
    hide Located, Tally, Reported, ReportedAs, IsNew, Has, OpensSlot, StoresPacket, SlotsOk, HeardOf;
    var st1 := if OpensSlot(slots, w) then st.(expected := st.expected + w.h.n as nat + w.h.r as nat) else st;
    ReportExactly(st1.(received := st1.received + 1, packets := st1.packets + 1), wall);
  }

  lemma {:induction false} CountsExactly(slots: seq<Slot>, a: Arrival, st: Stats, wall: nat) returns (at: int)
    requires SlotsOk(slots) && WireOk(a.w) && HeardOf(a, a.w.h.group)
    ensures -1 <= at < |slots| && WorksOn(slots, a.w.h.group, at)
    ensures StoredAs(slots, Receive(slots, a.w, a.now).slots, a.w, at)
    ensures CountedAs(slots, a.w, at, st, Tally(st, slots, a.w, a.now, wall), wall)
  {
    hide *;
    LocatedWorks(slots, a.w.h.group, a.now);
    StoresAt(slots, a);
    CountsAt(slots, a, st, wall);
    at := Located(slots, a.w.h.group, a.now).0;
  }

  // ---------------------------------------------------------------- how a group keeps its slot

  /** Two further groups have been heard of no earlier than id. */
  ghost predicate Crowded(arrivals: seq<Arrival>, id: u16, newcomer: u16)
  {
    exists g: u16, h: u16 ::
      && Recent(arrivals, g, id) && Recent(arrivals, h, id)
      && g != h && g != id && h != id && g != newcomer && h != newcomer
  }

  /** g was heard of no earlier than id. */
  predicate Recent(arrivals: seq<Arrival>, g: u16, id: u16)
  {
    LastHeard(arrivals, g) >= LastHeard(arrivals, id)
  }

  /** The packet is of another group, and with two more that are recent the slots do not suffice. */
  ghost predicate CrowdsOut(arrivals: seq<Arrival>, a: Arrival, id: u16)
  {
    HeardOf(a, a.w.h.group) && a.w.h.group != id && Crowded(arrivals, id, a.w.h.group)
  }

  lemma {:induction false} SlotOf(slots: seq<Slot>, id: u16) returns (i: nat)
    requires Held(slots, id)
    ensures i < |slots| && InUse(slots[i]) && slots[i].group == id
  {
    i :| 0 <= i < |slots| && slots[i].indices != [] && slots[i].group == id;
  }

  lemma {:induction false} HeldHas(slots: seq<Slot>, id: u16)
    ensures Held(slots, id) <==> Has(slots, id)
  {
    if Held(slots, id) {
      var i := SlotOf(slots, id);
    }
    if Has(slots, id) {
      var i :| 0 <= i < |slots| && InUse(slots[i]) && slots[i].group == id;
      assert slots[i].indices != [];
    }
  }

  /** If the silent longest is in slot i of three, the other two crowd it out. */
  lemma {:induction false} OthersCrowd(arrivals: seq<Arrival>, slots: seq<Slot>, i: nat, newcomer: u16)
    requires |slots| == 3 && Unique(slots) && AllInUse(slots) && SilentLongest(arrivals, slots, i)
    requires !Has(slots, newcomer)
    ensures Crowded(arrivals, slots[i].group, newcomer)
  {
    var j, k := (i + 1) % 3, (i + 2) % 3;
    var g, h, id := slots[j].group, slots[k].group, slots[i].group;
    assert InUse(slots[i]) && InUse(slots[j]) && InUse(slots[k]);
    hide LastHeard;
    assert g != h && g != id && h != id by {
      assert slots[0].group != slots[1].group && slots[0].group != slots[2].group && slots[1].group != slots[2].group;
    }
    assert Recent(arrivals, g, id) && Recent(arrivals, h, id);
    assert g != newcomer && h != newcomer;
  }

  /** The slot a newcomer takes is not that of a group it does not crowd out. */
  lemma {:induction false} NotTaken(arrivals: seq<Arrival>, slots: seq<Slot>, at: nat, i: nat, newcomer: u16)
    requires |slots| == 3 && Unique(slots) && i < |slots| && InUse(slots[i]) && !Has(slots, newcomer)
    requires !AllInUse(slots) ==> FecTunnel.FirstEmpty(slots, at)
    requires AllInUse(slots) ==> SilentLongest(arrivals, slots, at)
    requires !Crowded(arrivals, slots[i].group, newcomer)
    ensures at != i
  {
    hide Crowded, Has, Unique;
    if AllInUse(slots) && at == i {
      OthersCrowd(arrivals, slots, i, newcomer);
    }
    hide SilentLongest, AllInUse;
  }

  /** A packet of a group that has a slot leaves it in use. */
  lemma {:induction false} OwnStays(slots: seq<Slot>, a: Arrival, i: nat)
    requires SlotsOk(slots) && WireOk(a.w) && Unique(slots) && HeardOf(a, a.w.h.group)
    requires i < |slots| && InUse(slots[i]) && slots[i].group == a.w.h.group
    ensures Held(Receive(slots, a.w, a.now).slots, a.w.h.group)
  {
    var id := a.w.h.group;
    FindHas(slots, id);
    FindSpec(slots, id, 0);
    StoresAt(slots, a);
    LocatedHad(slots, id, a.now);
    hide Located, FindSlot, Receive, SlotOk, WireOk, PickSlot;
    var at := ReceiveWorks(slots, a);
    assert Has(slots, id);
    assert at == i;
    var slots' := Receive(slots, a.w, a.now).slots;
    assert slots'[i].group == id && slots'[i].indices != [];
  }

  /** A group with a slot keeps it unless the packet crowds it out. */
  lemma {:induction false} StaysHeld(arrivals: seq<Arrival>, a: Arrival, id: u16)
    requires Sized(arrivals) && Sized(arrivals + [a]) && Held(After(arrivals).slots, id)
    requires forall k :: 0 <= k < |arrivals| ==> arrivals[k].now < NEVER
    requires !CrowdsOut(arrivals, a, id)
    ensures Held(After(arrivals + [a]).slots, id)
  {
    var slots := After(arrivals).slots;
    LastSized(arrivals, a);
    AfterOneMore(arrivals, a);
    EverySlotCurrent(arrivals);
    ThreeOf(slots);
    var i := SlotOf(slots, id);
    hide After, Receive, WireOk, SlotOk, LastHeard, Crowded, HeardOf;
    var slots' := After(arrivals + [a]).slots;
    if HeardOf(a, a.w.h.group) {
      var at := SilentLongestGoes(arrivals, a);
      if a.w.h.group == id {
        OwnStays(slots, a, i);
      } else {
        if !Has(slots, a.w.h.group) {
          NotTaken(arrivals, slots, at, i, a.w.h.group);
        }
        assert slots'[i] == slots[i];
      }
    } else {
      OthersChangeNothing(slots, a);
    }
  }

  /** Once heard of with a packet to store, a group has a slot. */
  lemma {:induction false} ArrivalHolds(arrivals: seq<Arrival>, a: Arrival)
    requires Sized(arrivals) && Sized(arrivals + [a]) && HeardOf(a, a.w.h.group)
    requires a.w.h.index as int < a.w.h.n as int + a.w.h.r as int
    requires forall k :: 0 <= k < |arrivals| ==> arrivals[k].now < NEVER
    ensures Held(After(arrivals + [a]).slots, a.w.h.group)
  {
    var slots, id := After(arrivals).slots, a.w.h.group;
    LastSized(arrivals, a);
    AfterOneMore(arrivals, a);
    EverySlotCurrent(arrivals);
    ThreeOf(slots);
    hide After, Receive, WireOk, SlotOk, LastHeard;
    if Has(slots, id) {
      HeldHas(slots, id);
      var i := SlotOf(slots, id);
      OwnStays(slots, a, i);
    } else {
      StoresAt(slots, a);
      LocatedWorks(slots, id, a.now);
      if AllInUse(slots) {
        AllKnown(arrivals, slots);
      }
      var at := Located(slots, id, a.now).0;
      NewHolds(slots, a, at);
    }
  }

  lemma {:induction false} NewHolds(slots: seq<Slot>, a: Arrival, at: int)
    requires SlotsOk(slots) && WireOk(a.w) && HeardOf(a, a.w.h.group) && !Has(slots, a.w.h.group)
    requires a.w.h.index as int < a.w.h.n as int + a.w.h.r as int && at == Located(slots, a.w.h.group, a.now).0
    requires WorksOn(slots, a.w.h.group, at) && |slots| == 3
    requires AllInUse(slots) ==> forall i :: 0 <= i < |slots| ==> slots[i].lastActive < NEVER
    ensures Held(Receive(slots, a.w, a.now).slots, a.w.h.group)
  {
    hide Located, Receive, WireOk, SlotOk;
    StoresAt(slots, a);
    LocatedGroup(slots, a);
    assert at >= 0 by {
      if AllInUse(slots) {
        assert FecTunnel.LongestIdle(slots, at);
      } else {
        assert FecTunnel.FirstEmpty(slots, at);
      }
    }
    var slots' := Receive(slots, a.w, a.now).slots;
    assert slots'[at].indices != [] && slots'[at].group == a.w.h.group;
  }

  lemma {:induction false} LocatedGroup(slots: seq<Slot>, a: Arrival)
    requires SlotsOk(slots) && WireOk(a.w) && HeardOf(a, a.w.h.group)
    ensures var at := Located(slots, a.w.h.group, a.now).0;
            at >= 0 ==> at < |slots| == |Receive(slots, a.w, a.now).slots|
                        && Receive(slots, a.w, a.now).slots[at].group == a.w.h.group
  {
    LocatedOk(slots, a.w.h.group, a.now);
    var (at, s) := Located(slots, a.w.h.group, a.now);
    if at >= 0 {
      TakeKeepsTime(s, a.w);
    }
    hide Located, Take, SlotOk, WireOk;
  }

  /** No packet after position from crowds the group out. */
  ghost predicate NeverCrowded(arrivals: seq<Arrival>, from: nat, id: u16)
  {
    forall m :: from < m < |arrivals| ==> !CrowdsOut(arrivals[..m], arrivals[m], id)
  }

  /** A group heard of with a packet to store keeps its slot until two other groups are as recent and a third comes. */
  lemma {:induction false} HeldUnlessCrowded(arrivals: seq<Arrival>, from: nat, id: u16, m: nat)
    requires Sized(arrivals) && from < m <= |arrivals| && NeverCrowded(arrivals, from, id)
    requires HeardOf(arrivals[from], id)
    requires arrivals[from].w.h.index as int < arrivals[from].w.h.n as int + arrivals[from].w.h.r as int
    requires forall k :: 0 <= k < |arrivals| ==> arrivals[k].now < NEVER
    ensures Sized(arrivals[..m]) && Held(After(arrivals[..m]).slots, id)
    decreases m
  {
    var init, a := arrivals[..m - 1], arrivals[m - 1];
    assert arrivals[..m] == init + [a];
    hide After, Held, CrowdsOut, HeardOf, WireOk;
    if m == from + 1 {
      SameGroup(a, id);
      ArrivalHolds(init, a);
    } else {
      HeldUnlessCrowded(arrivals, from, id, m - 1);
      StaysHeld(init, a, id);
    }
  }

  lemma {:induction false} SameGroup(a: Arrival, id: u16)
    requires HeardOf(a, id)
    ensures a.w.h.group == id
  {
  }
}
