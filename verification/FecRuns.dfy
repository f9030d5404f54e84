/** The group tracker over whole runs of arrivals: lost, repeated, reordered and interleaved packets, slots evicted. */
module FecRuns {
  import opened Bytes
  import opened Counting
  import opened ErasureCode
  import opened FecGroups
  import opened FecDelivery

  datatype Arrival = Arrival(w: Wire, now: nat)

  /** The receiver's slots and everything it has handed up so far. */
  datatype Tracker = Tracker(slots: seq<Slot>, ups: seq<Up>)

  function Empty(): Tracker
  {
    Tracker([Fresh(0), Fresh(0), Fresh(0)], [])
  }

  ghost predicate AllAuthentic(log: Log, arrivals: seq<Arrival>)
    requires LogOk(log)
  {
    forall i :: 0 <= i < |arrivals| ==> Authentic(log, arrivals[i].w)
  }

  ghost predicate Sized(arrivals: seq<Arrival>)
  {
    forall i :: 0 <= i < |arrivals| ==> WireOk(arrivals[i].w)
  }

  ghost function Next(t: Tracker, a: Arrival): (t': Tracker)
    requires SlotsOk(t.slots) && WireOk(a.w)
    ensures SlotsOk(t'.slots)
  {
    ReceiveKeepsOk(t.slots, a.w, a.now);
    var out := Receive(t.slots, a.w, a.now);
    Tracker(out.slots, t.ups + out.ups)
  }

  ghost function After(arrivals: seq<Arrival>): (t: Tracker)
    requires Sized(arrivals)
    ensures SlotsOk(t.slots)
  {
    if arrivals == [] then Empty() else Next(After(arrivals[..|arrivals| - 1]), arrivals[|arrivals| - 1])
  }

  lemma {:induction false} AfterSnoc(arrivals: seq<Arrival>)
    requires Sized(arrivals) && arrivals != []
    ensures var init, a := arrivals[..|arrivals| - 1], arrivals[|arrivals| - 1];
            && Sized(init) && WireOk(a.w) && SlotsOk(After(init).slots)
            && var out := Receive(After(init).slots, a.w, a.now);
               After(arrivals) == Tracker(out.slots, After(init).ups + out.ups)
  {
    hide Receive, WireOk, SlotOk;
  }

  lemma {:induction false} AfterOneMore(arrivals: seq<Arrival>, a: Arrival)
    requires Sized(arrivals) && WireOk(a.w)
    ensures Sized(arrivals + [a]) && SlotsOk(After(arrivals).slots)
    ensures var out := Receive(After(arrivals).slots, a.w, a.now);
            After(arrivals + [a]) == Tracker(out.slots, After(arrivals).ups + out.ups)
  {
    hide Receive, WireOk, After;
    assert (arrivals + [a])[..|arrivals|] == arrivals;
    AfterSnoc(arrivals + [a]);
  }

  lemma {:induction false} AuthenticSized(log: Log, w: Wire)
    requires LogOk(log) && Authentic(log, w)
    ensures WireOk(w) && w.h.n <= MAX_N && w.h.r <= MAX_R && w.h.n > 0
  {
    hide Encoded;
    if w.h.r != 0 {
      assert GroupOk(log.groups[w.h.group]);
    }
  }

  ghost predicate Unique(slots: seq<Slot>)
  {
    forall i, j :: 0 <= i < j < |slots| && slots[i].indices != [] && slots[j].indices != [] ==>
      slots[i].group != slots[j].group
  }

  ghost predicate SlotsKept(log: Log, slots: seq<Slot>, ups: seq<Up>)
    requires LogOk(log)
  {
    forall i :: 0 <= i < |slots| && slots[i].indices != [] ==> Kept(log, slots[i], ups)
  }

  ghost predicate Consistent(log: Log, t: Tracker)
    requires LogOk(log)
  {
    SlotsOk(t.slots) && Unique(t.slots) && SlotsKept(log, t.slots, t.ups) && AllTrue(log, t.ups)
  }

  // ---------------------------------------------------------------- one step

  lemma {:induction false} KeptMore(log: Log, s: Slot, ups: seq<Up>, more: seq<Up>)
    requires LogOk(log) && Kept(log, s, ups)
    ensures Kept(log, s, ups + more)
  {
    ServedStays(log.groups[s.group], s, ups, more);
    hide SlotTrue, Served;
  }

  /** The slot a genuine packet goes to is kept, whether found or fresh. */
  lemma {:induction false} LocatedKept(log: Log, t: Tracker, id: u16, now: nat)
    requires LogOk(log) && Consistent(log, t) && id in log.groups
    ensures var (at, s) := Located(t.slots, id, now);
            && -1 <= at < SLOTS && s.group == id && SlotOk(s)
            && Kept(log, s, t.ups)
            && (forall i :: 0 <= i < SLOTS && i != at && t.slots[i].indices != [] ==> t.slots[i].group != id)
            && (at >= 0 && t.slots[at].indices != [] && t.slots[at].group == id ==> s.indices == t.slots[at].indices)
  {
    LocatedOk(t.slots, id, now);
    FindSpec(t.slots, id, 0);
    hide FindSlot, PickSlot, Served, IsBlock;
    assert GroupOk(log.groups[id]);
    var f := FindSlot(t.slots, id, 0);
    if f >= 0 {
      assert Kept(log, t.slots[f], t.ups);
      assert SlotTrue(log.groups[id], t.slots[f].(lastActive := now));
    }
  }

  /** What Receive does with a genuine protected packet. */
  lemma {:induction false} ReceiveTakes(log: Log, slots: seq<Slot>, w: Wire, now: nat)
    requires LogOk(log) && SlotsOk(slots) && Authentic(log, w) && w.h.r != 0 && WireOk(w)
    ensures w.h.n <= MAX_N && w.h.r <= MAX_R && SlotOk(Located(slots, w.h.group, now).1)
    ensures var (at, s) := Located(slots, w.h.group, now);
            Receive(slots, w, now) == if at < 0 then Receiving(slots, [])
                                      else Receiving(slots[at := Take(s, w).0], Take(s, w).1)
  {
    AuthenticSized(log, w);
    LocatedOk(slots, w.h.group, now);
    hide Take, Located;
  }

  /** Every genuine arrival keeps the tracker consistent. */
  lemma {:induction false} NextConsistent(log: Log, t: Tracker, a: Arrival)
    requires LogOk(log) && LogSound(log) && Consistent(log, t) && Authentic(log, a.w)
    ensures WireOk(a.w) && Consistent(log, Next(t, a))
  {
    AuthenticSized(log, a.w);
    if a.w.h.r == 0 {
      hide Kept;
      PlainConsistent(log, t, a.w);
    } else {
      ReceiveTakes(log, t.slots, a.w, a.now);
      LocatedKept(log, t, a.w.h.group, a.now);
      ReceiveKeepsOk(t.slots, a.w, a.now);
      hide Receive, Located, Kept, SlotOk, Take;
      var (at, s) := Located(t.slots, a.w.h.group, a.now);
      if at >= 0 {
        TakeKeeps(log, s, a.w, t.ups);
        ReplaceConsistent(log, t, at, Take(s, a.w).0, Take(s, a.w).1);
      } else {
        assert t.ups + [] == t.ups;
      }
    }
  }

  lemma {:induction false} PlainConsistent(log: Log, t: Tracker, w: Wire)
    requires LogOk(log) && Consistent(log, t) && Authentic(log, w) && w.h.r == 0
    ensures Consistent(log, Tracker(t.slots, t.ups + [Plain(w.body)]))
  {
    forall i | 0 <= i < |t.slots| && t.slots[i].indices != []
      ensures Kept(log, t.slots[i], t.ups + [Plain(w.body)])
    {
      KeptMore(log, t.slots[i], t.ups, [Plain(w.body)]);
    }
    hide Kept, SlotOk;
  }

  lemma {:induction false} ReplaceConsistent(log: Log, t: Tracker, at: nat, s: Slot, more: seq<Up>)
    requires LogOk(log) && Consistent(log, t) && at < SLOTS && AllTrue(log, more)
    requires SlotsOk(t.slots[at := s]) && Kept(log, s, t.ups + more)
    requires forall i :: 0 <= i < SLOTS && i != at && t.slots[i].indices != [] ==> t.slots[i].group != s.group
    ensures Consistent(log, Tracker(t.slots[at := s], t.ups + more))
  {
    var slots' := t.slots[at := s];
    forall i | 0 <= i < SLOTS && slots'[i].indices != []
      ensures Kept(log, slots'[i], t.ups + more)
    {
      if i != at {
        KeptMore(log, t.slots[i], t.ups, more);
      }
    }
    hide Kept, SlotOk;
  }

  // ---------------------------------------------------------------- all runs

  lemma {:induction false} EveryRunConsistent(log: Log, arrivals: seq<Arrival>)
    requires LogOk(log) && LogSound(log) && AllAuthentic(log, arrivals)
    ensures Sized(arrivals) && Consistent(log, After(arrivals))
    decreases |arrivals|
  {
    hide Authentic, Next, Kept;
    if arrivals != [] {
      var init, last := arrivals[..|arrivals| - 1], arrivals[|arrivals| - 1];
      EveryRunConsistent(log, init);
      assert Authentic(log, last.w);
      NextConsistent(log, After(init), last);
      forall i | 0 <= i < |arrivals|
        ensures WireOk(arrivals[i].w)
      {
        assert i < |init| ==> arrivals[i] == init[i];
      }
    }
  }

  /** Whatever the network does, every payload handed up is the one the sender framed for that group and index. */
  lemma {:induction false} EveryUpGenuine(log: Log, arrivals: seq<Arrival>)
    requires LogOk(log) && LogSound(log) && AllAuthentic(log, arrivals)
    ensures Sized(arrivals) && AllTrue(log, After(arrivals).ups)
  {
    EveryRunConsistent(log, arrivals);
    hide After, SlotsKept, Unique;
  }

  // ---------------------------------------------------------------- groups that keep their slot

  ghost predicate Held(slots: seq<Slot>, id: u16)
  {
    exists i :: 0 <= i < |slots| && slots[i].indices != [] && slots[i].group == id
  }

  /** The slot of the group has stored packet x. */
  ghost predicate Stores(slots: seq<Slot>, id: u16, x: nat)
  {
    exists i :: 0 <= i < |slots| && slots[i].indices != [] && slots[i].group == id && x in slots[i].indices
  }

  lemma {:induction false} ReplaceStores(slots: seq<Slot>, at: nat, s: Slot, id: u16, x: nat)
    requires at < |slots| && Unique(slots)
    requires s.group == id && slots[at].indices != [] && slots[at].group == id ==>
             forall y :: y in slots[at].indices ==> y in s.indices
    requires s.group == id && (slots[at].indices == [] || slots[at].group != id) ==> !Held(slots, id)
    requires Stores(slots, id, x) && Held(slots[at := s], id)
    ensures Stores(slots[at := s], id, x)
  {
    var i :| 0 <= i < |slots| && slots[i].indices != [] && slots[i].group == id && x in slots[i].indices;
    var after := slots[at := s];
    if i == at {
      var j :| 0 <= j < |after| && after[j].indices != [] && after[j].group == id;
      assert x in after[at].indices;
    } else {
      assert after[i] == slots[i];
    }
  }

  /** While a group holds its slot nothing stored is forgotten, and its arrivals are stored. */
  lemma {:induction false} NextStores(log: Log, t: Tracker, a: Arrival, id: u16, x: nat)
    requires LogOk(log) && LogSound(log) && Consistent(log, t) && Authentic(log, a.w) && WireOk(a.w)
    requires Held(Next(t, a).slots, id)
    requires Stores(t.slots, id, x) || (a.w.h.r != 0 && a.w.h.group == id && a.w.h.index == x)
    ensures Stores(Next(t, a).slots, id, x)
  {
    AuthenticSized(log, a.w);
    if a.w.h.r != 0 {
      ReceiveTakes(log, t.slots, a.w, a.now);
      LocatedKept(log, t, a.w.h.group, a.now);
      hide Receive, Located, Kept, SlotOk, Take, Stores, Held, Authentic, SlotsKept;
      var (at, s) := Located(t.slots, a.w.h.group, a.now);
      if at >= 0 {
        TakeKeeps(log, s, a.w, t.ups);
        var s' := Take(s, a.w).0;
        StoredNow(t.slots, at, s', id, x, a.w.h.index);
      } else {
        NotHeld(t.slots, a.w.h.group);
      }
    }
  }

  lemma {:induction false} NotHeld(slots: seq<Slot>, id: u16)
    requires forall i :: 0 <= i < |slots| && slots[i].indices != [] ==> slots[i].group != id
    ensures !Held(slots, id)
  {
  }

  lemma {:induction false} StoredNow(slots: seq<Slot>, at: nat, s: Slot, id: u16, x: nat, arrived: nat)
    requires at < |slots| && Unique(slots) && arrived in s.indices
    requires forall i :: 0 <= i < |slots| && i != at && slots[i].indices != [] ==> slots[i].group != s.group
    requires slots[at].indices != [] && slots[at].group == s.group ==>
             forall y :: y in slots[at].indices ==> y in s.indices
    requires Held(slots[at := s], id)
    requires Stores(slots, id, x) || (s.group == id && arrived == x)
    ensures Stores(slots[at := s], id, x)
  {
    if s.group == id && arrived == x {
      assert slots[at := s][at] == s;
    } else {
      if s.group == id && (slots[at].indices == [] || slots[at].group != id) {
        NotHeld(slots, id);
      }
      ReplaceStores(slots, at, s, id, x);
    }
  }

  /** Arrival of packet x of a protected group. */
  predicate IsArrival(a: Arrival, id: u16, x: nat)
  {
    a.w.h.r != 0 && a.w.h.group == id && a.w.h.index == x
  }

  ghost predicate HeldSince(arrivals: seq<Arrival>, from: nat, id: u16)
    requires Sized(arrivals)
  {
    forall m :: from < m <= |arrivals| ==> Held(After(arrivals[..m]).slots, id)
  }

  lemma {:induction false} HeldPrefix(arrivals: seq<Arrival>, from: nat, id: u16)
    requires Sized(arrivals) && HeldSince(arrivals, from, id) && arrivals != []
    ensures HeldSince(arrivals[..|arrivals| - 1], from, id)
  {
    hide After, Held;
    var init := arrivals[..|arrivals| - 1];
    forall m | from < m <= |init|
      ensures Held(After(init[..m]).slots, id)
    {
      assert init[..m] == arrivals[..m];
    }
  }

  /** A packet that arrived while its group held a slot is stored there. */
  lemma {:induction false} HeldStores(log: Log, arrivals: seq<Arrival>, from: nat, id: u16, k: nat, x: nat)
    requires LogOk(log) && LogSound(log) && AllAuthentic(log, arrivals) && Sized(arrivals)
    requires from <= k < |arrivals| && HeldSince(arrivals, from, id) && IsArrival(arrivals[k], id, x)
    ensures Stores(After(arrivals).slots, id, x)
    decreases |arrivals|
  {
    hide Authentic, Consistent, Held, Stores, Next, After, WireOk;
    var init, last := arrivals[..|arrivals| - 1], arrivals[|arrivals| - 1];
    RunSnoc(log, arrivals);
    assert arrivals[..|arrivals|] == arrivals;
    assert Held(After(arrivals).slots, id);
    if k < |init| {
      HeldPrefix(arrivals, from, id);
      HeldStores(log, init, from, id, k, x);
    }
    hide HeldSince;
    NextStores(log, After(init), last, id, x);
  }

  lemma {:induction false} RunSnoc(log: Log, arrivals: seq<Arrival>)
    requires LogOk(log) && LogSound(log) && AllAuthentic(log, arrivals) && Sized(arrivals) && arrivals != []
    ensures var init, last := arrivals[..|arrivals| - 1], arrivals[|arrivals| - 1];
            && AllAuthentic(log, init) && Sized(init) && Authentic(log, last.w) && WireOk(last.w)
            && After(arrivals) == Next(After(init), last) && Consistent(log, After(init))
  {
    hide Authentic, Next, WireOk, Consistent;
    var init := arrivals[..|arrivals| - 1];
    assert Sized(init);
    EveryRunConsistent(log, init);
  }

  lemma {:induction false} StoredCount(slots: seq<Slot>, i: nat, id: u16, xs: set<nat>)
    requires Unique(slots) && i < |slots| && slots[i].indices != [] && slots[i].group == id
    requires forall x :: x in xs ==> Stores(slots, id, x)
    ensures |xs| <= |slots[i].indices|
  {
    forall x | x in xs
      ensures x in slots[i].indices
    {
      assert Stores(slots, id, x);
    }
    assert xs <= Elements(slots[i].indices);
    SubsetSize(xs, Elements(slots[i].indices));
    ElementCount(slots[i].indices);
  }

  /** The slot of the group, which has stored every one of xs. */
  lemma {:induction false} SlotOf(log: Log, arrivals: seq<Arrival>, from: nat, id: u16, xs: set<nat>) returns (i: nat)
    requires LogOk(log) && LogSound(log) && AllAuthentic(log, arrivals) && Sized(arrivals)
    requires from < |arrivals| && HeldSince(arrivals, from, id)
    requires forall x :: x in xs ==> exists k :: from <= k < |arrivals| && IsArrival(arrivals[k], id, x)
    ensures var t := After(arrivals);
            && Consistent(log, t) && i < |t.slots| && t.slots[i].indices != [] && t.slots[i].group == id
            && |xs| <= |t.slots[i].indices| && Kept(log, t.slots[i], t.ups)
  {
    EveryRunConsistent(log, arrivals);
    var t := After(arrivals);
    hide After, Stores, Kept, Authentic, SlotOk, WireOk, AllTrue;
    forall x | x in xs
      ensures Stores(t.slots, id, x)
    {
      var k :| from <= k < |arrivals| && IsArrival(arrivals[k], id, x);
      HeldStores(log, arrivals, from, id, k, x);
    }
    assert arrivals[..|arrivals|] == arrivals;
    assert Held(t.slots, id);
    hide HeldSince;
    i :| 0 <= i < |t.slots| && t.slots[i].indices != [] && t.slots[i].group == id;
    StoredCount(t.slots, i, id, xs);
  }

  ghost predicate AllServed(g: Group, id: u16, ups: seq<Up>)
  {
    forall i: nat :: i < g.size ==> Served(g, id, i, ups)
  }

  lemma {:induction false} DecodedServes(log: Log, s: Slot, ups: seq<Up>)
    requires LogOk(log) && Kept(log, s, ups)
    ensures s.decoded ==> AllServed(log.groups[s.group], s.group, ups)
    ensures log.groups[s.group].size == log.groups[s.group].n <= |s.indices| ==> s.decoded
  {
    hide BlocksTrue, Served;
  }

  /**
   Once n distinct packets of a group that was not closed early have arrived while it holds its slot,
   every data payload of the group has been handed up, whichever packets those were and in whatever
   order they came.
   */
  lemma {:induction false} GroupComplete(log: Log, arrivals: seq<Arrival>, from: nat, id: u16, xs: set<nat>)
    requires LogOk(log) && LogSound(log) && AllAuthentic(log, arrivals) && Sized(arrivals)
    requires from < |arrivals| && HeldSince(arrivals, from, id)
    requires id in log.groups && log.groups[id].size == log.groups[id].n <= |xs|
    requires forall x :: x in xs ==> exists k :: from <= k < |arrivals| && IsArrival(arrivals[k], id, x)
    ensures AllServed(log.groups[id], id, After(arrivals).ups)
  {
    hide *;
    var i := SlotOf(log, arrivals, from, id, xs);
    DecodedServes(log, After(arrivals).slots[i], After(arrivals).ups);
  }

  // ---------------------------------------------------------------- groups closed early

  /** A slot stores nothing but what arrives, and a new packet that makes n of them starts recovery. */
  lemma {:induction false} TakeAdds(s: Slot, w: Wire)
    requires SlotOk(s) && Protected(w.h) && WireOk(w)
    ensures var s' := Take(s, w).0;
            && s'.group == s.group && (s.decoded ==> s'.decoded)
            && (forall x :: x in s'.indices ==> x in s.indices || (x == w.h.index))
            && (w.h.index < w.h.n + w.h.r && w.h.index !in s.indices ==> s'.decoded || |s'.indices| < w.h.n)
  {
    hide Stored, Direct, Recovered;
  }

  /** Only what arrived is stored. */
  lemma {:induction false} StoredArrived(log: Log, arrivals: seq<Arrival>, id: u16, x: nat)
    requires LogOk(log) && LogSound(log) && AllAuthentic(log, arrivals) && Sized(arrivals)
    requires Stores(After(arrivals).slots, id, x)
    ensures exists j :: 0 <= j < |arrivals| && IsArrival(arrivals[j], id, x)
    decreases |arrivals|
  {
    if arrivals != [] {
      hide *;
      var init, last := arrivals[..|arrivals| - 1], arrivals[|arrivals| - 1];
      RunSnoc(log, arrivals);
      StepStores(log, After(init), last, id, x);
      if Stores(After(init).slots, id, x) {
        StoredArrived(log, init, id, x);
        var j :| 0 <= j < |init| && IsArrival(init[j], id, x);
        assert arrivals[j] == init[j];
      } else {
        assert IsArrival(arrivals[|arrivals| - 1], id, x);
      }
    }
  }

  lemma {:induction false} StepStores(log: Log, t: Tracker, a: Arrival, id: u16, x: nat)
    requires LogOk(log) && Consistent(log, t) && Authentic(log, a.w) && WireOk(a.w)
    ensures Stores(Next(t, a).slots, id, x) ==> Stores(t.slots, id, x) || IsArrival(a, id, x)
  {
    AuthenticSized(log, a.w);
    if a.w.h.r != 0 {
      ReceiveTakes(log, t.slots, a.w, a.now);
      LocatedIs(t.slots, a.w.h.group, a.now);
      var (at, s) := Located(t.slots, a.w.h.group, a.now);
      if at >= 0 {
        TakeAdds(s, a.w);
        hide Receive, Located, Take, SlotOk, Authentic, SlotsKept, Unique, AllTrue;
        var s' := Take(s, a.w).0;
        assert Next(t, a).slots == t.slots[at := s'];
        if Stores(Next(t, a).slots, id, x) {
          PutStores(t.slots, at, s, s', a.w.h.index, id, x);
        }
      }
    }
  }

  lemma {:induction false} PutStores(slots: seq<Slot>, at: nat, s: Slot, s': Slot, arrived: nat, id: u16, x: nat)
    requires at < |slots| && s'.group == s.group && forall y :: y in s'.indices ==> y in s.indices || y == arrived
    requires s.indices == [] || (s.indices == slots[at].indices && slots[at].group == s.group)
    requires Stores(slots[at := s'], id, x)
    ensures Stores(slots, id, x) || (s.group == id && x == arrived)
  {
    var after := slots[at := s'];
    var i :| 0 <= i < |after| && after[i].indices != [] && after[i].group == id && x in after[i].indices;
    if i != at {
      assert slots[i] == after[i];
    } else if x != arrived {
      assert x in slots[at].indices;
    }
  }

  /** The slot a packet works on is an old one of its group or an empty one. */
  lemma {:induction false} LocatedIs(slots: seq<Slot>, group: u16, now: nat)
    requires SlotsOk(slots)
    ensures var (at, s) := Located(slots, group, now);
            && -1 <= at < SLOTS && s.group == group
            && (s.indices == [] || (at >= 0 && s.indices == slots[at].indices && slots[at].group == group))
  {
    LocatedOk(slots, group, now);
    FindSpec(slots, group, 0);
    hide FindSlot, PickSlot, SlotOk;
  }

  lemma {:induction false} NeverStored(log: Log, arrivals: seq<Arrival>, id: u16, x: nat)
    requires LogOk(log) && LogSound(log) && AllAuthentic(log, arrivals) && Sized(arrivals)
    requires forall j :: 0 <= j < |arrivals| ==> !IsArrival(arrivals[j], id, x)
    ensures !Stores(After(arrivals).slots, id, x)
  {
    hide *;
    if Stores(After(arrivals).slots, id, x) {
      StoredArrived(log, arrivals, id, x);
    }
  }

  /** A parity that brings its slot to size packets is decoded with. */
  lemma {:induction false} ParityDecodes(log: Log, t: Tracker, a: Arrival, id: u16, i: nat)
    requires LogOk(log) && LogSound(log) && Consistent(log, t) && Authentic(log, a.w) && WireOk(a.w)
    requires id in log.groups && a.w.h.index >= log.groups[id].size && IsArrival(a, id, a.w.h.index)
    requires !Stores(t.slots, id, a.w.h.index)
    requires i < SLOTS && Next(t, a).slots[i].indices != [] && Next(t, a).slots[i].group == id
    requires |Next(t, a).slots[i].indices| >= log.groups[id].size
    ensures Next(t, a).slots[i].decoded
  {
    AuthenticSized(log, a.w);
    assert a.w.h.n == log.groups[id].size && a.w.h.index < a.w.h.n + a.w.h.r;
    ReceiveTakes(log, t.slots, a.w, a.now);
    LocatedKept(log, t, id, a.now);
    LocatedIs(t.slots, id, a.now);
    var (at, s) := Located(t.slots, id, a.now);
    TakeAdds(s, a.w);
    hide Receive, Located, Take, SlotOk, Kept, Authentic, SlotsKept, AllTrue, WireOk;
    NotStored(t.slots, at, s, id, a.w.h.index);
    assert Next(t, a).slots == if at >= 0 then t.slots[at := Take(s, a.w).0] else t.slots;
  }

  lemma {:induction false} NotStored(slots: seq<Slot>, at: int, s: Slot, id: u16, x: nat)
    requires !Stores(slots, id, x) && -1 <= at < |slots|
    requires s.indices == [] || (at >= 0 && s.indices == slots[at].indices && slots[at].group == id)
    ensures x !in s.indices
  {
  }

  lemma {:induction false} UpsGrow(arrivals: seq<Arrival>, m: nat)
    requires Sized(arrivals) && m <= |arrivals|
    ensures Sized(arrivals[..m]) && After(arrivals[..m]).ups <= After(arrivals).ups
    decreases |arrivals|
  {
    hide WireOk, Receive;
    if m == |arrivals| {
      assert arrivals[..m] == arrivals;
    } else {
      var init := arrivals[..|arrivals| - 1];
      UpsGrow(init, m);
      assert init[..m] == arrivals[..m];
    }
  }

  lemma {:induction false} ServedOn(g: Group, id: u16, ups: seq<Up>, more: seq<Up>)
    requires AllServed(g, id, ups) && ups <= more
    ensures AllServed(g, id, more)
  {
    forall i: nat | i < g.size
      ensures Served(g, id, i, more)
    {
      assert Served(g, id, i, ups);
      assert more == ups + more[|ups|..];
    }
  }

  lemma {:induction false} PrefixAuthentic(log: Log, arrivals: seq<Arrival>, m: nat)
    requires LogOk(log) && AllAuthentic(log, arrivals) && Sized(arrivals) && m <= |arrivals|
    ensures AllAuthentic(log, arrivals[..m]) && Sized(arrivals[..m])
  {
    hide Authentic, WireOk;
  }

  /**
   A group closed early after size data packets: once size distinct packets have arrived while it
   holds its slot, the last of them a parity, every data payload has been handed up.
   */
  lemma {:induction false} ShortGroupComplete(log: Log, arrivals: seq<Arrival>, from: nat, id: u16, k: nat, x: nat,
                                              xs: set<nat>)
    requires LogOk(log) && LogSound(log) && AllAuthentic(log, arrivals) && Sized(arrivals)
    requires from <= k < |arrivals| && HeldSince(arrivals, from, id)
    requires id in log.groups && log.groups[id].size <= x && log.groups[id].size <= |xs|
    requires IsArrival(arrivals[k], id, x) && forall j :: 0 <= j < k ==> !IsArrival(arrivals[j], id, x)
    requires forall y :: y in xs ==> exists j :: from <= j <= k && IsArrival(arrivals[j], id, y)
    ensures AllServed(log.groups[id], id, After(arrivals).ups)
  {
    var pre, mid := arrivals[..k], arrivals[..k + 1];
    PrefixAuthentic(log, arrivals, k + 1);
    MidRun(arrivals, from, id, k, xs);
    var i := SlotOf(log, mid, from, id, xs);
    RunSnoc(log, mid);
    assert mid[..|mid| - 1] == pre && mid[|mid| - 1] == arrivals[k];
    hide *;
    assert forall j :: 0 <= j < |pre| ==> pre[j] == arrivals[j];
    NeverStored(log, pre, id, x);
    IsIndex(arrivals[k], id, x);
    ThreeSlots(log, After(mid));
    ParityDecodes(log, After(pre), arrivals[k], id, i);
    DecodedServes(log, After(mid).slots[i], After(mid).ups);
    UpsGrow(arrivals, k + 1);
    ServedOn(log.groups[id], id, After(mid).ups, After(arrivals).ups);
  }

  lemma {:induction false} IsIndex(a: Arrival, id: u16, x: nat)
    requires IsArrival(a, id, x)
    ensures a.w.h.index == x && a.w.h.group == id
  {
  }

  lemma {:induction false} ThreeSlots(log: Log, t: Tracker)
    requires LogOk(log) && Consistent(log, t)
    ensures |t.slots| == SLOTS
  {
  }

  lemma {:induction false} MidRun(arrivals: seq<Arrival>, from: nat, id: u16, k: nat, xs: set<nat>)
    requires Sized(arrivals) && from <= k < |arrivals| && HeldSince(arrivals, from, id)
    requires forall y :: y in xs ==> exists j :: from <= j <= k && IsArrival(arrivals[j], id, y)
    ensures var mid := arrivals[..k + 1];
            && Sized(mid) && HeldSince(mid, from, id)
            && forall y :: y in xs ==> exists j :: from <= j < |mid| && IsArrival(mid[j], id, y)
  {
    var mid := arrivals[..k + 1];
    hide WireOk, After, Held, IsArrival;
    forall m | from < m <= |mid|
      ensures Held(After(mid[..m]).slots, id)
    {
      assert mid[..m] == arrivals[..m];
    }
    forall y | y in xs
      ensures exists j :: from <= j < |mid| && IsArrival(mid[j], id, y)
    {
      var j :| from <= j <= k && IsArrival(arrivals[j], id, y);
      assert mid[j] == arrivals[j];
    }
  }
}
