/**
 The anti-replay window of encrypt.c: a 64-bit map of recent sequence numbers that agrees with the
 set of all numbers accepted so far (section 3.4.3 of RFC 4303).
 */
module AntiReplay {
  import opened Bytes
  import opened Counting

  // ---------------------------------------------------------------- bits of an unsigned word

  const WINDOW: nat := 64

  /** x & (1 << i) is not zero. */
  predicate Bit(x: nat, i: nat)
  {
    if i == 0 then x % 2 == 1 else Bit(x / 2, i - 1)
  }

  /** x | (1 << i) */
  function SetBit(x: nat, i: nat): nat
  {
    if i == 0 then (if x % 2 == 1 then x else x + 1) else 2 * SetBit(x / 2, i - 1) + x % 2
  }

  /** x << 1 in 64 bits. */
  function Double(x: u64): u64
  {
    (2 * x) % 0x1_0000_0000_0000_0000
  }

  /** x << n in 64 bits. */
  function ShiftLeft(x: u64, n: nat): u64
    decreases n
  {
    if n == 0 then x else ShiftLeft(Double(x), n - 1)
  }

  lemma {:induction false} Pow64()
    ensures Pow2(63) == 0x8000_0000_0000_0000 && Pow2(64) == 0x1_0000_0000_0000_0000
  {
    assert Pow2(8) == 0x100;
    assert Pow2(16) == 0x1_0000;
    assert Pow2(24) == 0x100_0000;
    assert Pow2(32) == 0x1_0000_0000;
    assert Pow2(40) == 0x100_0000_0000;
    assert Pow2(48) == 0x1_0000_0000_0000;
    assert Pow2(56) == 0x100_0000_0000_0000;
  }

  lemma {:induction false} BitZero(i: nat)
    ensures !Bit(0, i)
  {
    if i > 0 {
      BitZero(i - 1);
    }
  }

  lemma {:induction false} BitOfSet(x: nat, k: nat, i: nat)
    ensures Bit(SetBit(x, k), i) <==> i == k || Bit(x, i)
    decreases k
  {
    if k > 0 {
      var y := SetBit(x / 2, k - 1);
      assert (2 * y + x % 2) / 2 == y && (2 * y + x % 2) % 2 == x % 2;
      if i > 0 {
        BitOfSet(x / 2, k - 1, i - 1);
      }
    }
  }

  lemma {:induction false} SetBelow(x: nat, k: nat, n: nat)
    requires x < Pow2(n) && k < n
    ensures SetBit(x, k) < Pow2(n)
    decreases k
  {
    var p := Pow2(n - 1);
    assert Pow2(n) == 2 * p;
    hide Pow2;
    if k > 0 {
      SetBelow(x / 2, k - 1, n - 1);
      Recombined(SetBit(x / 2, k - 1), x % 2, p);
    }
  }

  lemma {:induction false} Recombined(y: nat, bit: nat, p: nat)
    requires y < p && bit < 2
    ensures 2 * y + bit < 2 * p
  {
  }

  /** Taking the top power away leaves the lower bits. */
  lemma {:induction false} BitBelow(x: nat, n: nat, i: nat)
    requires i < n && x >= Pow2(n)
    ensures Bit(x - Pow2(n), i) == Bit(x, i)
    decreases i
  {
    if i > 0 {
      BitBelow(x / 2, n - 1, i - 1);
      assert (x - 2 * Pow2(n - 1)) / 2 == x / 2 - Pow2(n - 1);
    }
  }

  lemma {:induction false} BitOfDouble(x: u64, i: nat)
    requires i < WINDOW
    ensures Bit(Double(x), i) <==> i > 0 && Bit(x, i - 1)
  {
    Pow64();
    hide Pow2;
    assert 2 * x / 2 == x;
    if x >= Pow2(63) {
      assert Double(x) == 2 * x - Pow2(64);
      BitBelow(2 * x, 64, i);
    }
  }

  lemma {:induction false} BitOfShift(x: u64, n: nat, i: nat)
    requires i < WINDOW
    ensures Bit(ShiftLeft(x, n), i) <==> i >= n && Bit(x, i - n)
    decreases n
  {
    hide Double;
    if n > 0 {
      BitOfShift(Double(x), n - 1, i);
      if i >= n - 1 {
        BitOfDouble(x, i - (n - 1));
      }
    }
  }

  // ---------------------------------------------------------------- the window as a value

  datatype Window = Window(max: u64, bitmap: u64)

  /** anti_replay_check */
  predicate Passes(w: Window, sn: u64)
  {
    if sn == 0 then false
    else if sn > w.max then true
    else w.max - sn < WINDOW && !Bit(w.bitmap, w.max - sn)
  }

  function Mark(x: u64, i: nat): (y: u64)
    requires i < WINDOW
  {
    Pow64();
    SetBelow(x, i, 64);
    SetBit(x, i)
  }

  /** anti_replay_update */
  function Marked(w: Window, sn: u64): Window
  {
    if sn > w.max then
      Window(sn, Mark(if sn - w.max < WINDOW then ShiftLeft(w.bitmap, sn - w.max) else 0, 0))
    else if w.max - sn < WINDOW then w.(bitmap := Mark(w.bitmap, w.max - sn))
    else w
  }

  /** The bitmap tells, of the last 64 numbers, exactly the accepted ones. */
  ghost predicate Agrees(w: Window, accepted: set<u64>)
  {
    && (forall x :: x in accepted ==> 1 <= x <= w.max)
    && (forall i: nat :: i < WINDOW ==> (Bit(w.bitmap, i) <==> i < w.max && (w.max - i) in accepted))
  }

  lemma {:induction false} InitialAgrees()
    ensures Agrees(Window(0, 0), {})
  {
    forall i: nat | i < WINDOW
      ensures !Bit(0, i)
    {
      BitZero(i);
    }
  }

  /** The check passes exactly for numbers that are new and not too old. */
  lemma {:induction false} CheckExact(w: Window, accepted: set<u64>, sn: u64)
    requires Agrees(w, accepted)
    ensures Passes(w, sn) <==> sn != 0 && (sn > w.max || (w.max - sn < WINDOW && sn !in accepted))
  {
    hide Bit;
    if 0 < sn <= w.max && w.max - sn < WINDOW {
      var i: nat := w.max - sn;
      assert Bit(w.bitmap, i) <==> i < w.max && (w.max - i) in accepted;
    }
  }

  lemma {:induction false} AheadAgrees(w: Window, accepted: set<u64>, sn: u64, i: nat)
    requires Agrees(w, accepted) && sn > w.max && i < WINDOW
    ensures Bit(Marked(w, sn).bitmap, i) <==> i < sn && (sn - i) in accepted + {sn}
  {
    var shift: nat := sn - w.max;
    var moved := if shift < WINDOW then ShiftLeft(w.bitmap, shift) else 0;
    BitOfSet(moved, 0, i);
    BitZero(i);
    if shift < WINDOW {
      BitOfShift(w.bitmap, shift, i);
    }
    hide Bit, SetBit, ShiftLeft;
    if i >= shift && shift < WINDOW {
      var j: nat := i - shift;
      assert Bit(w.bitmap, j) <==> j < w.max && (w.max - j) in accepted;
    }
  }

  /** Marking a number that is not too old keeps map and set in agreement. */
  lemma {:induction false} UpdateAgrees(w: Window, accepted: set<u64>, sn: u64)
    requires Agrees(w, accepted) && sn != 0 && (sn > w.max || w.max - sn < WINDOW)
    ensures Agrees(Marked(w, sn), accepted + {sn})
  {
    var w' := Marked(w, sn);
    forall i: nat | i < WINDOW
      ensures Bit(w'.bitmap, i) <==> i < w'.max && (w'.max - i) in accepted + {sn}
    {
      if sn > w.max {
        AheadAgrees(w, accepted, sn, i);
      } else {
        BitOfSet(w.bitmap, w.max - sn, i);
      }
    }
    hide Bit;
  }

  // ---------------------------------------------------------------- every run

  /** A packet that arrives: its number, and whether it decrypts. */
  datatype Arrival = Arrival(sn: u64, genuine: bool)

  datatype History = History(w: Window, accepted: seq<u64>)

  /** The receive path: check, decrypt, update. */
  function Step(h: History, a: Arrival): History
  {
    if Passes(h.w, a.sn) && a.genuine then History(Marked(h.w, a.sn), h.accepted + [a.sn]) else h
  }

  function Run(arrivals: seq<Arrival>): History
  {
    if arrivals == [] then History(Window(0, 0), [])
    else Step(Run(arrivals[..|arrivals| - 1]), arrivals[|arrivals| - 1])
  }

  /**
   In every run the window agrees with everything accepted since it was initialised, and no number is
   accepted twice.
   */
  lemma {:induction false} EveryRunAgrees(arrivals: seq<Arrival>)
    ensures Agrees(Run(arrivals).w, Elements(Run(arrivals).accepted))
    ensures Distinct(Run(arrivals).accepted)
    decreases |arrivals|
  {
    hide Agrees, Passes, Marked;
    if arrivals == [] {
      InitialAgrees();
      assert Elements<u64>([]) == {};
    } else {
      var h, a := Run(arrivals[..|arrivals| - 1]), arrivals[|arrivals| - 1];
      EveryRunAgrees(arrivals[..|arrivals| - 1]);
      CheckExact(h.w, Elements(h.accepted), a.sn);
      AboveMax(h.w, Elements(h.accepted), a.sn);
      if Passes(h.w, a.sn) && a.genuine {
        UpdateAgrees(h.w, Elements(h.accepted), a.sn);
        assert Elements(h.accepted + [a.sn]) == Elements(h.accepted) + {a.sn};
      }
    }
  }

  lemma {:induction false} AboveMax(w: Window, accepted: set<u64>, sn: u64)
    requires Agrees(w, accepted)
    ensures sn > w.max ==> sn !in accepted
  {
    hide Bit;
  }

  /** What the next arrival meets, in any run: accepted exactly when genuine, new and less than 64 behind the newest. */
  lemma {:induction false} AcceptedExactly(arrivals: seq<Arrival>, a: Arrival)
    ensures var h := Run(arrivals);
            Run(arrivals + [a]).accepted
            == if a.genuine && a.sn != 0 && a.sn !in h.accepted && a.sn + WINDOW > h.w.max
               then h.accepted + [a.sn] else h.accepted
  {
    var h := Run(arrivals);
    assert (arrivals + [a])[..|arrivals|] == arrivals;
    EveryRunAgrees(arrivals);
    hide Agrees, Passes, Marked;
    CheckExact(h.w, Elements(h.accepted), a.sn);
    AboveMax(h.w, Elements(h.accepted), a.sn);
    assert a.sn in Elements(h.accepted) <==> a.sn in h.accepted;
  }

  // ---------------------------------------------------------------- the window in place

  class ReplayWindow {
    var seqMax: u64
    var bitmap: u64
    ghost var accepted: set<u64>

    ghost function Abs(): Window
      reads this
    {
      Window(seqMax, bitmap)
    }

    ghost predicate Valid()
      reads this
    {
      Agrees(Abs(), accepted)
    }

    /** anti_replay_init */
    constructor ()
      ensures Valid() && accepted == {} && Abs() == Window(0, 0)
    {
      seqMax, bitmap, accepted := 0, 0, {};
      new;
      InitialAgrees();
    }

    /** anti_replay_check */
    method Check(sn: u64) returns (ok: bool)
      requires Valid()
      ensures ok <==> sn != 0 && (sn > seqMax || (seqMax - sn < WINDOW && sn !in accepted))
      ensures ok == Passes(Abs(), sn)
    {
      CheckExact(Abs(), accepted, sn);
      hide Agrees, Bit;
      if sn == 0 {
        return false;
      }
      if sn > seqMax {
        return true;
      }
      var offset := seqMax - sn;
      if offset >= 64 {
        return false;
      }
      if Bit(bitmap, offset) {
        return false;
      }
      return true;
    }

    /** anti_replay_update, called for numbers that passed the check. */
    method Update(sn: u64)
      requires Valid() && sn != 0 && (sn > seqMax || seqMax - sn < WINDOW)
      modifies this
      ensures Valid() && accepted == old(accepted) + {sn}
      ensures Abs() == Marked(old(Abs()), sn)
    {
      UpdateAgrees(Abs(), accepted, sn);
      hide Agrees, Mark;
      if sn > seqMax {
        var shift := sn - seqMax;
        if shift < 64 {
          bitmap := ShiftLeft(bitmap, shift);
        } else {
          bitmap := 0;
        }
        bitmap := Mark(bitmap, 0);
        seqMax := sn;
      } else {
        var offset := seqMax - sn;
        if offset < 64 {
          bitmap := Mark(bitmap, offset);
        }
      }
      accepted := accepted + {sn};
    }
  }
}
