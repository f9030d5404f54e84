/**
 The order of x in GF(256) is exactly 255, so its powers run through every nonzero element.
 That is what makes the logarithm table of fec.c total on 1..255.
 */
module GfOrder {
  import opened Bytes
  import opened Counting
  import opened Gf256

  // ---------------------------------------------------------------- evaluating powers of x

  type bit = x: int | 0 <= x < 2

  function XorBit(p: bit, q: bit): bit
  {
    if p == q then 0 else 1
  }

  lemma {:induction false} XorLow(a: nat, b: nat, p: bit, q: bit)
    ensures Xor(2 * a + p, 2 * b + q) == 2 * Xor(a, b) + XorBit(p, q)
  {
    XorSplit(2 * a + p, 2 * b + q);
    hide Xor;
    var x := Xor(2 * a + p, 2 * b + q);
    assert (2 * a + p) / 2 == a && (2 * b + q) / 2 == b && (2 * a + p) % 2 == p && (2 * b + q) % 2 == q;
    assert x == 2 * (x / 2) + x % 2;
  }

  /** A number with its four low bits spelled out, lowest first. */
  function Join(h: nat, p0: bit, p1: bit, p2: bit, p3: bit): nat
  {
    2 * (2 * (2 * (2 * h + p3) + p2) + p1) + p0
  }

  lemma {:induction false} XorJoin(a: nat, p0: bit, p1: bit, p2: bit, p3: bit, b: nat, q0: bit, q1: bit, q2: bit,
                                   q3: bit)
    ensures Xor(Join(a, p0, p1, p2, p3), Join(b, q0, q1, q2, q3))
         == Join(Xor(a, b), XorBit(p0, q0), XorBit(p1, q1), XorBit(p2, q2), XorBit(p3, q3))
  {
    hide Xor, XorBit;
    var a3, b3 := 2 * a + p3, 2 * b + q3;
    var a2, b2 := 2 * a3 + p2, 2 * b3 + q2;
    var a1, b1 := 2 * a2 + p1, 2 * b2 + q1;
    XorLow(a, b, p3, q3);
    XorLow(a3, b3, p2, q2);
    XorLow(a2, b2, p1, q1);
    XorLow(a1, b1, p0, q0);
  }

  lemma {:induction false} XorHigh(k: nat, c: nat)
    requires c < Pow2(k)
    ensures Xor(Pow2(k), c) == Pow2(k) + c
  {
    if k > 0 {
      XorHigh(k - 1, c / 2);
      XorSplit(Pow2(k), c);
    }
  }

  lemma {:induction false} XorEight(c: nat)
    requires c < 8
    ensures Xor(8 + c, 8) == c
  {
    assert Pow2(3) == 8;
    XorHigh(3, c);
    XorComm(8, c);
    XorAssoc(c, 8, 8);
    XorSelf(8);
    hide Xor;
  }

  lemma {:induction false} AddJoin(p0: bit, p1: bit, p2: bit, p3: bit, p4: bit, p5: bit, p6: bit, p7: bit,
                q0: bit, q1: bit, q2: bit, q3: bit, q4: bit, q5: bit, q6: bit, q7: bit)
    ensures Add(Join(Join(0, p4, p5, p6, p7), p0, p1, p2, p3), Join(Join(0, q4, q5, q6, q7), q0, q1, q2, q3))
         == Join(Join(0, XorBit(p4, q4), XorBit(p5, q5), XorBit(p6, q6), XorBit(p7, q7)),
                 XorBit(p0, q0), XorBit(p1, q1), XorBit(p2, q2), XorBit(p3, q3))
  {
    assert Xor(0, 0) == 0;
    hide Xor;
    XorJoin(0, p4, p5, p6, p7, 0, q4, q5, q6, q7);
    XorJoin(Join(0, p4, p5, p6, p7), p0, p1, p2, p3, Join(0, q4, q5, q6, q7), q0, q1, q2, q3);
  }

  lemma {:induction false} XTimeSmall(a: byte)
    requires a < 128
    ensures XTime(a) == 2 * a
  {
  }

  /** x times an octet whose top bit is set, from the octet's bits. */
  lemma {:induction false} XTimeJoin(c: nat, p0: bit, p1: bit, p2: bit, p3: bit)
    requires c < 8
    ensures XTime(Join(8 + c, p0, p1, p2, p3)) == Join(2 * c + XorBit(p3, 1), 1, p0, XorBit(p1, 1), XorBit(p2, 1))
  {
    var a := Join(8 + c, p0, p1, p2, p3);
    XorEight(c);
    XorLow(8 + c, 8, p3, 1);
    XorJoin(2 * (8 + c) + p3, 0, p0, p1, p2, 17, 1, 0, 1, 1);
    assert XTime(a) == Xor(2 * a, 0x11d);
    hide Xor, XTime;
  }

  function Doubled(e: nat, k: nat): nat
  {
    if k == 0 then e else 2 * Doubled(e, k - 1)
  }

  lemma {:induction false} DoublingSteps(n: nat, e: byte, k: nat)
    requires Exp(n) == e && Doubled(e, k) < 256
    ensures Exp(n + k) == Doubled(e, k)
    decreases k
  {
    if k > 0 {
      DoublingSteps(n, e, k - 1);
      assert Exp(n + k) == XTime(Exp(n + k - 1));
      hide Xor;
    }
  }

  /** k doublings without overflow followed by one reduction. */
  lemma {:induction false} Step(n: nat, e: byte, k: nat, c: nat, p0: bit, p1: bit, p2: bit, p3: bit, r: byte)
    requires Exp(n) == e && c < 8 && Doubled(e, k) == Join(8 + c, p0, p1, p2, p3)
    requires r == Join(2 * c + XorBit(p3, 1), 1, p0, XorBit(p1, 1), XorBit(p2, 1))
    ensures Exp(n + k + 1) == r
  {
    DoublingSteps(n, e, k);
    XTimeJoin(c, p0, p1, p2, p3);
    assert Exp(n + k + 1) == XTime(Exp(n + k));
    hide Xor, XTime;
  }

  lemma {:induction false} Exp0()
    ensures Exp(0) == 1
  {
  }

  lemma {:induction false} Exp15()
    ensures Exp(15) == 38
  {
    Exp0();
    hide Exp;
    Step(0, 1, 7, 0, 0, 0, 0, 0, 29);
    Step(8, 29, 3, 6, 0, 0, 0, 1, 205);
    Step(12, 205, 0, 4, 1, 0, 1, 1, 135);
    Step(13, 135, 0, 0, 1, 1, 1, 0, 19);
    DoublingSteps(14, 19, 1);
  }

  lemma {:induction false} Exp34()
    ensures Exp(34) == 78
  {
    Exp15();
    hide Exp;
    Step(15, 38, 2, 1, 0, 0, 0, 1, 45);
    Step(18, 45, 2, 3, 0, 0, 1, 0, 117);
    Step(21, 117, 1, 6, 0, 1, 0, 1, 201);
    Step(23, 201, 0, 4, 1, 0, 0, 1, 143);
    Step(24, 143, 0, 0, 1, 1, 1, 1, 3);
    Step(25, 3, 6, 4, 0, 0, 0, 0, 157);
    Step(32, 157, 0, 1, 1, 0, 1, 1, 39);
    DoublingSteps(33, 39, 1);
  }

  lemma {:induction false} Exp51()
    ensures Exp(51) == 10
  {
    Exp34();
    hide Exp;
    Step(34, 78, 1, 1, 0, 0, 1, 1, 37);
    Step(36, 37, 2, 1, 0, 0, 1, 0, 53);
    Step(39, 53, 2, 5, 0, 0, 1, 0, 181);
    Step(42, 181, 0, 3, 1, 0, 1, 0, 119);
    Step(43, 119, 1, 6, 0, 1, 1, 1, 193);
    Step(45, 193, 0, 4, 1, 0, 0, 0, 159);
    Step(46, 159, 0, 1, 1, 1, 1, 1, 35);
    Step(47, 35, 2, 0, 0, 0, 1, 1, 5);
    DoublingSteps(50, 5, 1);
  }

  lemma {:induction false} Exp85()
    ensures Exp(85) == 214
  {
    hide Exp, Xor, XTime, Add;
    Exp34();
    Exp51();
    ExpAdd(34, 51);
    XTimeSmall(78);
    XTimeJoin(1, 0, 0, 1, 1);
    XTimeSmall(37);
    AddSelf(74);
    AddJoin(0, 0, 1, 1, 1, 0, 0, 1, 0, 1, 0, 1, 0, 0, 1, 0);
    AddSelf(214);
    assert Mul(74, 1) == 74;
    assert Mul(37, 2) == 74;
    assert Mul(156, 5) == 214;
    assert Mul(78, 10) == 214;
  }

  lemma {:induction false} Exp102()
    ensures Exp(102) == 68
  {
    hide Exp, Xor, XTime, Add;
    Exp51();
    ExpAdd(51, 51);
    XTimeSmall(10);
    XTimeSmall(20);
    XTimeSmall(40);
    AddSelf(80);
    AddJoin(0, 0, 1, 0, 1, 0, 0, 0, 0, 0, 0, 0, 1, 0, 1, 0);
    AddSelf(68);
    assert Mul(80, 1) == 80;
    assert Mul(40, 2) == 80;
    assert Mul(20, 5) == 68;
    assert Mul(10, 10) == 68;
  }

  lemma {:induction false} Exp204()
    ensures Exp(204) == 221
  {
    hide Exp, Xor, XTime, Add;
    Exp102();
    ExpAdd(102, 102);
    XTimeSmall(68);
    XTimeJoin(0, 0, 0, 0, 1);
    XTimeSmall(13);
    XTimeSmall(26);
    XTimeSmall(52);
    XTimeSmall(104);
    AddSelf(208);
    AddJoin(1, 0, 1, 1, 0, 0, 0, 0, 0, 0, 0, 0, 1, 0, 1, 1);
    AddSelf(221);
    assert Mul(208, 1) == 208;
    assert Mul(104, 2) == 208;
    assert Mul(52, 4) == 208;
    assert Mul(26, 8) == 208;
    assert Mul(13, 17) == 221;
    assert Mul(136, 34) == 221;
    assert Mul(68, 68) == 221;
  }

  lemma {:induction false} Exp255()
    ensures Exp(255) == 1
  {
    hide Exp, Xor, XTime, Add;
    Exp204();
    Exp51();
    ExpAdd(204, 51);
    XTimeJoin(5, 1, 0, 1, 1);
    XTimeJoin(2, 1, 1, 1, 0);
    XTimeSmall(83);
    AddSelf(166);
    AddJoin(1, 1, 1, 0, 0, 1, 0, 1, 0, 1, 1, 0, 0, 1, 0, 1);
    AddSelf(1);
    assert Mul(166, 1) == 166;
    assert Mul(83, 2) == 166;
    assert Mul(167, 5) == 1;
    assert Mul(221, 10) == 1;
  }

  // ---------------------------------------------------------------- the order of x

  lemma {:induction false} Period(n: nat)
    ensures Exp(n + 255) == Exp(n)
  {
    Exp255();
    hide Exp;
    ExpAdd(n, 255);
    MulOne(Exp(n));
  }

  lemma {:induction false} ExpMod(n: nat)
    ensures Exp(n % 255) == Exp(n)
    decreases n
  {
    hide Exp;
    if n >= 255 {
      ExpMod(n - 255);
      Period(n - 255);
    }
  }

  lemma {:induction false} PeriodMultiple(d: nat, k: nat)
    requires Exp(d) == 1
    ensures k * d >= 0 && Exp(k * d) == 1
    decreases k
  {
    if k == 0 {
      assert k * d == 0;
    } else {
      hide Exp;
      assert k * d == (k - 1) * d + d;
      PeriodMultiple(d, k - 1);
      ExpAdd((k - 1) * d, d);
      MulOne(1);
    }
  }

  /** A period d that k turns into m modulo 255 makes m a period as well. */
  lemma {:induction false} PeriodReaches(d: nat, k: nat, m: nat)
    requires Exp(d) == 1 && k * d >= 0 && k * d % 255 == m
    ensures Exp(m) == 1
  {
    PeriodMultiple(d, k);
    ExpMod(k * d);
    hide Exp;
  }

  /** The k with 15 k d = 15 modulo 255, by d modulo 17. */
  const INVERSES_MOD_17: seq<nat> := [0, 1, 9, 6, 13, 7, 3, 5, 15, 2, 12, 14, 10, 4, 11, 8, 16]

  lemma {:induction false} OneMoreThan17(k: nat, t: nat, j: nat, u: nat)
    requires k * j == 17 * u + 1
    ensures 15 * k * (17 * t + j) == 255 * (k * t + u) + 15
  {
    assert k * (17 * t + j) == 17 * (k * t) + k * j;
  }

  lemma {:induction false} NotMultipleOf17(d: nat)
    requires d % 17 != 0
    ensures Exp(d) != 1
  {
    Exp15();
    hide Exp;
    if Exp(d) == 1 {
      var t, j := d / 17, d % 17;
      var k := INVERSES_MOD_17[j];
      assert k * j % 17 == 1;
      var u := k * j / 17;
      OneMoreThan17(k, t, j, u);
      PeriodReaches(d, 15 * k, 15);
    }
  }

  /** k j = 1 modulo 5, so 51 k d = 51 modulo 255. */
  lemma {:induction false} OneMoreThan5(k: nat, t: nat, j: nat, u: nat)
    requires k * j == 5 * u + 1
    ensures 51 * k * (5 * t + j) == 255 * (k * t + u) + 51 && 51 * k * (5 * t + j) % 255 == 51
  {
    assert k * (5 * t + j) == 5 * (k * t) + k * j;
    Remainder51(k * t + u);
  }

  lemma {:induction false} Remainder51(x: nat)
    ensures (255 * x + 51) % 255 == 51
  {
  }

  lemma {:induction false} NotMultipleOf5(d: nat)
    requires d % 5 != 0
    ensures Exp(d) != 1
  {
    Exp51();
    hide Exp;
    if Exp(d) == 1 {
      var t, j := d / 5, d % 5;
      var k, u := if j == 1 then 1 else if j == 2 then 3 else if j == 3 then 2 else 4,
                  if j == 1 then 0 else if j == 4 then 3 else 1;
      assert k * j == 5 * u + 1;
      OneMoreThan5(k, t, j, u);
      PeriodReaches(d, 51 * k, 51);
    }
  }

  lemma {:induction false} NotMultipleOf3(d: nat)
    requires d % 3 != 0
    ensures Exp(d) != 1
  {
    Exp85();
    hide Exp;
    if Exp(d) == 1 {
      PeriodReaches(d, if d % 3 == 1 then 85 else 170, 85);
    }
  }

  /** The powers of x return to 1 at 255 and not before. */
  lemma {:induction false} OrderIs255(d: nat)
    requires 0 < d <= 255
    ensures Exp(d) == 1 <==> d == 255
  {
    if d == 255 {
      Exp255();
    } else if d % 17 != 0 {
      NotMultipleOf17(d);
    } else if d % 5 != 0 {
      NotMultipleOf5(d);
    } else {
      NotMultipleOf3(d);
    }
  }

  lemma {:induction false} ExpInverse(n: nat) returns (q: byte)
    ensures Mul(Exp(n), q) == 1
  {
    Exp255();
    ExpMod(n);
    hide Exp;
    q := Exp(255 - n % 255);
    ExpAdd(n % 255, 255 - n % 255);
  }

  lemma {:induction false} ExpNonzero(n: nat)
    ensures Exp(n) != 0
  {
    hide Exp;
    var q := ExpInverse(n);
    MulZero(q);
  }

  /** Powers less than a period apart are different. */
  lemma {:induction false} ExpInjective(i: nat, j: nat)
    requires i < j < i + 255
    ensures Exp(i) != Exp(j)
  {
    hide Exp, Mul;
    OrderIs255(j - i);
    var q := ExpInverse(i);
    ExpAdd(j - i, i);
    MulAssoc(Exp(j - i), Exp(i), q);
    MulOne(Exp(j - i));
  }

  // ---------------------------------------------------------------- every nonzero element is a power

  function Powers(n: nat): set<byte>
    requires n <= 255
  {
    if n == 0 then {} else Powers(n - 1) + {Exp(n - 1)}
  }

  lemma {:induction false} PowersAre(n: nat, b: byte)
    requires n <= 255
    ensures b in Powers(n) <==> exists i: nat :: i < n && Exp(i) == b
  {
    if n > 0 {
      PowersAre(n - 1, b);
      hide Exp;
      if b == Exp(n - 1) {
        assert exists i: nat :: i < n && Exp(i) == b;
      }
    }
  }

  lemma {:induction false} PowersCount(n: nat)
    requires n <= 255
    ensures |Powers(n)| == n
  {
    if n > 0 {
      PowersCount(n - 1);
      PowersAre(n - 1, Exp(n - 1));
      forall i: nat | i < n - 1 ensures Exp(i) != Exp(n - 1) {
        ExpInjective(i, n - 1);
      }
      hide Exp;
    }
  }

  lemma {:induction false} ZeroIsNoPower()
    ensures 0 !in Powers(255)
  {
    PowersAre(255, 0);
    hide Powers;
    forall i: nat | i < 255 ensures Exp(i) != 0 {
      ExpNonzero(i);
    }
  }

  /** Each nonzero octet has a discrete logarithm below 255. */
  lemma {:induction false} EveryNonzeroIsPower(b: byte)
    requires b != 0
    ensures exists i: nat :: i < 255 && Exp(i) == b
  {
    hide Exp, Powers, Below;
    PowersCount(255);
    PowersAre(255, b);
    ZeroIsNoPower();
    if b !in Powers(255) {
      SubsetSize<nat>(Powers(255) + {0, b}, Below(256));
      assert false;
    }
  }
}
