/**
 The field GF(256) as polynomials over GF(2) modulo x^8 + x^4 + x^3 + x^2 + 1 (0x11d).

 This is the reference meaning of the table-driven arithmetic of fec.c: an octet is the
 polynomial whose coefficients are its bits, Add is exclusive or, and Mul is the carry-less
 (shift and add) product reduced by 0x11d.  Exp(n) is the n-th power of x.
 */
module Gf256 {
  import opened Bytes

  // ---------------------------------------------------------------- exclusive or

  /** Bitwise exclusive or of two natural numbers. */
  function Xor(a: nat, b: nat): nat
    decreases a + b
  {
    if a == 0 then b
    else if b == 0 then a
    else (if a % 2 == b % 2 then 0 else 1) + 2 * Xor(a / 2, b / 2)
  }

  lemma {:induction false} XorComm(a: nat, b: nat)
    ensures Xor(a, b) == Xor(b, a)
    decreases a + b
  {
    if a != 0 && b != 0 {
      XorComm(a / 2, b / 2);
    }
  }

  lemma {:induction false} XorSelf(a: nat)
    ensures Xor(a, a) == 0
  {
    if a != 0 {
      XorSelf(a / 2);
    }
  }

  /** Xor works bit by bit, whatever the operands. */
  lemma {:induction false} XorSplit(a: nat, b: nat)
    ensures Xor(a, b) % 2 == if a % 2 == b % 2 then 0 else 1
    ensures Xor(a, b) / 2 == Xor(a / 2, b / 2)
  {
    if a != 0 && b != 0 {
      var q := Xor(a / 2, b / 2);
      assert Xor(a, b) == (if a % 2 == b % 2 then 0 else 1) + 2 * q;
    }
  }

  /** A number is fixed by its low bit and the rest. */
  lemma {:induction false} HalvesEqual(a: nat, b: nat)
    requires a % 2 == b % 2 && a / 2 == b / 2
    ensures a == b
  {
  }

  lemma {:induction false} XorAssoc(a: nat, b: nat, c: nat)
    ensures Xor(Xor(a, b), c) == Xor(a, Xor(b, c))
    decreases a + b + c
  {
    if a != 0 && b != 0 && c != 0 {
      XorAssoc(a / 2, b / 2, c / 2);
      XorSplit(a, b);
      XorSplit(b, c);
      XorSplit(Xor(a, b), c);
      XorSplit(a, Xor(b, c));
      hide Xor;
      HalvesEqual(Xor(Xor(a, b), c), Xor(a, Xor(b, c)));
    }
  }

  /** The top bit of an exclusive or is the exclusive or of the top bits. */
  lemma {:induction false} XorTopBit(a: nat, b: nat, k: nat)
    requires a < 2 * Pow2(k) && b < 2 * Pow2(k)
    ensures Xor(a, b) < 2 * Pow2(k)
    ensures Xor(a, b) >= Pow2(k) <==> ((a >= Pow2(k)) != (b >= Pow2(k)))
    decreases k
  {
    if k == 0 {
      assert a <= 1 && b <= 1;
    } else {
      XorTopBit(a / 2, b / 2, k - 1);
      XorSplit(a, b);
    }
  }

  lemma {:induction false} XorByte(a: byte, b: byte)
    ensures Xor(a, b) < 256
    ensures Xor(a, b) >= 128 <==> ((a >= 128) != (b >= 128))
  {
    assert Pow2(7) == 128;
    XorTopBit(a, b, 7);
  }

  // ---------------------------------------------------------------- addition

  /** Addition and subtraction of the field. */
  function Add(a: byte, b: byte): byte
  {
    XorByte(a, b);
    Xor(a, b)
  }

  lemma {:induction false} AddComm(a: byte, b: byte)
    ensures Add(a, b) == Add(b, a)
  {
    XorComm(a, b);
  }

  lemma {:induction false} AddAssoc(a: byte, b: byte, c: byte)
    ensures Add(Add(a, b), c) == Add(a, Add(b, c))
  {
    XorAssoc(a, b, c);
  }

  lemma {:induction false} AddSelf(a: byte)
    ensures Add(a, a) == 0
    ensures Add(a, 0) == a && Add(0, a) == a
  {
    XorSelf(a);
  }

  lemma {:induction false} AddSwap(a: byte, b: byte, c: byte, d: byte)
    ensures Add(Add(a, b), Add(c, d)) == Add(Add(a, c), Add(b, d))
  {
    calc {
      Add(Add(a, b), Add(c, d));
      { AddAssoc(a, b, Add(c, d)); }
      Add(a, Add(b, Add(c, d)));
      { AddAssoc(b, c, d); AddComm(b, c); AddAssoc(c, b, d); }
      Add(a, Add(c, Add(b, d)));
      { AddAssoc(a, c, Add(b, d)); }
      Add(Add(a, c), Add(b, d));
    }
  }

  /** In characteristic two a sum vanishes only when its terms agree. */
  lemma {:induction false} AddZero(a: byte, b: byte)
    requires Add(a, b) == 0
    ensures a == b
  {
    AddAssoc(a, b, b);
    AddSelf(b);
    AddSelf(a);
  }

  lemma {:induction false} AddCancel(a: byte, b: byte)
    ensures Add(Add(a, b), b) == a
  {
    AddAssoc(a, b, b);
    AddSelf(b);
    AddSelf(a);
  }

  // ---------------------------------------------------------------- multiplication

  /** Multiplication by x, reduced modulo 0x11d. */
  function XTime(a: byte): byte
  {
    if a < 128 then 2 * a else (ReduceByte(a); Xor(2 * a, 0x11d))
  }

  lemma {:induction false} ReduceByte(a: byte)
    requires a >= 128
    ensures Xor(2 * a, 0x11d) < 256
  {
    assert Pow2(8) == 256;
    XorTopBit(2 * a, 0x11d, 8);
  }

  /** Product of two polynomials modulo 0x11d, by shift and add over the bits of b. */
  function Mul(a: byte, b: byte): byte
    decreases b
  {
    if b == 0 then 0
    else Add(if b % 2 == 1 then a else 0, Mul(XTime(a), b / 2))
  }

  lemma {:induction false} XTimeAdd(a: byte, b: byte)
    ensures XTime(Add(a, b)) == Add(XTime(a), XTime(b))
  {
    XorByte(a, b);
    XorSplit(2 * a, 2 * b);
    assert Xor(2 * a, 2 * b) == 2 * Xor(a, b);
    if a >= 128 && b >= 128 {
      XorAssoc(2 * a, 0x11d, Xor(2 * b, 0x11d));
      XorComm(2 * b, 0x11d);
      XorAssoc(0x11d, 0x11d, 2 * b);
      XorSelf(0x11d);
    } else if a >= 128 {
      XorAssoc(2 * a, 0x11d, 2 * b);
      XorComm(0x11d, 2 * b);
      XorAssoc(2 * a, 2 * b, 0x11d);
    } else if b >= 128 {
      XorAssoc(2 * a, 2 * b, 0x11d);
    }
  }

  lemma {:induction false} MulAddLeft(a: byte, a': byte, b: byte)
    ensures Mul(Add(a, a'), b) == Add(Mul(a, b), Mul(a', b))
    decreases b
  {
    if b == 0 {
      AddSelf(0);
    } else {
      MulAddLeft(XTime(a), XTime(a'), b / 2);
      XTimeAdd(a, a');
      AddSelf(0);
      AddSwap(if b % 2 == 1 then a else 0, if b % 2 == 1 then a' else 0,
              Mul(XTime(a), b / 2), Mul(XTime(a'), b / 2));
    }
  }

  lemma {:induction false} MulXTime(a: byte, b: byte)
    ensures Mul(XTime(a), b) == XTime(Mul(a, b))
    decreases b
  {
    if b != 0 {
      MulXTime(XTime(a), b / 2);
      XTimeAdd(if b % 2 == 1 then a else 0, Mul(XTime(a), b / 2));
    }
  }

  /** Multiplying by b and then by c is the same as multiplying by c and then by b. */
  lemma {:induction false} MulExchange(a: byte, b: byte, c: byte)
    ensures Mul(Mul(a, b), c) == Mul(Mul(a, c), b)
    decreases c
  {
    MulZero(b);
    if c != 0 {
      MulExchange(XTime(a), b, c / 2);
      MulXTime(a, b);
      MulAddLeft(if c % 2 == 1 then a else 0, Mul(XTime(a), c / 2), b);
    }
  }

  lemma {:induction false} MulZero(b: byte)
    ensures Mul(0, b) == 0
    decreases b
  {
    if b != 0 {
      MulZero(b / 2);
    }
  }

  lemma {:induction false} OneMul(b: byte)
    ensures Mul(1, b) == b
    decreases b
  {
    if b > 0 {
      OneMul(b / 2);
      MulXTime(1, b / 2);
      AddSelf(2 * (b / 2));
      XorSplit(1, 2 * (b / 2));
    }
  }

  lemma {:induction false} MulOne(a: byte)
    ensures Mul(1, a) == a
    ensures Mul(a, 1) == a
  {
    OneMul(a);
    assert Mul(a, 1) == Add(a, Mul(XTime(a), 0));
    AddSelf(a);
  }

  lemma {:induction false} MulComm(a: byte, b: byte)
    ensures Mul(a, b) == Mul(b, a)
  {
    MulOne(a);
    MulOne(b);
    MulExchange(1, a, b);
  }

  lemma {:induction false} MulAssoc(a: byte, b: byte, c: byte)
    ensures Mul(Mul(a, b), c) == Mul(a, Mul(b, c))
  {
    MulComm(a, b);
    MulExchange(b, a, c);
    MulComm(Mul(b, c), a);
  }

  lemma {:induction false} MulAddRight(a: byte, b: byte, c: byte)
    ensures Mul(a, Add(b, c)) == Add(Mul(a, b), Mul(a, c))
  {
    MulAddLeft(b, c, a);
    MulComm(a, b);
    MulComm(a, c);
    MulComm(a, Add(b, c));
  }

  // ---------------------------------------------------------------- powers of x

  /** The n-th power of the generator x. */
  function Exp(n: nat): byte
  {
    if n == 0 then 1 else XTime(Exp(n - 1))
  }

  lemma {:induction false} ExpAdd(m: nat, n: nat)
    ensures Exp(m + n) == Mul(Exp(m), Exp(n))
    decreases n
  {
    if n == 0 {
      MulOne(Exp(m));
    } else {
      ExpAdd(m, n - 1);
      MulComm(Exp(m), Exp(n));
      MulXTime(Exp(n - 1), Exp(m));
      MulComm(Exp(n - 1), Exp(m));
    }
  }
}
