/** Inverses and division in GF(256), from the discrete logarithm. */
module GfField {
  import opened Bytes
  import opened Gf256
  import opened GfOrder

  /** The exponent below 255 that yields b. */
  ghost function Log(b: byte): (i: nat)
    requires b != 0
    ensures i < 255 && Exp(i) == b
  {
    EveryNonzeroIsPower(b);
    var i: nat :| i < 255 && Exp(i) == b;
    i
  }

  ghost function Inv(b: byte): byte
    requires b != 0
  {
    Exp(255 - Log(b))
  }

  /** a over b; the source defines division by zero to be zero. */
  ghost function Div(a: byte, b: byte): byte
  {
    if b == 0 then 0 else Mul(a, Inv(b))
  }

  lemma {:induction false} InvMul(b: byte)
    requires b != 0
    ensures Mul(b, Inv(b)) == 1
    ensures Mul(Inv(b), b) == 1
    ensures Inv(b) != 0
  {
    var i := Log(b);
    Exp255();
    hide Exp, Log;
    ExpAdd(i, 255 - i);
    MulComm(b, Inv(b));
    MulZero(b);
  }

  /** Division undoes multiplication. */
  lemma {:induction false} DivMul(a: byte, b: byte)
    requires b != 0
    ensures Div(Mul(a, b), b) == a
    ensures Mul(Div(a, b), b) == a
  {
    InvMul(b);
    hide Inv, Mul;
    MulAssoc(a, b, Inv(b));
    MulAssoc(a, Inv(b), b);
    MulOne(a);
  }

  lemma {:induction false} NoZeroDivisors(a: byte, b: byte)
    ensures Mul(a, b) == 0 <==> a == 0 || b == 0
  {
    MulZero(b);
    MulZero(a);
    MulComm(a, b);
    if b != 0 && Mul(a, b) == 0 {
      DivMul(a, b);
      MulZero(Inv(b));
    }
  }
}
