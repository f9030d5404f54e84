/**
 Any n distinct rows of the systematic generator matrix [identity over Cauchy] are independent.

 The Cauchy part goes by elimination: removing one point (x0, y0) from a Cauchy system leaves a
 Cauchy system on the remaining points, with rescaled unknowns.
 */
module Cauchy {
  import opened Bytes
  import opened Counting
  import opened Gf256
  import opened GfField
  import opened Matrix

  // ---------------------------------------------------------------- Cauchy systems

  /** Sum of v[j] / (x + y[j]) over j < k. */
  ghost function CauchySum(x: byte, ys: Vec, v: Vec, k: nat): byte
    requires k <= |ys| && k <= |v|
  {
    if k == 0 then 0
    else Add(CauchySum(x, ys, v, k - 1), Mul(v[k - 1], Reciprocal(x, ys[k - 1])))
  }

  /** 1 / (x + y), and 0 where that is undefined. */
  ghost function Reciprocal(x: byte, y: byte): byte
  {
    Div(1, Add(x, y))
  }

  lemma {:induction false} ReciprocalSpec(x: byte, y: byte)
    requires x != y
    ensures Mul(Add(x, y), Reciprocal(x, y)) == 1 && Reciprocal(x, y) != 0
  {
    hide Add, Mul;
    AddNonzero(x, y);
    DivMul(1, Add(x, y));
    MulComm(Add(x, y), Reciprocal(x, y));
    MulZero(Add(x, y));
  }

  lemma {:induction false} AddNonzero(x: byte, y: byte)
    requires x != y
    ensures Add(x, y) != 0
  {
    if Add(x, y) == 0 {
      AddZero(x, y);
    }
  }

  /** x + y0 = (x + y) + (y + y0). */
  lemma {:induction false} AddThrough(x: byte, y: byte, y0: byte)
    ensures Add(Add(x, y), Add(y, y0)) == Add(x, y0)
  {
    hide Add;
    AddAssoc(Add(x, y), y, y0);
    AddCancel(x, y);
  }

  /** s (d + a) + (d + s) a = d (s + a) */
  lemma {:induction false} CrossTerms(d: byte, s: byte, a: byte)
    ensures Add(Mul(s, Add(d, a)), Mul(Add(d, s), a)) == Mul(d, Add(s, a))
  {
    hide Add, Mul;
    MulAddRight(s, d, a);
    MulAddLeft(d, s, a);
    MulAddRight(d, s, a);
    MulComm(s, d);
    AddComm(Mul(d, a), Mul(s, a));
    AddSwap(Mul(d, s), Mul(s, a), Mul(s, a), Mul(d, a));
    AddSelf(Mul(s, a));
    AddSelf(Mul(d, a));
    AddAssoc(Mul(d, s), Mul(s, a), Add(Mul(s, a), Mul(d, a)));
    AddAssoc(Mul(s, a), Mul(s, a), Mul(d, a));
  }

  /** (x + y0)(x0 + y) + (x0 + y0)(x + y) = (x + x0)(y + y0) */
  lemma {:induction false} CauchyNumerator(x: byte, x0: byte, y: byte, y0: byte)
    ensures Add(Mul(Add(x, y0), Add(x0, y)), Mul(Add(x0, y0), Add(x, y))) == Mul(Add(x, x0), Add(y, y0))
  {
    hide Add, Mul;
    var d, s, a := Add(x, x0), Add(x, y0), Add(x, y);
    AddComm(x, x0);
    AddThrough(x0, x, y);
    AddThrough(x0, x, y0);
    CrossTerms(d, s, a);
    AddComm(x, y);
    AddThrough(y, x, y0);
    AddComm(s, a);
  }

  /** Scaling the two sides of a product sum by reciprocals. */
  lemma {:induction false} CommonDenominator(s: byte, t: byte, a: byte, b: byte, p: byte, q: byte, v: byte)
    requires Mul(a, p) == 1 && Mul(b, q) == 1
    ensures Add(Mul(s, Mul(v, p)), Mul(t, Mul(v, q))) == Mul(Add(Mul(s, b), Mul(t, a)), Mul(Mul(v, q), p))
  {
    hide Add, Mul;
    var g := Mul(Mul(v, q), p);
    MulAddLeft(Mul(s, b), Mul(t, a), g);
    // b g = v p
    MulComm(b, g);
    MulExchange(Mul(v, q), p, b);
    MulAssoc(v, q, b);
    MulComm(q, b);
    MulOne(v);
    MulAssoc(s, b, g);
    // a g = v q
    MulComm(a, g);
    MulAssoc(Mul(v, q), p, a);
    MulComm(p, a);
    MulOne(Mul(v, q));
    MulAssoc(t, a, g);
  }

  /** The unknown after the point (x0, y0) has been eliminated: v (y + y0) / (x0 + y). */
  ghost function Rescaled(v: byte, x0: byte, y: byte, y0: byte): byte
  {
    Mul(Mul(v, Reciprocal(x0, y)), Add(y, y0))
  }

  lemma {:induction false} EliminateTerm(x: byte, x0: byte, y: byte, y0: byte, v: byte)
    requires x != y && x0 != y
    ensures Add(Mul(Add(x, y0), Mul(v, Reciprocal(x, y))), Mul(Add(x0, y0), Mul(v, Reciprocal(x0, y))))
         == Mul(Add(x, x0), Mul(Rescaled(v, x0, y, y0), Reciprocal(x, y)))
  {
    var p, q := Reciprocal(x, y), Reciprocal(x0, y);
    ReciprocalSpec(x, y);
    ReciprocalSpec(x0, y);
    hide Add, Mul, Reciprocal;
    CommonDenominator(Add(x, y0), Add(x0, y0), Add(x, y), Add(x0, y), p, q, v);
    CauchyNumerator(x, x0, y, y0);
    var d, e, u := Add(x, x0), Add(y, y0), Mul(v, q);
    MulAssoc(d, e, Mul(u, p));
    MulComm(e, Mul(u, p));
    MulExchange(u, p, e);
  }

  lemma {:induction false} SumStep(x: byte, ys: Vec, v: Vec, k: nat)
    requires 0 < k <= |ys| && k <= |v|
    ensures CauchySum(x, ys, v, k) == Add(CauchySum(x, ys, v, k - 1), Mul(v[k - 1], Reciprocal(x, ys[k - 1])))
  {
  }

  lemma {:induction false} EliminateSum(x: byte, x0: byte, y0: byte, ys: Vec, v: Vec, w: Vec, k: nat)
    requires k <= |ys| && k <= |v| && k <= |w|
    requires forall j :: 0 <= j < k ==> ys[j] != x && ys[j] != x0
    requires forall j :: 0 <= j < k ==> w[j] == Rescaled(v[j], x0, ys[j], y0)
    ensures Add(Mul(Add(x, y0), CauchySum(x, ys, v, k)), Mul(Add(x0, y0), CauchySum(x0, ys, v, k)))
         == Mul(Add(x, x0), CauchySum(x, ys, w, k))
    decreases k
  {
    var s, t, d := Add(x, y0), Add(x0, y0), Add(x, x0);
    if k == 0 {
      MulComm(s, 0);
      MulComm(t, 0);
      MulComm(d, 0);
      MulZero(s);
      MulZero(t);
      MulZero(d);
      AddSelf(0);
    } else {
      SumStep(x, ys, v, k);
      SumStep(x0, ys, v, k);
      SumStep(x, ys, w, k);
      hide Add, Mul, Reciprocal, Rescaled, CauchySum;
      EliminateSum(x, x0, y0, ys, v, w, k - 1);
      EliminateTerm(x, x0, ys[k - 1], y0, v[k - 1]);
      var a, b := CauchySum(x, ys, v, k - 1), Mul(v[k - 1], Reciprocal(x, ys[k - 1]));
      var a', b' := CauchySum(x0, ys, v, k - 1), Mul(v[k - 1], Reciprocal(x0, ys[k - 1]));
      MulAddRight(s, a, b);
      MulAddRight(t, a', b');
      AddSwap(Mul(s, a), Mul(s, b), Mul(t, a'), Mul(t, b'));
      MulAddRight(d, CauchySum(x, ys, w, k - 1), Mul(w[k - 1], Reciprocal(x, ys[k - 1])));
    }
  }

  lemma {:induction false} CauchySumZero(x: byte, ys: Vec, v: Vec, k: nat)
    requires k <= |ys| && k <= |v|
    requires forall j :: 0 <= j < k ==> ys[j] != x && v[j] == 0
    ensures CauchySum(x, ys, v, k) == 0
    decreases k
  {
    if k > 0 {
      CauchySumZero(x, ys, v, k - 1);
      MulZero(Reciprocal(x, ys[k - 1]));
      AddSelf(0);
    }
  }

  ghost predicate Apart(xs: Vec, ys: Vec, m: nat)
    requires m <= |xs| && m <= |ys|
  {
    forall i, j :: 0 <= i < m && 0 <= j < m ==> ys[j] != xs[i]
  }

  /** What the last equation says about the others' leading sums. */
  lemma {:induction false} LastTerm(x: byte, ys: Vec, v: Vec, k: nat)
    requires k < |ys| && k < |v|
    requires forall j :: 0 <= j <= k ==> ys[j] != x
    requires CauchySum(x, ys, v, k + 1) == 0
    ensures Mul(Add(x, ys[k]), CauchySum(x, ys, v, k)) == v[k]
  {
    var p := Reciprocal(x, ys[k]);
    SumStep(x, ys, v, k + 1);
    ReciprocalSpec(x, ys[k]);
    hide Add, Mul, Reciprocal, CauchySum;
    AddZero(CauchySum(x, ys, v, k), Mul(v[k], p));
    MulComm(v[k], p);
    MulAssoc(Add(x, ys[k]), p, v[k]);
    MulOne(v[k]);
  }

  lemma {:induction false} ReducedEquation(x: byte, x0: byte, ys: Vec, v: Vec, w: Vec, k: nat)
    requires k < |ys| && k < |v| && k <= |w| && x != x0
    requires forall j :: 0 <= j <= k ==> ys[j] != x && ys[j] != x0
    requires forall j :: 0 <= j < k ==> w[j] == Rescaled(v[j], x0, ys[j], ys[k])
    requires CauchySum(x, ys, v, k + 1) == 0 && CauchySum(x0, ys, v, k + 1) == 0
    ensures CauchySum(x, ys, w, k) == 0
  {
    hide Add, Mul, Reciprocal, Rescaled, CauchySum;
    LastTerm(x, ys, v, k);
    LastTerm(x0, ys, v, k);
    EliminateSum(x, x0, ys[k], ys, v, w, k);
    AddSelf(v[k]);
    AddNonzero(x, x0);
    NoZeroDivisors(Add(x, x0), CauchySum(x, ys, w, k));
  }

  lemma {:induction false} RescaledZero(v: byte, x0: byte, y: byte, y0: byte)
    requires x0 != y && y != y0 && Rescaled(v, x0, y, y0) == 0
    ensures v == 0
  {
    ReciprocalSpec(x0, y);
    hide Add, Mul, Reciprocal;
    AddNonzero(y, y0);
    NoZeroDivisors(Mul(v, Reciprocal(x0, y)), Add(y, y0));
    NoZeroDivisors(v, Reciprocal(x0, y));
  }

  ghost predicate Solves(xs: Vec, ys: Vec, v: Vec, m: nat)
    requires m <= |xs| && m <= |ys| && m <= |v|
  {
    forall i :: 0 <= i < m ==> CauchySum(xs[i], ys, v, m) == 0
  }

  /** The unknowns left when the last point has been eliminated. */
  ghost function Reduced(xs: Vec, ys: Vec, v: Vec, k: nat): (w: Vec)
    requires k < |xs| && k < |ys| && k < |v|
    ensures |w| == k
    ensures forall j :: 0 <= j < k ==> w[j] == Rescaled(v[j], xs[k], ys[j], ys[k])
  {
    seq(k, j requires 0 <= j < k => Rescaled(v[j], xs[k], ys[j], ys[k]))
  }

  lemma {:induction false} ShrinkSystem(xs: Vec, ys: Vec, v: Vec, k: nat)
    requires k < |xs| && k < |ys| && k < |v|
    requires DistinctUpto(xs, k + 1) && Apart(xs, ys, k + 1) && Solves(xs, ys, v, k + 1)
    ensures Solves(xs, ys, Reduced(xs, ys, v, k), k)
  {
    hide Rescaled, CauchySum, Reduced;
    forall i | 0 <= i < k
      ensures CauchySum(xs[i], ys, Reduced(xs, ys, v, k), k) == 0
    {
      ReducedEquation(xs[i], xs[k], ys, v, Reduced(xs, ys, v, k), k);
    }
  }

  lemma {:induction false} LastUnknown(x0: byte, ys: Vec, v: Vec, k: nat)
    requires k < |ys| && k < |v|
    requires forall j :: 0 <= j <= k ==> ys[j] != x0
    requires forall j :: 0 <= j < k ==> v[j] == 0
    requires CauchySum(x0, ys, v, k + 1) == 0
    ensures v[k] == 0
  {
    hide CauchySum;
    LastTerm(x0, ys, v, k);
    CauchySumZero(x0, ys, v, k);
    MulComm(Add(x0, ys[k]), 0);
    MulZero(Add(x0, ys[k]));
  }

  /** A square Cauchy system with distinct points has only the zero solution. */
  lemma {:induction false} CauchyNonsingular(xs: Vec, ys: Vec, v: Vec, m: nat)
    requires m <= |xs| && m <= |ys| && m <= |v|
    requires DistinctUpto(xs, m) && DistinctUpto(ys, m) && Apart(xs, ys, m) && Solves(xs, ys, v, m)
    ensures forall j :: 0 <= j < m ==> v[j] == 0
    decreases m
  {
    if m > 0 {
      var k := m - 1;
      hide CauchySum, Rescaled, Reduced;
      ShrinkSystem(xs, ys, v, k);
      CauchyNonsingular(xs, ys, Reduced(xs, ys, v, k), k);
      forall j | 0 <= j < k
        ensures v[j] == 0
      {
        RescaledZero(v[j], xs[k], ys[j], ys[k]);
      }
      assert CauchySum(xs[k], ys, v, k + 1) == 0;
      LastUnknown(xs[k], ys, v, k);
    }
  }
}
