/** Vectors and square matrices over GF(256), and the three elementary row operations. */
module Matrix {
  import opened Bytes
  import opened Gf256
  import opened GfField

  type Vec = seq<byte>

  type Mat = seq<seq<byte>>

  predicate IsSquare(m: Mat, n: nat)
  {
    |m| == n && forall i :: 0 <= i < n ==> |m[i]| == n
  }

  /** Sum of u[j] v[j] over j < k. */
  function Dot(u: Vec, v: Vec, k: nat): byte
    requires k <= |u| && k <= |v|
  {
    if k == 0 then 0 else Add(Dot(u, v, k - 1), Mul(u[k - 1], v[k - 1]))
  }

  function Column(m: Mat, j: nat, n: nat): (c: Vec)
    requires IsSquare(m, n) && j < n
    ensures |c| == n
  {
    seq(n, i requires 0 <= i < n => m[i][j])
  }

  function Apply(m: Mat, v: Vec, n: nat): (w: Vec)
    requires IsSquare(m, n) && |v| == n
    ensures |w| == n
  {
    seq(n, i requires 0 <= i < n => Dot(m[i], v, n))
  }

  function UnitVec(i: nat, n: nat): (v: Vec)
    ensures |v| == n
  {
    seq(n, j => if j == i then 1 else 0)
  }

  function ZeroVec(n: nat): (v: Vec)
    ensures |v| == n
  {
    seq(n, j => 0)
  }

  function Identity(n: nat): (m: Mat)
    ensures IsSquare(m, n)
  {
    seq(n, i requires 0 <= i < n => UnitVec(i, n))
  }

  /** c is the product b a. */
  ghost predicate IsProduct(c: Mat, b: Mat, a: Mat, n: nat)
    requires IsSquare(a, n) && IsSquare(b, n) && IsSquare(c, n)
  {
    forall i, j :: 0 <= i < n && 0 <= j < n ==> c[i][j] == Dot(b[i], Column(a, j, n), n)
  }

  /** The only vector m sends to zero is zero. */
  ghost predicate Nonsingular(m: Mat, n: nat)
    requires IsSquare(m, n)
  {
    forall v: Vec :: |v| == n && Apply(m, v, n) == ZeroVec(n) ==> v == ZeroVec(n)
  }

  // ---------------------------------------------------------------- sums of products

  lemma {:induction false} DotStep(u: Vec, v: Vec, k: nat)
    requires 0 < k <= |u| && k <= |v|
    ensures Dot(u, v, k) == Add(Dot(u, v, k - 1), Mul(u[k - 1], v[k - 1]))
  {
  }

  lemma {:induction false} DotExt(u: Vec, u': Vec, v: Vec, v': Vec, k: nat)
    requires k <= |u| && k <= |u'| && k <= |v| && k <= |v'|
    requires forall j :: 0 <= j < k ==> u[j] == u'[j] && v[j] == v'[j]
    ensures Dot(u, v, k) == Dot(u', v', k)
    decreases k
  {
    hide Add, Mul;
    if k > 0 {
      DotExt(u, u', v, v', k - 1);
    }
  }

  lemma {:induction false} DotComm(u: Vec, v: Vec, k: nat)
    requires k <= |u| && k <= |v|
    ensures Dot(u, v, k) == Dot(v, u, k)
    decreases k
  {
    hide Add, Mul;
    if k > 0 {
      DotComm(u, v, k - 1);
      MulComm(u[k - 1], v[k - 1]);
    }
  }

  /** The sum is linear in its first vector: (u + f w) . v = u . v + f (w . v). */
  lemma {:induction false} DotCombine(u: Vec, f: byte, w: Vec, r: Vec, v: Vec, k: nat)
    requires k <= |u| && k <= |w| && k <= |r| && k <= |v|
    requires forall j :: 0 <= j < k ==> r[j] == Add(u[j], Mul(w[j], f))
    ensures Dot(r, v, k) == Add(Dot(u, v, k), Mul(Dot(w, v, k), f))
    decreases k
  {
    if k == 0 {
      MulZero(f);
      AddSelf(0);
    } else {
      hide Add, Mul;
      DotCombine(u, f, w, r, v, k - 1);
      var a, b, c := u[k - 1], w[k - 1], v[k - 1];
      MulAddLeft(a, Mul(b, f), c);
      MulExchange(b, f, c);
      AddSwap(Dot(u, v, k - 1), Mul(Dot(w, v, k - 1), f), Mul(a, c), Mul(Mul(b, c), f));
      MulAddLeft(Dot(w, v, k - 1), Mul(b, c), f);
    }
  }

  lemma {:induction false} DotScale(w: Vec, f: byte, r: Vec, v: Vec, k: nat)
    requires k <= |w| && k <= |r| && k <= |v|
    requires forall j :: 0 <= j < k ==> r[j] == Mul(w[j], f)
    ensures Dot(r, v, k) == Mul(Dot(w, v, k), f)
    decreases k
  {
    if k == 0 {
      MulZero(f);
    } else {
      hide Add, Mul;
      DotScale(w, f, r, v, k - 1);
      MulExchange(w[k - 1], f, v[k - 1]);
      MulAddLeft(Dot(w, v, k - 1), Mul(w[k - 1], v[k - 1]), f);
    }
  }

  lemma {:induction false} DotZero(u: Vec, v: Vec, k: nat)
    requires k <= |u| && k <= |v|
    requires forall j :: 0 <= j < k ==> u[j] == 0 || v[j] == 0
    ensures Dot(u, v, k) == 0
    decreases k
  {
    if k > 0 {
      hide Add, Mul;
      DotZero(u, v, k - 1);
      NoZeroDivisors(u[k - 1], v[k - 1]);
      AddSelf(0);
    }
  }

  /** When only one product can be nonzero the sum is that product. */
  lemma {:induction false} DotSingle(u: Vec, v: Vec, i: nat, k: nat)
    requires i < k <= |u| && k <= |v|
    requires forall j :: 0 <= j < k && j != i ==> u[j] == 0 || v[j] == 0
    ensures Dot(u, v, k) == Mul(u[i], v[i])
    decreases k
  {
    hide Add, Mul;
    if i == k - 1 {
      DotZero(u, v, k - 1);
      AddSelf(Mul(u[i], v[i]));
    } else {
      DotSingle(u, v, i, k - 1);
      NoZeroDivisors(u[k - 1], v[k - 1]);
      AddSelf(Mul(u[i], v[i]));
    }
  }

  lemma {:induction false} DotUnit(i: nat, v: Vec, n: nat)
    requires i < n == |v|
    ensures Dot(UnitVec(i, n), v, n) == v[i]
    ensures Dot(v, UnitVec(i, n), n) == v[i]
  {
    hide Dot, Mul;
    DotSingle(UnitVec(i, n), v, i, n);
    MulOne(v[i]);
    DotComm(UnitVec(i, n), v, n);
  }

  // ---------------------------------------------------------------- products of matrices

  /** Partial row sums: the first m columns of a applied to v. */
  function Partial(a: Mat, v: Vec, n: nat, m: nat): (w: Vec)
    requires IsSquare(a, n) && |v| == n && m <= n
    ensures |w| == n
  {
    seq(n, k requires 0 <= k < n => Dot(a[k], v, m))
  }

  lemma {:induction false} SumExchange(b: Vec, a: Mat, c: Vec, v: Vec, n: nat, m: nat)
    requires IsSquare(a, n) && |b| == |c| == |v| == n && m <= n
    requires forall j :: 0 <= j < n ==> c[j] == Dot(b, Column(a, j, n), n)
    ensures Dot(c, v, m) == Dot(b, Partial(a, v, n, m), n)
    decreases m
  {
    hide Add, Mul;
    if m == 0 {
      DotZero(b, Partial(a, v, n, 0), n);
    } else {
      SumExchange(b, a, c, v, n, m - 1);
      var w, col, w' := Partial(a, v, n, m - 1), Column(a, m - 1, n), Partial(a, v, n, m);
      DotCombine(w, v[m - 1], col, w', b, n);
      DotComm(w, b, n);
      DotComm(w', b, n);
      DotComm(col, b, n);
    }
  }

  /** (b a) v = b (a v). */
  lemma {:induction false} ProductApply(c: Mat, b: Mat, a: Mat, v: Vec, n: nat)
    requires IsSquare(a, n) && IsSquare(b, n) && IsSquare(c, n) && |v| == n
    requires IsProduct(c, b, a, n)
    ensures Apply(c, v, n) == Apply(b, Apply(a, v, n), n)
  {
    hide Dot, Add, Mul;
    assert Partial(a, v, n, n) == Apply(a, v, n);
    forall i | 0 <= i < n
      ensures Dot(c[i], v, n) == Dot(b[i], Apply(a, v, n), n)
    {
      SumExchange(b[i], a, c[i], v, n, n);
    }
  }

  lemma {:induction false} ApplyZero(m: Mat, n: nat)
    requires IsSquare(m, n)
    ensures Apply(m, ZeroVec(n), n) == ZeroVec(n)
  {
    forall i | 0 <= i < n
      ensures Dot(m[i], ZeroVec(n), n) == 0
    {
      DotZero(m[i], ZeroVec(n), n);
    }
    hide Dot;
  }

  lemma {:induction false} ApplyIdentity(v: Vec, n: nat)
    requires |v| == n
    ensures Apply(Identity(n), v, n) == v
  {
    forall i | 0 <= i < n
      ensures Dot(UnitVec(i, n), v, n) == v[i]
    {
      DotUnit(i, v, n);
    }
    hide Dot;
  }

  lemma {:induction false} IdentityNonsingular(n: nat)
    ensures Nonsingular(Identity(n), n)
  {
    forall v: Vec | |v| == n && Apply(Identity(n), v, n) == ZeroVec(n)
      ensures v == ZeroVec(n)
    {
      ApplyIdentity(v, n);
    }
  }

  lemma {:induction false} IdentityProduct(a: Mat, n: nat)
    requires IsSquare(a, n)
    ensures IsProduct(a, Identity(n), a, n)
  {
    forall i, j | 0 <= i < n && 0 <= j < n
      ensures a[i][j] == Dot(Identity(n)[i], Column(a, j, n), n)
    {
      DotUnit(i, Column(a, j, n), n);
    }
    hide Dot;
  }

  function Difference(w: Vec, u: Vec, n: nat): (d: Vec)
    requires |w| == |u| == n
    ensures |d| == n
  {
    seq(n, j requires 0 <= j < n => Add(w[j], Mul(u[j], 1)))
  }

  lemma {:induction false} DifferenceDot(row: Vec, w: Vec, u: Vec, n: nat)
    requires |row| == |w| == |u| == n && Dot(row, w, n) == Dot(row, u, n)
    ensures Dot(row, Difference(w, u, n), n) == 0
  {
    hide Dot, Add, Mul;
    var d := Difference(w, u, n);
    DotCombine(w, 1, u, d, row, n);
    DotComm(w, row, n);
    DotComm(u, row, n);
    DotComm(d, row, n);
    MulOne(Dot(row, u, n));
    AddSelf(Dot(row, u, n));
  }

  lemma {:induction false} NoDifference(w: Vec, u: Vec, n: nat)
    requires |w| == |u| == n && Difference(w, u, n) == ZeroVec(n)
    ensures w == u
  {
    hide Add, Mul;
    forall j | 0 <= j < n
      ensures w[j] == u[j]
    {
      assert Difference(w, u, n)[j] == ZeroVec(n)[j] == 0;
      MulOne(u[j]);
      AddZero(w[j], u[j]);
    }
  }

  /** Equal images under a nonsingular matrix come from equal vectors. */
  lemma {:induction false} ApplyInjective(b: Mat, w: Vec, u: Vec, n: nat)
    requires IsSquare(b, n) && |u| == n && |w| == n
    requires Nonsingular(b, n) && Apply(b, w, n) == Apply(b, u, n)
    ensures w == u
  {
    hide Dot, Add, Mul, Difference;
    var d := Difference(w, u, n);
    forall i | 0 <= i < n
      ensures Dot(b[i], d, n) == 0
    {
      assert Apply(b, w, n)[i] == Apply(b, u, n)[i];
      DifferenceDot(b[i], w, u, n);
    }
    assert Apply(b, d, n) == ZeroVec(n);
    hide Apply, ZeroVec;
    NoDifference(w, u, n);
  }

  /** If b a = I and b is nonsingular then a (b u) = u for every u. */
  lemma {:induction false} RightInverse(b: Mat, a: Mat, u: Vec, n: nat)
    requires IsSquare(a, n) && IsSquare(b, n) && |u| == n
    requires IsProduct(Identity(n), b, a, n) && Nonsingular(b, n)
    ensures Apply(a, Apply(b, u, n), n) == u
  {
    hide Dot, Add, Mul;
    var w := Apply(a, Apply(b, u, n), n);
    ProductApply(Identity(n), b, a, Apply(b, u, n), n);
    ApplyIdentity(Apply(b, u, n), n);
    ApplyInjective(b, w, u, n);
  }
}
