/** Inversion of a square matrix over GF(256) in place, by Gauss-Jordan elimination (gf_invert_matrix). */
module GaussJordan {
  import opened Bytes
  import opened Gf256
  import opened GfField
  import opened GfTables
  import opened Matrix

  // ---------------------------------------------------------------- row operations on values

  function Swapped(m: Mat, i: nat, p: nat): (s: Mat)
    requires i < |m| && p < |m|
    ensures |s| == |m|
    ensures forall r :: 0 <= r < |m| ==> s[r] == m[if r == i then p else if r == p then i else r]
  {
    m[i := m[p]][p := m[i]]
  }

  function Scaled(r: Vec, f: byte): (s: Vec)
    ensures |s| == |r|
  {
    seq(|r|, j requires 0 <= j < |r| => Mul(r[j], f))
  }

  /** u + f w */
  function Combined(u: Vec, f: byte, w: Vec): (s: Vec)
    requires |u| == |w|
    ensures |s| == |u|
  {
    seq(|u|, j requires 0 <= j < |u| => Add(u[j], Mul(w[j], f)))
  }

  /** Elimination has reached a with accumulated operations b: a is b times the original, and b loses nothing. */
  ghost predicate Reached(original: Mat, a: Mat, b: Mat, n: nat)
  {
    && IsSquare(original, n) && IsSquare(a, n) && IsSquare(b, n)
    && IsProduct(a, b, original, n)
    && Nonsingular(b, n)
  }

  /** The first k columns are those of the identity. */
  ghost predicate ColumnsDone(m: Mat, n: nat, k: nat)
  {
    && IsSquare(m, n) && k <= n
    && forall r, c :: 0 <= r < n && 0 <= c < k ==> m[r][c] == if r == c then 1 else 0
  }

  /** Column k is done in every row below row and in row k itself. */
  ghost predicate ColumnCleared(m: Mat, n: nat, k: nat, row: nat)
  {
    && IsSquare(m, n) && k < n && row <= n
    && m[k][k] == 1
    && forall r :: 0 <= r < row && r != k ==> m[r][k] == 0
  }

  lemma {:induction false} ApplyIsZero(m: Mat, v: Vec, n: nat)
    requires IsSquare(m, n) && |v| == n
    ensures Apply(m, v, n) == ZeroVec(n) <==> forall r :: 0 <= r < n ==> Dot(m[r], v, n) == 0
  {
    hide Dot;
    if Apply(m, v, n) == ZeroVec(n) {
      forall r | 0 <= r < n
        ensures Dot(m[r], v, n) == 0
      {
        assert Apply(m, v, n)[r] == ZeroVec(n)[r];
      }
    }
  }

  lemma {:induction false} SwapKernel(b: Mat, n: nat, i: nat, p: nat, v: Vec)
    requires IsSquare(b, n) && |v| == n && i < n && p < n
    requires Apply(Swapped(b, i, p), v, n) == ZeroVec(n)
    ensures Apply(b, v, n) == ZeroVec(n)
  {
    hide Dot, Mul, Add, Apply, ZeroVec, Swapped;
    var b' := Swapped(b, i, p);
    ApplyIsZero(b', v, n);
    forall r | 0 <= r < n
      ensures Dot(b[r], v, n) == 0
    {
      var r' := if r == i then p else if r == p then i else r;
      assert b'[r'] == b[r];
    }
    ApplyIsZero(b, v, n);
  }

  lemma {:induction false} SwapNonsingular(b: Mat, n: nat, i: nat, p: nat)
    requires IsSquare(b, n) && Nonsingular(b, n) && i < n && p < n
    ensures IsSquare(Swapped(b, i, p), n)
    ensures Nonsingular(Swapped(b, i, p), n)
  {
    hide Dot, Mul, Add, Apply, ZeroVec, Swapped;
    var b' := Swapped(b, i, p);
    forall v: Vec | |v| == n && Apply(b', v, n) == ZeroVec(n)
      ensures v == ZeroVec(n)
    {
      SwapKernel(b, n, i, p, v);
    }
  }

  lemma {:induction false} SwapReached(o: Mat, a: Mat, b: Mat, n: nat, i: nat, p: nat)
    requires Reached(o, a, b, n) && i < n && p < n
    ensures Reached(o, Swapped(a, i, p), Swapped(b, i, p), n)
  {
    hide Dot, Mul, Add, Nonsingular;
    SwapNonsingular(b, n, i, p);
  }

  lemma {:induction false} ScaleProduct(o: Mat, a: Mat, b: Mat, n: nat, i: nat, f: byte)
    requires IsSquare(o, n) && IsSquare(a, n) && IsSquare(b, n) && IsProduct(a, b, o, n)
    requires i < n && f != 0
    ensures IsProduct(a[i := Scaled(a[i], f)], b[i := Scaled(b[i], f)], o, n)
  {
    hide Dot, Mul, Add, Column;
    var a', b' := a[i := Scaled(a[i], f)], b[i := Scaled(b[i], f)];
    forall r, j | 0 <= r < n && 0 <= j < n
      ensures a'[r][j] == Dot(b'[r], Column(o, j, n), n)
    {
      if r == i {
        DotScale(b[i], f, b'[i], Column(o, j, n), n);
      }
    }
  }

  lemma {:induction false} ScaleKernel(b: Mat, n: nat, i: nat, f: byte, v: Vec)
    requires IsSquare(b, n) && |v| == n && i < n && f != 0
    requires Apply(b[i := Scaled(b[i], f)], v, n) == ZeroVec(n)
    ensures Apply(b, v, n) == ZeroVec(n)
  {
    hide Dot, Mul, Add, Apply, ZeroVec;
    var b' := b[i := Scaled(b[i], f)];
    ApplyIsZero(b', v, n);
    forall r | 0 <= r < n
      ensures Dot(b[r], v, n) == 0
    {
      assert Dot(b'[r], v, n) == 0;
      if r == i {
        DotScale(b[i], f, b'[i], v, n);
        NoZeroDivisors(Dot(b[i], v, n), f);
      }
    }
    ApplyIsZero(b, v, n);
  }

  lemma {:induction false} ScaleNonsingular(b: Mat, n: nat, i: nat, f: byte)
    requires IsSquare(b, n) && Nonsingular(b, n) && i < n && f != 0
    ensures Nonsingular(b[i := Scaled(b[i], f)], n)
  {
    hide Dot, Mul, Add, Apply, ZeroVec;
    var b' := b[i := Scaled(b[i], f)];
    forall v: Vec | |v| == n && Apply(b', v, n) == ZeroVec(n)
      ensures v == ZeroVec(n)
    {
      ScaleKernel(b, n, i, f, v);
    }
  }

  lemma {:induction false} ScaleReached(o: Mat, a: Mat, b: Mat, n: nat, i: nat, f: byte)
    requires Reached(o, a, b, n) && i < n && f != 0
    ensures Reached(o, a[i := Scaled(a[i], f)], b[i := Scaled(b[i], f)], n)
  {
    hide Dot, Mul, Add, Nonsingular, IsProduct;
    ScaleProduct(o, a, b, n, i, f);
    ScaleNonsingular(b, n, i, f);
  }

  lemma {:induction false} CombineProduct(o: Mat, a: Mat, b: Mat, n: nat, row: nat, i: nat, f: byte)
    requires IsSquare(o, n) && IsSquare(a, n) && IsSquare(b, n) && IsProduct(a, b, o, n)
    requires i < n && row < n && row != i
    ensures IsProduct(a[row := Combined(a[row], f, a[i])], b[row := Combined(b[row], f, b[i])], o, n)
  {
    hide Dot, Mul, Add, Column;
    var a', b' := a[row := Combined(a[row], f, a[i])], b[row := Combined(b[row], f, b[i])];
    forall r, j | 0 <= r < n && 0 <= j < n
      ensures a'[r][j] == Dot(b'[r], Column(o, j, n), n)
    {
      if r == row {
        DotCombine(b[row], f, b[i], b'[row], Column(o, j, n), n);
      }
    }
  }

  lemma {:induction false} CombineKernel(b: Mat, n: nat, row: nat, i: nat, f: byte, v: Vec)
    requires IsSquare(b, n) && |v| == n && i < n && row < n && row != i
    requires Apply(b[row := Combined(b[row], f, b[i])], v, n) == ZeroVec(n)
    ensures Apply(b, v, n) == ZeroVec(n)
  {
    hide Dot, Mul, Add, Apply, ZeroVec;
    var b' := b[row := Combined(b[row], f, b[i])];
    ApplyIsZero(b', v, n);
    forall r | 0 <= r < n
      ensures Dot(b[r], v, n) == 0
    {
      assert Dot(b'[r], v, n) == 0 && Dot(b'[i], v, n) == 0;
      if r == row {
        DotCombine(b[row], f, b[i], b'[row], v, n);
        NoZeroDivisors(Dot(b[i], v, n), f);
        AddSelf(Dot(b[row], v, n));
      }
    }
    ApplyIsZero(b, v, n);
  }

  lemma {:induction false} SmallerKernel(b: Mat, b': Mat, n: nat)
    requires IsSquare(b, n) && IsSquare(b', n) && Nonsingular(b, n)
    requires forall v: Vec :: |v| == n && Apply(b', v, n) == ZeroVec(n) ==> Apply(b, v, n) == ZeroVec(n)
    ensures Nonsingular(b', n)
  {
    hide Apply, ZeroVec, IsSquare;
  }

  lemma {:induction false} CombineNonsingular(b: Mat, n: nat, row: nat, i: nat, f: byte)
    requires IsSquare(b, n) && Nonsingular(b, n) && i < n && row < n && row != i
    ensures IsSquare(b[row := Combined(b[row], f, b[i])], n)
    ensures Nonsingular(b[row := Combined(b[row], f, b[i])], n)
  {
    var b' := b[row := Combined(b[row], f, b[i])];
    assert IsSquare(b', n);
    hide *;
    forall v: Vec | |v| == n && Apply(b', v, n) == ZeroVec(n)
      ensures Apply(b, v, n) == ZeroVec(n)
    {
      CombineKernel(b, n, row, i, f, v);
    }
    SmallerKernel(b, b', n);
  }

  lemma {:induction false} CombineReached(o: Mat, a: Mat, b: Mat, n: nat, row: nat, i: nat, f: byte)
    requires Reached(o, a, b, n) && i < n && row < n && row != i
    ensures Reached(o, a[row := Combined(a[row], f, a[i])], b[row := Combined(b[row], f, b[i])], n)
  {
    hide Dot, Mul, Add, Nonsingular, IsProduct;
    CombineProduct(o, a, b, n, row, i, f);
    CombineNonsingular(b, n, row, i, f);
  }

  // ---------------------------------------------------------------- effect on the columns

  lemma {:induction false} SwapColumns(a: Mat, n: nat, i: nat, p: nat)
    requires ColumnsDone(a, n, i) && i <= p < n
    ensures ColumnsDone(Swapped(a, i, p), n, i)
  {
  }

  lemma {:induction false} ScaleColumns(a: Mat, n: nat, i: nat, f: byte)
    requires ColumnsDone(a, n, i) && i < n
    ensures ColumnsDone(a[i := Scaled(a[i], f)], n, i)
  {
    MulZero(f);
    hide Mul;
  }

  lemma {:induction false} CombineColumns(a: Mat, n: nat, row: nat, i: nat)
    requires ColumnsDone(a, n, i) && ColumnCleared(a, n, i, row) && row < n && row != i
    ensures var a' := a[row := Combined(a[row], a[row][i], a[i])];
            ColumnsDone(a', n, i) && ColumnCleared(a', n, i, row + 1)
  {
    hide Mul, Add;
    var f := a[row][i];
    var a' := a[row := Combined(a[row], f, a[i])];
    forall c | 0 <= c < i
      ensures a'[row][c] == a[row][c]
    {
      MulZero(f);
      AddSelf(a[row][c]);
    }
    MulOne(f);
    AddSelf(f);
  }

  // ---------------------------------------------------------------- the two outcomes

  lemma {:induction false} DotTail(u: Vec, v: Vec, k: nat, n: nat)
    requires k <= n <= |u| && n <= |v|
    requires forall j :: k <= j < n ==> v[j] == 0
    ensures Dot(u, v, n) == Dot(u, v, k)
    decreases n
  {
    hide Mul, Add;
    if k < n {
      DotTail(u, v, k, n - 1);
      NoZeroDivisors(u[n - 1], v[n - 1]);
      AddSelf(Dot(u, v, n - 1));
    }
  }

  /** The vector a singular column hands back: column i above the diagonal, then 1, then zeros. */
  function KernelVec(m: Mat, n: nat, i: nat): (v: Vec)
    requires IsSquare(m, n) && i < n
    ensures |v| == n && v[i] == 1
  {
    seq(n, k requires 0 <= k < n => if k < i then m[k][i] else if k == i then 1 else 0)
  }

  lemma {:induction false} KernelOfStuck(m: Mat, n: nat, i: nat)
    requires ColumnsDone(m, n, i) && i < n
    requires forall r :: i <= r < n ==> m[r][i] == 0
    ensures Apply(m, KernelVec(m, n, i), n) == ZeroVec(n)
  {
    hide Mul, Add;
    var v := KernelVec(m, n, i);
    forall r | 0 <= r < n
      ensures Dot(m[r], v, n) == 0
    {
      DotTail(m[r], v, i + 1, n);
      MulOne(m[r][i]);
      AddSelf(m[r][i]);
      if r < i {
        DotSingle(m[r], v, r, i);
        MulOne(v[r]);
      } else {
        DotZero(m[r], v, i);
      }
    }
    hide Dot;
  }

  /** A nonzero vector that m sends to zero. */
  ghost predicate Kills(m: Mat, n: nat, v: Vec)
    requires IsSquare(m, n)
  {
    |v| == n && v != ZeroVec(n) && Apply(m, v, n) == ZeroVec(n)
  }

  lemma {:induction false} StuckIsSingular(o: Mat, a: Mat, b: Mat, n: nat, i: nat)
    requires Reached(o, a, b, n) && ColumnsDone(a, n, i) && i < n
    requires forall r :: i <= r < n ==> a[r][i] == 0
    ensures Kills(o, n, KernelVec(a, n, i))
  {
    hide Dot, Mul, Add;
    var v := KernelVec(a, n, i);
    KernelOfStuck(a, n, i);
    ProductApply(a, b, o, v, n);
    assert v[i] != ZeroVec(n)[i];
  }

  lemma {:induction false} DoneIsIdentity(a: Mat, n: nat)
    requires ColumnsDone(a, n, n)
    ensures a == Identity(n)
  {
    forall r | 0 <= r < n
      ensures a[r] == Identity(n)[r]
    {
    }
  }

  // ---------------------------------------------------------------- row operations on arrays

  ghost function RowOf(m: array2<byte>, i: nat): (r: Vec)
    requires i < m.Length0
    reads m
    ensures |r| == m.Length1
  {
    seq(m.Length1, j requires 0 <= j < m.Length1 reads m => m[i, j])
  }

  ghost function Rows(m: array2<byte>): (r: Mat)
    reads m
    ensures |r| == m.Length0 && forall i :: 0 <= i < |r| ==> |r[i]| == m.Length1
  {
    seq(m.Length0, i requires 0 <= i < m.Length0 reads m => RowOf(m, i))
  }

  method SwapRows(m: array2<byte>, i: nat, p: nat)
    requires i < m.Length0 && p < m.Length0
    modifies m
    ensures Rows(m) == Swapped(old(Rows(m)), i, p)
  {
    var j := 0;
    while j < m.Length1
      invariant 0 <= j <= m.Length1
      invariant forall r, c :: 0 <= r < m.Length0 && 0 <= c < m.Length1 ==>
                  m[r, c] == if c < j && r == i then old(m[p, c])
                             else if c < j && r == p then old(m[i, c]) else old(m[r, c])
    {
      var tmp := m[i, j];
      m[i, j] := m[p, j];
      m[p, j] := tmp;
      j := j + 1;
    }
    assert forall r :: 0 <= r < m.Length0 ==> Rows(m)[r] == Swapped(old(Rows(m)), i, p)[r];
  }

  method ScaleRow(t: Tables, m: array2<byte>, i: nat, f: byte)
    requires t.Ready() && i < m.Length0
    modifies m
    ensures Rows(m) == old(Rows(m))[i := Scaled(old(Rows(m))[i], f)]
  {
    hide Mul;
    var j := 0;
    while j < m.Length1
      invariant 0 <= j <= m.Length1
      invariant forall r, c :: 0 <= r < m.Length0 && 0 <= c < m.Length1 ==>
                  m[r, c] == if r == i && c < j then Mul(old(m[r, c]), f) else old(m[r, c])
    {
      m[i, j] := t.GfMul(m[i, j], f);
      j := j + 1;
    }
    assert forall r :: 0 <= r < m.Length0 ==> Rows(m)[r] == old(Rows(m))[i := Scaled(old(Rows(m))[i], f)][r];
  }

  method CombineRow(t: Tables, m: array2<byte>, row: nat, i: nat, f: byte)
    requires t.Ready() && i < m.Length0 && row < m.Length0 && row != i
    modifies m
    ensures Rows(m) == old(Rows(m))[row := Combined(old(Rows(m))[row], f, old(Rows(m))[i])]
  {
    hide Mul, Add;
    var j := 0;
    while j < m.Length1
      invariant 0 <= j <= m.Length1
      invariant forall r, c :: 0 <= r < m.Length0 && 0 <= c < m.Length1 ==>
                  m[r, c] == if r == row && c < j then Add(old(m[r, c]), Mul(old(m[i, c]), f)) else old(m[r, c])
    {
      m[row, j] := Add(m[row, j], t.GfMul(m[i, j], f));
      j := j + 1;
    }
    assert forall r :: 0 <= r < m.Length0 ==>
           Rows(m)[r] == old(Rows(m))[row := Combined(old(Rows(m))[row], f, old(Rows(m))[i])][r];
  }

  // ---------------------------------------------------------------- the inversion

  method SetIdentity(m: array2<byte>)
    requires m.Length0 == m.Length1
    modifies m
    ensures Rows(m) == Identity(m.Length0)
  {
    forall i, j | 0 <= i < m.Length0 && 0 <= j < m.Length1 {
      m[i, j] := 0;
    }
    var n := m.Length0;
    var i := 0;
    while i < n
      invariant 0 <= i <= n
      invariant forall r, c :: 0 <= r < n && 0 <= c < n ==> m[r, c] == if r == c && r < i then 1 else 0
    {
      m[i, i] := 1;
      i := i + 1;
    }
    assert forall r :: 0 <= r < n ==> Rows(m)[r] == Identity(n)[r];
  }

  /** Clear column i in every row but row i. */
  method ClearColumn(t: Tables, a: array2<byte>, b: array2<byte>, i: nat, ghost o: Mat)
    requires t.Ready() && a != b
    requires Reached(o, Rows(a), Rows(b), a.Length0) && i < a.Length0
    requires ColumnsDone(Rows(a), a.Length0, i) && a[i, i] == 1
    modifies a, b
    ensures Reached(o, Rows(a), Rows(b), a.Length0)
    ensures ColumnsDone(Rows(a), a.Length0, i + 1)
  {
    hide Mul, Add, IsProduct, Nonsingular;
    var n := a.Length0;
    var row := 0;
    assert ColumnCleared(Rows(a), n, i, 0);
    while row < n
      invariant 0 <= row <= n && t.Ready()
      invariant Reached(o, Rows(a), Rows(b), n)
      invariant ColumnsDone(Rows(a), n, i)
      invariant ColumnCleared(Rows(a), n, i, row)
    {
      if row != i {
        var factor := a[row, i];
        if factor != 0 {
          CombineReached(o, Rows(a), Rows(b), n, row, i, factor);
          CombineColumns(Rows(a), n, row, i);
          CombineRow(t, a, row, i, factor);
          CombineRow(t, b, row, i, factor);
        }
      }
      row := row + 1;
    }
  }

  /** Bring row p up to row i and scale it so that its pivot becomes one. */
  method PlacePivot(t: Tables, a: array2<byte>, b: array2<byte>, i: nat, p: nat, ghost o: Mat)
    requires t.Ready() && a != b
    requires Reached(o, Rows(a), Rows(b), a.Length0) && ColumnsDone(Rows(a), a.Length0, i)
    requires i <= p < a.Length0 && a[p, i] != 0
    modifies a, b
    ensures Reached(o, Rows(a), Rows(b), a.Length0)
    ensures ColumnsDone(Rows(a), a.Length0, i) && a[i, i] == 1
  {
    hide Mul, Add, IsProduct, Nonsingular, Inv;
    ghost var n := a.Length0;
    if p != i {
      SwapReached(o, Rows(a), Rows(b), n, i, p);
      SwapColumns(Rows(a), n, i, p);
      ghost var before := Rows(a);
      assert before[p][i] == a[p, i];
      SwapRows(a, i, p);
      SwapRows(b, i, p);
      assert a[i, i] == Rows(a)[i][i] == before[p][i];
    }
    var pivot := a[i, i];
    if pivot != 1 {
      var inv := t.GfDiv(1, pivot);
      InvMul(pivot);
      MulOne(Inv(pivot));
      ghost var before := Rows(a);
      assert before[i][i] == pivot;
      ScaleReached(o, Rows(a), Rows(b), n, i, inv);
      ScaleColumns(Rows(a), n, i, inv);
      ScaleRow(t, a, i, inv);
      ScaleRow(t, b, i, inv);
      assert a[i, i] == Rows(a)[i][i] == Mul(pivot, inv);
    }
  }

  /**
   gf_invert_matrix.  Zero means b holds the inverse of the matrix a held (on either side);
   minus one means that matrix sends some nonzero vector to zero.
   */
  method InvertMatrix(t: Tables, a: array2<byte>, b: array2<byte>) returns (ret: int)
    requires t.Ready() && a != b
    requires a.Length0 == a.Length1 == b.Length0 == b.Length1
    modifies a, b
    ensures ret == 0 || ret == -1
    ensures ret == 0 ==> IsProduct(Identity(a.Length0), Rows(b), old(Rows(a)), a.Length0)
    ensures ret == 0 ==> Nonsingular(Rows(b), a.Length0) && Nonsingular(old(Rows(a)), a.Length0)
    ensures ret == -1 ==> exists v: Vec :: Kills(old(Rows(a)), a.Length0, v)
  {
    hide Mul, Add, Nonsingular, IsProduct;
    var n := a.Length0;
    ghost var o := Rows(a);
    SetIdentity(b);
    IdentityProduct(o, n);
    IdentityNonsingular(n);
    var i := 0;
    while i < n
      invariant 0 <= i <= n && t.Ready()
      invariant Reached(o, Rows(a), Rows(b), n) && ColumnsDone(Rows(a), n, i)
    {
      var p := i;
      while p < n && a[p, i] == 0
        invariant i <= p <= n
        invariant forall r :: i <= r < p ==> a[r, i] == 0
      {
        p := p + 1;
      }
      if p == n {
        StuckIsSingular(o, Rows(a), Rows(b), n, i);
        return -1;
      }
      PlacePivot(t, a, b, i, p, o);
      ClearColumn(t, a, b, i, o);
      i := i + 1;
    }
    DoneIsIdentity(Rows(a), n);
    InverseMeansNonsingular(o, Rows(b), n);
    return 0;
  }

  lemma {:induction false} InverseMeansNonsingular(o: Mat, b: Mat, n: nat)
    requires IsSquare(o, n) && IsSquare(b, n) && IsProduct(Identity(n), b, o, n)
    ensures Nonsingular(o, n)
  {
    hide Dot, IsProduct;
    forall v: Vec | |v| == n && Apply(o, v, n) == ZeroVec(n)
      ensures v == ZeroVec(n)
    {
      ProductApply(Identity(n), b, o, v, n);
      ApplyIdentity(v, n);
      ApplyZero(b, n);
    }
  }
}
