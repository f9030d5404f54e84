/**
 What recovery with the wrong size hands up.  A decoder for n takes parities numbered below n for data
 blocks, and with one block z missing it solves row n of the code for it: the result is block z plus a
 weighted sum of the parities it took for data.  That sum is never trivial, since a square Cauchy
 system has only the zero solution, so some payloads make the result one that nobody sent.
 */
module FecCorruption {
  import opened Bytes
  import opened Counting
  import opened Gf256
  import opened GfField
  import opened Matrix
  import opened Cauchy
  import opened ErasureCode
  import opened FecGroups
  import opened FecDelivery
  import opened FecRuns
  import opened FecSending
  import opened FecExpiry
  import FecTunnel

  // ---------------------------------------------------------------- one column

  /** A decoder for n over a group of m, with block z missing and parities in place of blocks m to n - 1. */
  predicate Mixing(n: nat, m: nat, z: nat)
  {
    m < n <= MAX_N && (z == m - 1 || z == m) && n - z < m && z + 1 < n
  }

  /** The octets of the m blocks, filled with zeros to n. */
  function Stretched(d: Vec, n: nat): (v: Vec)
    ensures |v| == n
  {
    seq(n, j requires 0 <= j < n => if j < |d| then d[j] else 0)
  }

  /** The octets of the parities taken for data. */
  ghost function ParityOctets(n: nat, m: nat, z: nat, d: Vec): (v: Vec)
    requires Mixing(n, m, z) && |d| == m
    ensures |v| == n
  {
    seq(n, j requires 0 <= j < n => if z < j then Dot(GeneratorRow(m, j), d, m) else 0)
  }

  ghost function ParityRow(n: nat, m: nat, j: nat): (row: Vec)
    requires m <= n <= MAX_N && j < n
    ensures |row| == n
  {
    seq(n, l requires 0 <= l < n => if l < m then Reciprocal(j, l) else 0 as byte)
  }

  /** Their rows. */
  ghost function ParityRows(n: nat, m: nat, z: nat): (a: Mat)
    requires Mixing(n, m, z)
    ensures IsSquare(a, n)
  {
    seq(n, j requires 0 <= j < n =>
          if z < j then ParityRow(n, m, j) else ZeroVec(n))
  }

  /** What each data block contributes to the sum of those parities in row n. */
  ghost function Weights(n: nat, m: nat, z: nat): (w: Vec)
    requires Mixing(n, m, z)
    ensures |w| == n
  {
    seq(n, l requires 0 <= l < n => Dot(GeneratorRow(n, n), Column(ParityRows(n, m, z), l, n), n))
  }

  ghost function Shift(n: nat, m: nat, z: nat, d: Vec): byte
    requires Mixing(n, m, z) && |d| == m
  {
    Div(Dot(Weights(n, m, z), Stretched(d, n), n), Reciprocal(n, z))
  }

  /** The octet the decoder computes for block z. */
  ghost function Wrong(n: nat, m: nat, z: nat, d: Vec): byte
    requires Mixing(n, m, z) && |d| == m
  {
    Add(Stretched(d, n)[z], Shift(n, m, z, d))
  }

  /** The octets of all n blocks as the decoder sees them. */
  ghost function Mixed(n: nat, m: nat, z: nat, d: Vec): (v: Vec)
    requires Mixing(n, m, z) && |d| == m
    ensures |v| == n
  {
    seq(n, j requires 0 <= j < n =>
          if j == z then Wrong(n, m, z, d) else if j < m then d[j] else Dot(GeneratorRow(m, j), d, m))
  }

  lemma {:induction false} DotPrefix(u: Vec, v: Vec, m: nat, n: nat)
    requires m <= n <= |u| && n <= |v| && forall j :: m <= j < n ==> u[j] == 0 || v[j] == 0
    ensures Dot(u, v, n) == Dot(u, v, m)
    decreases n
  {
    hide Add, Mul;
    if m < n {
      DotPrefix(u, v, m, n - 1);
      NoZeroDivisors(u[n - 1], v[n - 1]);
      AddSelf(Dot(u, v, n - 1));
    }
  }

  lemma {:induction false} RowPrefix(row: Vec, n: nat, m: nat, x: nat, d: Vec)
    requires |row| == n && |d| == m <= n <= 256 && m <= x < 256
    requires forall l :: 0 <= l < m ==> row[l] == Reciprocal(x, l)
    ensures Dot(row, Stretched(d, n), n) == Dot(GeneratorRow(m, x), d, m)
  {
    hide Dot, Reciprocal;
    DotPrefix(row, Stretched(d, n), m, n);
    DotExt(row, GeneratorRow(m, x), Stretched(d, n), d, m);
  }

  /** The weights do what they say. */
  lemma {:induction false} WeightsSum(n: nat, m: nat, z: nat, d: Vec)
    requires Mixing(n, m, z) && |d| == m
    ensures Dot(Weights(n, m, z), Stretched(d, n), n) == Dot(GeneratorRow(n, n), ParityOctets(n, m, z, d), n)
  {
    hide Dot, Reciprocal;
    var a, v := ParityRows(n, m, z), Stretched(d, n);
    SumExchange(GeneratorRow(n, n), a, Weights(n, m, z), v, n, n);
    forall j | 0 <= j < n
      ensures Dot(a[j], v, n) == ParityOctets(n, m, z, d)[j]
    {
      if z < j {
        RowPrefix(a[j], n, m, j, d);
      } else {
        assert a[j] == ZeroVec(n);
        DotZero(a[j], v, n);
      }
    }
    assert Partial(a, v, n, n) == ParityOctets(n, m, z, d);
  }

  /** A product sum over v + p + t e, with e the unit vector of z, when t cancels the share of p. */
  lemma {:induction false} SumCancels(u: Vec, v: Vec, p: Vec, mixed: Vec, n: nat, z: nat, t: byte)
    requires |u| == |v| == |p| == |mixed| == n && z < n && Mul(t, u[z]) == Dot(u, p, n)
    requires forall j :: 0 <= j < n ==> mixed[j] == Add(Add(v[j], Mul(p[j], 1)), Mul(UnitVec(z, n)[j], t))
    ensures Dot(u, mixed, n) == Dot(u, v, n)
  {
    hide Dot, Add, Mul;
    var both, unit := seq(n, j requires 0 <= j < n => Add(v[j], Mul(p[j], 1))), UnitVec(z, n);
    DotCombine(v, 1, p, both, u, n);
    DotCombine(both, t, unit, mixed, u, n);
    DotUnit(z, u, n);
    DotComm(u, v, n);
    DotComm(u, p, n);
    DotComm(u, mixed, n);
    MulOne(Dot(u, p, n));
    MulComm(u[z], t);
    AddCancel(Dot(u, v, n), Dot(u, p, n));
  }

  /** The decoder's octet solves row n. */
  lemma {:induction false} MixedSolves(n: nat, m: nat, z: nat, d: Vec)
    requires Mixing(n, m, z) && |d| == m
    ensures Dot(GeneratorRow(n, n), Mixed(n, m, z, d), n) == Dot(GeneratorRow(m, n), d, m)
  {
    var u, v, p := GeneratorRow(n, n), Stretched(d, n), ParityOctets(n, m, z, d);
    RowPrefix(u, n, m, n, d);
    WeightsSum(n, m, z, d);
    ReciprocalSpec(n, z);
    DivMul(Dot(u, p, n), u[z]);
    MixedParts(n, m, z, d);
    hide Dot, Add, Mul, Reciprocal, Div, Mixed, Stretched, ParityOctets, UnitVec;
    SumCancels(u, v, p, Mixed(n, m, z, d), n, z, Shift(n, m, z, d));
  }

  lemma {:induction false} OnePart(x: byte, p: byte, t: byte)
    ensures Add(Add(x, Mul(0, 1)), Mul(0, t)) == x
    ensures Add(Add(x, Mul(0, 1)), Mul(1, t)) == Add(x, t)
    ensures Add(Add(0, Mul(p, 1)), Mul(0, t)) == p
  {
    MulOne(0);
    MulOne(p);
    MulOne(t);
    MulZero(t);
    hide Add, Mul;
    AddSelf(x);
    AddSelf(p);
  }

  /** Every block is a data block, the missing one or a parity. */
  lemma {:induction false} MixedAt(n: nat, m: nat, z: nat, d: Vec, j: nat)
    requires Mixing(n, m, z) && |d| == m && j < n
    ensures var x, p := Stretched(d, n)[j], ParityOctets(n, m, z, d)[j];
            && (j < z ==> p == 0 && Mixed(n, m, z, d)[j] == x)
            && (j == z ==> p == 0 && Mixed(n, m, z, d)[j] == Add(x, Shift(n, m, z, d)))
            && (j > z ==> x == 0 && Mixed(n, m, z, d)[j] == p)
  {
    hide Shift, Dot, Reciprocal;
    assert Wrong(n, m, z, d) == Add(Stretched(d, n)[z], Shift(n, m, z, d));
    hide Add;
  }

  lemma {:induction false} MixedParts(n: nat, m: nat, z: nat, d: Vec)
    requires Mixing(n, m, z) && |d| == m
    ensures var v, p := Stretched(d, n), ParityOctets(n, m, z, d);
            forall j :: 0 <= j < n ==>
              Mixed(n, m, z, d)[j] == Add(Add(v[j], Mul(p[j], 1)), Mul(UnitVec(z, n)[j], Shift(n, m, z, d)))
  {
    var v, p, t := Stretched(d, n), ParityOctets(n, m, z, d), Shift(n, m, z, d);
    hide Dot, Add, Mul, Shift, Mixed, ParityOctets, Stretched, Reciprocal;
    forall j | 0 <= j < n
      ensures Mixed(n, m, z, d)[j] == Add(Add(v[j], Mul(p[j], 1)), Mul(UnitVec(z, n)[j], t))
    {
      MixedAt(n, m, z, d, j);
      OnePart(v[j], p[j], t);
    }
  }

  // ---------------------------------------------------------------- the sum is not trivial

  /** The numbers of the parities taken for data, and their coefficients in row n. */
  function Points(n: nat, z: nat): (ys: Vec)
    requires z < n <= MAX_N
    ensures |ys| == n - 1 - z
  {
    seq(n - 1 - z, i requires 0 <= i < n - 1 - z => z + 1 + i)
  }

  ghost function PointCoefficients(n: nat, z: nat): (v: Vec)
    requires z < n <= MAX_N
    ensures |v| == n - 1 - z
  {
    GeneratorRow(n, n)[z + 1..]
  }

  lemma {:induction false} ReciprocalComm(x: byte, y: byte)
    ensures Reciprocal(x, y) == Reciprocal(y, x)
  {
    AddComm(x, y);
  }

  lemma {:induction false} ColumnAt(n: nat, m: nat, z: nat, l: nat)
    requires Mixing(n, m, z) && l < m
    ensures var col := Column(ParityRows(n, m, z), l, n);
            forall j :: 0 <= j < n ==> col[j] == if z < j then Reciprocal(j, l) else 0
  {
    hide Reciprocal;
  }

  /** From index from on u and col hold the coefficients v and the reciprocals of x with ys; before it col is zero. */
  ghost predicate Late(u: Vec, col: Vec, x: byte, ys: Vec, v: Vec, from: nat, k: nat)
  {
    && from + k <= |u| && from + k <= |col| && k <= |ys| && k <= |v|
    && (forall j :: 0 <= j < from ==> col[j] == 0)
    && (forall i :: 0 <= i < k ==> v[i] == u[from + i] && col[from + i] == Reciprocal(x, ys[i]))
  }

  /** A product sum that starts late is a Cauchy sum over what is left. */
  lemma {:induction false} LateSum(u: Vec, col: Vec, x: byte, ys: Vec, v: Vec, from: nat, k: nat)
    requires Late(u, col, x, ys, v, from, k)
    ensures Dot(u, col, from + k) == CauchySum(x, ys, v, k)
    decreases k
  {
    if k == 0 {
      DotZero(u, col, from);
    } else {
      LateSum(u, col, x, ys, v, from, k - 1);
      SumStep(x, ys, v, k);
      DotStep(u, col, from + k);
      hide Add, Mul, Reciprocal, Dot, CauchySum;
    }
  }

  lemma {:induction false} PointsLate(n: nat, m: nat, z: nat, l: nat)
    requires Mixing(n, m, z) && l < m
    ensures Late(GeneratorRow(n, n), Column(ParityRows(n, m, z), l, n), l, Points(n, z), PointCoefficients(n, z),
                 z + 1, n - 1 - z)
  {
    var u, col := GeneratorRow(n, n), Column(ParityRows(n, m, z), l, n);
    var ys, v := Points(n, z), PointCoefficients(n, z);
    ColumnAt(n, m, z, l);
    assert forall i :: 0 <= i < n - 1 - z ==> ys[i] == z + 1 + i && v[i] == u[z + 1 + i];
    hide Reciprocal, ParityRows, Column, GeneratorRow, Points, PointCoefficients;
    forall i | 0 <= i < n - 1 - z
      ensures col[z + 1 + i] == Reciprocal(l, ys[i])
    {
      ReciprocalComm(l, z + 1 + i);
    }
  }

  lemma {:induction false} LateTotal(u: Vec, col: Vec, x: byte, ys: Vec, v: Vec, from: nat, k: nat, n: nat)
    requires Late(u, col, x, ys, v, from, k) && from + k == n
    ensures n <= |u| && n <= |col| && k <= |ys| && k <= |v| && Dot(u, col, n) == CauchySum(x, ys, v, k)
  {
    LateSum(u, col, x, ys, v, from, k);
    hide Dot, CauchySum, Reciprocal;
  }

  lemma {:induction false} ColumnSum(n: nat, m: nat, z: nat, l: nat)
    requires Mixing(n, m, z) && l < m < n < 256 && z < n <= MAX_N
    ensures Dot(GeneratorRow(n, n), Column(ParityRows(n, m, z), l, n), n)
         == CauchySum(l, Points(n, z), PointCoefficients(n, z), n - 1 - z)
  {
    hide *;
    PointsLate(n, m, z, l);
    LateTotal(GeneratorRow(n, n), Column(ParityRows(n, m, z), l, n), l, Points(n, z), PointCoefficients(n, z), z + 1,
              n - 1 - z, n);
  }

  /** A weight is a Cauchy sum over those parities. */
  lemma {:induction false} WeightIsSum(n: nat, m: nat, z: nat, l: nat)
    requires Mixing(n, m, z) && l < m < n < 256 && z < n <= MAX_N
    ensures Weights(n, m, z)[l] == CauchySum(l, Points(n, z), PointCoefficients(n, z), n - 1 - z)
  {
    hide *;
    WeightIs(n, m, z, l);
    ColumnSum(n, m, z, l);
  }

  lemma {:induction false} WeightIs(n: nat, m: nat, z: nat, l: nat)
    requires Mixing(n, m, z) && l < n
    ensures Weights(n, m, z)[l] == Dot(GeneratorRow(n, n), Column(ParityRows(n, m, z), l, n), n)
  {
    hide Dot, Reciprocal;
  }

  lemma {:induction false} SumsNotAllZero(n: nat, m: nat, z: nat, cols: Vec)
    requires Mixing(n, m, z) && |cols| == n - 1 - z && DistinctUpto(cols, |cols|)
    requires forall i :: 0 <= i < |cols| ==> cols[i] <= z
    ensures !Solves(cols, Points(n, z), PointCoefficients(n, z), n - 1 - z)
  {
    FirstCoefficient(n, m, z);
    PointsApart(n, m, z, cols);
    hide *;
    var q, ys, v := n - 1 - z, Points(n, z), PointCoefficients(n, z);
    if Solves(cols, ys, v, q) {
      CauchyNonsingular(cols, ys, v, q);
      assert false;
    }
  }

  lemma {:induction false} FirstCoefficient(n: nat, m: nat, z: nat)
    requires Mixing(n, m, z)
    ensures z < n <= MAX_N && |PointCoefficients(n, z)| > 0 && PointCoefficients(n, z)[0] != 0
  {
    assert PointCoefficients(n, z)[0] == Reciprocal(n, z + 1);
    ReciprocalSpec(n, z + 1);
  }

  lemma {:induction false} PointsApart(n: nat, m: nat, z: nat, cols: Vec)
    requires Mixing(n, m, z) && |cols| == n - 1 - z && forall i :: 0 <= i < |cols| ==> cols[i] <= z
    ensures DistinctUpto(Points(n, z), n - 1 - z) && Apart(cols, Points(n, z), n - 1 - z)
  {
  }

  /** Among as many data blocks as there are such parities one has weight. */
  lemma {:induction false} SomeWeight(n: nat, m: nat, z: nat, cols: Vec) returns (l: nat)
    requires Mixing(n, m, z) && |cols| == n - 1 - z && DistinctUpto(cols, |cols|)
    requires forall i :: 0 <= i < |cols| ==> cols[i] < m && cols[i] <= z
    ensures l < m && l as byte in cols && Weights(n, m, z)[l] != 0
  {
    var q, ys, v := n - 1 - z, Points(n, z), PointCoefficients(n, z);
    SumsNotAllZero(n, m, z, cols);
    hide Weights, CauchySum, PointCoefficients, Points;
    var i :| 0 <= i < q && CauchySum(cols[i], ys, v, q) != 0;
    WeightIsSum(n, m, z, cols[i]);
    l := cols[i];
  }

  lemma {:induction false} TwoWeights(n: nat, m: nat, z: nat) returns (a: nat, b: nat)
    requires Mixing(n, m, z)
    ensures a != b && a < m && a < z && b < m && b < z
    ensures Weights(n, m, z)[a] != 0 && Weights(n, m, z)[b] != 0
  {
    var q := n - 1 - z;
    hide Weights;
    a := SomeWeight(n, m, z, seq(q, i requires 0 <= i < q => i));
    b := SomeWeight(n, m, z, seq(q, i requires 0 <= i < q => if i < a then i else i + 1));
  }

  /** A column with a one at block a only. */
  lemma {:induction false} WrongOfUnit(n: nat, m: nat, z: nat, a: nat)
    requires Mixing(n, m, z) && a < m && a != z
    ensures Wrong(n, m, z, UnitVec(a, m)) == Shift(n, m, z, UnitVec(a, m))
    ensures Weights(n, m, z)[a] != 0 ==> Shift(n, m, z, UnitVec(a, m)) != 0
  {
    assert Stretched(UnitVec(a, m), n) == UnitVec(a, n);
    DotUnit(a, Weights(n, m, z), n);
    ReciprocalSpec(n, z);
    DivNonzero(Weights(n, m, z)[a], Reciprocal(n, z));
    hide Weights, Reciprocal, Div, Dot, Add;
    AddSelf(Shift(n, m, z, UnitVec(a, m)));
  }

  lemma {:induction false} DivNonzero(a: byte, b: byte)
    requires b != 0
    ensures Div(a, b) == 0 <==> a == 0
  {
    DivMul(a, b);
    InvMul(b);
    hide Inv;
    NoZeroDivisors(a, Inv(b));
  }

  lemma {:induction false} WrongOfZero(n: nat, m: nat, z: nat)
    requires Mixing(n, m, z)
    ensures Wrong(n, m, z, ZeroVec(m)) == 0
  {
    DotZero(Weights(n, m, z), Stretched(ZeroVec(m), n), n);
    ReciprocalSpec(n, z);
    DivNonzero(0, Reciprocal(n, z));
    hide Weights, Reciprocal, Div, Dot, Add;
    AddSelf(0);
  }

  /** Changing the column at a weighted block changes the result. */
  lemma {:induction false} WrongMoves(n: nat, m: nat, z: nat, d: Vec, d': Vec, a: nat)
    requires Mixing(n, m, z) && a < m && a != z && Weights(n, m, z)[a] != 0
    requires |d| == |d'| == m && d'[a] == Add(d[a], 1) && forall j :: 0 <= j < m && j != a ==> d'[j] == d[j]
    ensures Wrong(n, m, z, d) != 0 || Wrong(n, m, z, d') != 0
  {
    var w, v, v', unit := Weights(n, m, z), Stretched(d, n), Stretched(d', n), UnitVec(a, n);
    StretchedMoves(n, d, d', a);
    DotCombine(v, 1, unit, v', w, n);
    DotUnit(a, w, n);
    hide Weights, Reciprocal, Div, Dot, Add, Mul, Stretched;
    DotComm(v, w, n);
    DotComm(v', w, n);
    MulOne(w[a]);
    StretchedAt(n, d, d', a, z);
    ReciprocalSpec(n, z);
    SumMoves(v[z], Dot(w, v, n), w[a], Reciprocal(n, z));
  }

  lemma {:induction false} StretchedMoves(n: nat, d: Vec, d': Vec, a: nat)
    requires |d| == |d'| <= n && a < |d|
    requires d'[a] == Add(d[a], 1) && forall j :: 0 <= j < |d| && j != a ==> d'[j] == d[j]
    ensures forall j :: 0 <= j < n ==> Stretched(d', n)[j] == Add(Stretched(d, n)[j], Mul(UnitVec(a, n)[j], 1))
  {
    hide Add, Mul;
    forall j | 0 <= j < n
      ensures Stretched(d', n)[j] == Add(Stretched(d, n)[j], Mul(UnitVec(a, n)[j], 1))
    {
      MulOne(1);
      MulOne(0);
      AddSelf(Stretched(d, n)[j]);
    }
  }

  lemma {:induction false} StretchedAt(n: nat, d: Vec, d': Vec, a: nat, z: nat)
    requires |d| == |d'| <= n && z < n && a != z && forall j :: 0 <= j < |d| && j != a ==> d'[j] == d[j]
    ensures Stretched(d', n)[z] == Stretched(d, n)[z]
  {
  }

  lemma {:induction false} SumMoves(x: byte, s: byte, w: byte, c: byte)
    requires c != 0 && w != 0
    ensures Add(x, Div(s, c)) != 0 || Add(x, Div(Add(s, w), c)) != 0
  {
    if Add(x, Div(s, c)) == 0 && Add(x, Div(Add(s, w), c)) == 0 {
      AddZero(x, Div(s, c));
      AddZero(x, Div(Add(s, w), c));
      DivMul(s, c);
      DivMul(Add(s, w), c);
      AddComm(s, w);
      hide Add, Mul, Div;
      AddCancel(w, s);
      AddSelf(s);
    }
  }

  // ---------------------------------------------------------------- payloads that show it

  /** One octet of one payload each at blocks a and b, and zeros; a may be one octet longer. */
  function Chosen(m: nat, a: nat, b: nat, long: bool): (ps: seq<Payload>)
    ensures |ps| == m && Framable(ps)
  {
    seq(m, i requires 0 <= i < m =>
          if i == a then (if long then [1, 0, 0] else [1, 0]) else if i == b then [0, 1] else [0, 0])
  }

  function Lengths(m: nat, a: nat, long: bool): (d: Vec)
    ensures |d| == m
  {
    seq(m, i requires 0 <= i < m => if i == a && long then 3 else 2)
  }

  /** The first four octets of the framed payloads. */
  lemma {:induction false} ChosenColumns(m: nat, a: nat, b: nat, long: bool)
    requires a < m && b < m && a != b
    ensures var frames := Frames(Chosen(m, a, b, long));
            && AreBlocks(frames, m, BLOCK)
            && Slice(frames, m, BLOCK, 0) == ZeroVec(m) && Slice(frames, m, BLOCK, 1) == Lengths(m, a, long)
            && Slice(frames, m, BLOCK, 2) == UnitVec(a, m) && Slice(frames, m, BLOCK, 3) == UnitVec(b, m)
  {
  }

  /** The block the decoder computes. */
  ghost function WrongBlock(n: nat, m: nat, z: nat, frames: seq<Block>): (x: Block)
    requires Mixing(n, m, z) && AreBlocks(frames, m, BLOCK)
    ensures |x| == BLOCK
  {
    seq(BLOCK, c requires 0 <= c < BLOCK => Wrong(n, m, z, Slice(frames, m, BLOCK, c)))
  }

  lemma {:induction false} ThreeIsTwoAndOne()
    ensures Add(2, 1) == 3
  {
    assert Xor(0, 1) == 1 && Xor(2, 1) == 3;
  }

  /** With the right length at a the block starts with a length from 1 to 255 and two octets that are not 0. */
  lemma {:induction false} WrongStarts(n: nat, m: nat, z: nat, a: nat, b: nat) returns (long: bool)
    requires Mixing(n, m, z) && a < m && b < m && a != b && a != z && b != z
    requires Weights(n, m, z)[a] != 0 && Weights(n, m, z)[b] != 0
    ensures var frames := Frames(Chosen(m, a, b, long));
            && AreBlocks(frames, m, BLOCK)
            && var x := WrongBlock(n, m, z, frames); x[0] == 0 && x[1] != 0 && x[2] != 0 && x[3] != 0
  {
    WrongOfZero(n, m, z);
    WrongOfUnit(n, m, z, a);
    WrongOfUnit(n, m, z, b);
    ThreeIsTwoAndOne();
    hide Wrong, Shift, Weights, Frames, Slice, Add, Mixing;
    WrongMoves(n, m, z, Lengths(m, a, false), Lengths(m, a, true), a);
    long := Wrong(n, m, z, Lengths(m, a, false)) == 0;
    ChosenColumns(m, a, b, long);
    hide Chosen, Lengths;
  }

  /** The payload it holds is none of those sent. */
  lemma {:induction false} NoneOfThem(x: Block, m: nat, a: nat, b: nat, long: bool) returns (p: Payload)
    requires |x| == BLOCK && x[0] == 0 && x[1] != 0 && x[2] != 0 && x[3] != 0 && a != b
    ensures Unframed(x) == [p] && p !in Chosen(m, a, b, long)
  {
    p := x[2..2 + x[1]];
    var ps := Chosen(m, a, b, long);
    forall i | 0 <= i < m
      ensures ps[i] != p
    {
      assert p[0] == x[2];
      assert |p| >= 2 ==> p[1] == x[3];
    }
  }

  // ---------------------------------------------------------------- recovery

  ghost function MisreadBlock(n: nat, m: nat, z: nat, frames: seq<Block>, j: nat): (b: Block)
    requires Mixing(n, m, z) && AreBlocks(frames, m, BLOCK) && j < n
    ensures |b| == BLOCK
  {
    if j == z then WrongBlock(n, m, z, frames) else if j < m then frames[j] else Encoded(frames, m, BLOCK, j)
  }

  /** What a decoder for n takes the data blocks to be. */
  ghost function Misread(n: nat, m: nat, z: nat, frames: seq<Block>): (data: seq<Block>)
    requires Mixing(n, m, z) && AreBlocks(frames, m, BLOCK)
    ensures AreBlocks(data, n, BLOCK)
  {
    seq(n, j requires 0 <= j < n => MisreadBlock(n, m, z, frames, j))
  }

  lemma {:induction false} MisreadOctet(n: nat, m: nat, z: nat, frames: seq<Block>, c: nat, j: nat)
    requires Mixing(n, m, z) && AreBlocks(frames, m, BLOCK) && c < BLOCK && j < n
    ensures MisreadBlock(n, m, z, frames, j)[c] == Mixed(n, m, z, Slice(frames, m, BLOCK, c))[j]
  {
    hide Wrong, Dot, GeneratorRow;
  }

  lemma {:induction false} MisreadSlice(n: nat, m: nat, z: nat, frames: seq<Block>, c: nat)
    requires Mixing(n, m, z) && AreBlocks(frames, m, BLOCK) && c < BLOCK
    ensures Slice(Misread(n, m, z, frames), n, BLOCK, c) == Mixed(n, m, z, Slice(frames, m, BLOCK, c))
  {
    hide MisreadBlock, Mixed, Mixing;
    forall j | 0 <= j < n
      ensures Slice(Misread(n, m, z, frames), n, BLOCK, c)[j] == Mixed(n, m, z, Slice(frames, m, BLOCK, c))[j]
    {
      MisreadOctet(n, m, z, frames, c, j);
    }
  }

  /** Row n of it is parity n. */
  lemma {:induction false} MisreadRow(n: nat, m: nat, z: nat, frames: seq<Block>)
    requires Mixing(n, m, z) && AreBlocks(frames, m, BLOCK)
    ensures Encoded(Misread(n, m, z, frames), n, BLOCK, n) == Encoded(frames, m, BLOCK, n)
  {
    hide Dot, GeneratorRow, Misread, Mixed, Slice;
    forall c | 0 <= c < BLOCK
      ensures Encoded(Misread(n, m, z, frames), n, BLOCK, n)[c] == Encoded(frames, m, BLOCK, n)[c]
    {
      MisreadSlice(n, m, z, frames, c);
      MixedSolves(n, m, z, Slice(frames, m, BLOCK, c));
    }
    hide Encoded;
  }

  /** The slot holds every packet up to n but z. */
  ghost predicate AllButOne(g: Group, z: nat, s: Slot)
    requires GroupOk(g)
  {
    && BlocksTrue(g, s) && |s.indices| == g.n && z !in s.indices
    && (forall i :: 0 <= i < g.n && i != z ==> i in s.indices)
    && (forall k :: 0 <= k < g.n ==> s.indices[k] <= g.n)
  }

  /** A block of the group is the block of that number of the misread data. */
  lemma {:induction false} MisreadFits(g: Group, z: nat, i: nat, b: Block)
    requires GroupOk(g) && Mixing(g.n, g.size, z) && i <= g.n && i != z && IsBlock(g, i, b) && |g.payloads| == g.size
    ensures AreBlocks(Frames(g.payloads), g.size, BLOCK)
    ensures b == Encoded(Misread(g.n, g.size, z, Frames(g.payloads)), g.n, BLOCK, i)
  {
    var frames := Frames(g.payloads);
    MisreadRow(g.n, g.size, z, frames);
    hide Encoded, WrongBlock;
    if i < g.n {
      EncodedData(Misread(g.n, g.size, z, frames), g.n, BLOCK, i);
      assert Misread(g.n, g.size, z, frames)[i] == MisreadBlock(g.n, g.size, z, frames, i);
    }
  }

  lemma {:induction false} MisreadGenuine(g: Group, z: nat, s: Slot)
    requires GroupOk(g) && Mixing(g.n, g.size, z) && AllButOne(g, z, s) && |g.payloads| == g.size
    ensures AreBlocks(Frames(g.payloads), g.size, BLOCK) && SlotOk(s)
    ensures Genuine(Misread(g.n, g.size, z, Frames(g.payloads)), s.blocks, s.indices, g.n, BLOCK)
  {
    var data := Misread(g.n, g.size, z, Frames(g.payloads));
    hide Encoded, Misread, IsBlock, Frames, Mixing;
    forall k | 0 <= k < g.n
      ensures s.blocks[k] == Encoded(data, g.n, BLOCK, s.indices[k])
    {
      assert IsBlock(g, s.indices[k], s.blocks[k]);
      MisreadFits(g, z, s.indices[k], s.blocks[k]);
    }
  }

  lemma {:induction false} RecoveredIs(s: Slot, n: nat, data: seq<Block>)
    requires SlotOk(s) && n <= |s.indices| && n <= MAX_N && Solution(s, n) == data && AreBlocks(data, n, BLOCK)
    ensures Recovered(s, n) == RecoveredUpto(s, data, n)
  {
    hide Solution, RecoveredUpto;
  }

  /** Only block z is handed up. */
  lemma {:induction false} OnlyMissing(s: Slot, data: seq<Block>, n: nat, z: nat, k: nat)
    requires k <= n == |data| && z < n && (forall i :: 0 <= i < n ==> |data[i]| == BLOCK)
    requires z !in s.indices && forall i :: 0 <= i < n && i != z ==> i in s.indices
    ensures RecoveredUpto(s, data, k) == if z < k then Unframe(s.group, z, data[z]) else []
    decreases k
  {
    if k > 0 {
      OnlyMissing(s, data, n, z, k - 1);
      RecoveredSnoc(s, data, k - 1);
      hide Unframe, RecoveredUpto;
      assert k - 1 in s.indices <==> k - 1 != z;
    }
  }

  /** Such a slot recovers to the payload the decoder makes up. */
  lemma {:induction false} RecoversWrong(g: Group, z: nat, s: Slot, p: Payload)
    requires GroupOk(g) && Mixing(g.n, g.size, z) && AllButOne(g, z, s) && |g.payloads| == g.size
    requires AreBlocks(Frames(g.payloads), g.size, BLOCK) && SlotOk(s)
    requires Unframed(WrongBlock(g.n, g.size, z, Frames(g.payloads))) == [p]
    ensures Recovered(s, g.n) == [Of(s.group, z, p)]
  {
    var n, data := g.n, Misread(g.n, g.size, z, Frames(g.payloads));
    MisreadGenuine(g, z, s);
    assert data[z] == WrongBlock(n, g.size, z, Frames(g.payloads));
    assert s.blocks[..n] == s.blocks && s.indices[..n] == s.indices;
    hide Misread, Encoded, Frames, Unframed, WrongBlock, BlocksTrue, Explains, Solution, Recovered, RecoveredUpto;
    GenuineExplains(data, s.blocks, s.indices, n, BLOCK);
    FecTunnel.OnlySolution(s, n, data);
    RecoveredIs(s, n, data);
    OnlyMissing(s, data, n, z, n);
  }

  // ---------------------------------------------------------------- the run

  /** The block to leave out: the last data block, or the first parity when n of the packets hold all the data. */
  function Left(n: nat, m: nat): nat
    requires m > 0
  {
    if n <= 2 * m - 2 then m - 1 else m
  }

  lemma {:induction false} LeftGap(g: Group)
    requires GroupOk(g) && |g.payloads| == g.size && !SoundSize(g.n, g.size, g.r)
    ensures var z := Left(g.n, g.size); Gap(g, z) && Mixing(g.n, g.size, z)
  {
  }

  lemma {:induction false} NumbersCover(g: Group, z: nat, i: nat)
    requires Gap(g, z) && i < g.n && i != z
    ensures exists k :: 0 <= k < g.n && NumberAt(g, z, k) == i
  {
    var k := if z < i then i - z - 1 else i + (g.n - z);
    assert NumberAt(g, z, k) == i;
  }

  /** After the last packet of the bad order the slot misses z alone. */
  lemma {:induction false} LastFills(g: Group, id: u16, z: nat, slots: seq<Slot>, s: Slot)
    requires Gap(g, z) && HoldsFirst(g, id, z, g.n - 1, slots)
    requires s.indices == slots[0].indices + [z - 1] && BlocksTrue(g, s)
    ensures AllButOne(g, z, s)
  {
    hide BlocksTrue, InFirst, NumberAt;
    assert NumberAt(g, z, g.n - 1) == z - 1 by {
      LastNumber(g, z);
    }
    forall i | 0 <= i < g.n && i != z
      ensures i in s.indices
    {
      NumbersCover(g, z, i);
      var k :| 0 <= k < g.n && NumberAt(g, z, k) == i;
      assert s.indices[k] == i;
    }
  }

  lemma {:induction false} LastNumber(g: Group, z: nat)
    requires Gap(g, z)
    ensures NumberAt(g, z, g.n - 1) == z - 1
  {
  }

  lemma {:induction false} LastIsNew(g: Group, id: u16, z: nat, slots: seq<Slot>)
    requires Gap(g, z) && HoldsFirst(g, id, z, g.n - 1, slots)
    ensures z - 1 !in slots[0].indices && |slots[0].indices| == g.n - 1 && BlocksTrue(g, slots[0]) && InFirst(slots, id)
  {
    hide BlocksTrue, InFirst;
  }

  /** The last packet starts recovery with n, and the made-up payload is handed up. */
  lemma {:induction false} LastHandsUp(g: Group, id: u16, z: nat, slots: seq<Slot>, p: Payload)
    requires Gap(g, z) && Mixing(g.n, g.size, z) && HoldsFirst(g, id, z, g.n - 1, slots) && SlotsOk(slots)
    requires AreBlocks(Frames(g.payloads), g.size, BLOCK)
    requires Unframed(WrongBlock(g.n, g.size, z, Frames(g.payloads))) == [p]
    ensures var w := PacketOf(g, id, z - 1);
            WireOk(w) && Of(id, z, p) in Receive(slots, w, 0).ups
  {
    hide *;
    GapSizes(g, z);
    var w := PacketOf(g, id, z - 1);
    PacketSized(g, w);
    LastShape(g, w, slots);
    PacketShape(g, w);
    LastIsNew(g, id, z, slots);
    FirstLocated(slots, id);
    var s := Located(slots, id, 0).1;
    SameParts(g, slots[0], s);
    StoreKeepsTrue(g, s, w);
    StoredParts(g, s, w);
    var s' := StoredIn(s, w).(decoded := true);
    SameBlocks(g, StoredIn(s, w), s');
    TrueIsOk(g, s');
    LastFills(g, id, z, slots, s');
    RecoversWrong(g, z, s', p);
    TakeNew(s, w);
    ReceivesInFirst(slots, w);
    InBoth(Direct(w.h, w.body), Recovered(s', g.n), Of(id, z, p));
  }

  lemma {:induction false} LastShape(g: Group, w: Wire, slots: seq<Slot>)
    requires GroupOk(g) && IsPacket(g, w) && WireOk(w) && SlotsOk(slots)
    ensures Protected(w.h) && (w.h.index < w.h.n ==> |w.body| <= BLOCK - 2) && |slots| > 0
  {
    hide IsBlock;
  }

  lemma {:induction false} TrueIsOk(g: Group, s: Slot)
    requires GroupOk(g) && BlocksTrue(g, s)
    ensures SlotOk(s)
  {
  }

  lemma {:induction false} StoredParts(g: Group, s: Slot, w: Wire)
    requires GroupOk(g) && WireOk(w) && Protected(w.h) && BlocksTrue(g, StoredIn(s, w))
    ensures var s1 := StoredIn(s, w);
            s1.indices == s.indices + [w.h.index] && s1.group == s.group && s1.decoded == s.decoded && SlotOk(s1)
  {
    hide SlotOk, IsBlock, Stored;
  }

  lemma {:induction false} ReceivesInFirst(slots: seq<Slot>, w: Wire)
    requires SlotsOk(slots) && WireOk(w) && Protected(w.h) && Located(slots, w.h.group, 0).0 >= 0
    ensures SlotOk(Located(slots, w.h.group, 0).1)
    ensures Receive(slots, w, 0).ups == Take(Located(slots, w.h.group, 0).1, w).1
  {
    LocatedOk(slots, w.h.group, 0);
    hide Located, Take, SlotOk;
  }

  lemma {:induction false} InBoth(a: seq<Up>, b: seq<Up>, x: Up)
    requires b == [x]
    ensures x in a + b
  {
    assert (a + b)[|a|] == x;
  }

  predicate Sizes(n: nat, m: nat, r: nat)
  {
    1 <= m <= n <= MAX_N && 1 <= r <= MAX_R
  }

  /** The bad order of such a group: genuine packets, and the made-up payload among what is handed up. */
  lemma {:induction false} BadOrderHandsUp(g: Group, id: u16, z: nat, p: Payload)
    requires Gap(g, z) && Mixing(g.n, g.size, z) && AreBlocks(Frames(g.payloads), g.size, BLOCK)
    requires Unframed(WrongBlock(g.n, g.size, z, Frames(g.payloads))) == [p]
    ensures Sized(BadOrder(g, id, z, g.n)) && Of(id, z, p) in After(BadOrder(g, id, z, g.n)).ups
  {
    hide *;
    GapSizes(g, z);
    LastNumber(g, z);
    BadOrderGenuine(g, id, z, g.n);
    BadRun(g, id, z, g.n - 1);
    BadOrderSnoc(g, id, z, g.n);
    var init := BadOrder(g, id, z, g.n - 1);
    var w := PacketOf(g, id, z - 1);
    AfterSnoc(BadOrder(g, id, z, g.n));
    LastHandsUp(g, id, z, After(init).slots, p);
    InLater(After(init).ups, Receive(After(init).slots, w, 0).ups, Of(id, z, p));
  }

  lemma {:induction false} InLater<T>(a: seq<T>, b: seq<T>, x: T)
    requires x in b
    ensures x in a + b
  {
  }

  /** Packet k of a group closed after m. */
  ghost function GroupPacket(n: nat, m: nat, r: nat, ps: seq<Payload>, id: u16, k: nat): Wire
    requires Sizes(n, m, r) && |ps| == m && Framable(ps) && k < m + r
  {
    PacketOf(Group(n, m, r, ps), id, k)
  }

  ghost predicate FromGroup(n: nat, m: nat, r: nat, ps: seq<Payload>, id: u16, w: Wire)
    requires Sizes(n, m, r) && |ps| == m && Framable(ps)
  {
    exists k :: 0 <= k < m + r && w == GroupPacket(n, m, r, ps, id, k)
  }

  ghost predicate AllFromGroup(n: nat, m: nat, r: nat, ps: seq<Payload>, id: u16, arrivals: seq<Arrival>)
    requires Sizes(n, m, r) && |ps| == m && Framable(ps)
  {
    forall i :: 0 <= i < |arrivals| ==> FromGroup(n, m, r, ps, id, arrivals[i].w)
  }

  lemma {:induction false} BadOrderPackets(n: nat, m: nat, r: nat, ps: seq<Payload>, id: u16, z: nat, i: nat)
    requires Sizes(n, m, r) && |ps| == m && Framable(ps) && Gap(Group(n, m, r, ps), z) && i < n
    ensures FromGroup(n, m, r, ps, id, BadOrder(Group(n, m, r, ps), id, z, n)[i].w)
  {
    var g := Group(n, m, r, ps);
    hide PacketOf;
    assert BadOrder(g, id, z, n)[i].w == GroupPacket(n, m, r, ps, id, NumberAt(g, z, i));
  }

  lemma {:induction false} BadOrderFromGroup(n: nat, m: nat, r: nat, ps: seq<Payload>, id: u16, z: nat)
    requires Sizes(n, m, r) && |ps| == m && Framable(ps) && Gap(Group(n, m, r, ps), z)
    ensures AllFromGroup(n, m, r, ps, id, BadOrder(Group(n, m, r, ps), id, z, n))
  {
    hide FromGroup, BadOrder, Framable;
    forall i | 0 <= i < n
      ensures FromGroup(n, m, r, ps, id, BadOrder(Group(n, m, r, ps), id, z, n)[i].w)
    {
      BadOrderPackets(n, m, r, ps, id, z, i);
    }
  }

  lemma {:induction false} SizesOk(n: nat, m: nat, r: nat, ps: seq<Payload>)
    requires Sizes(n, m, r) && |ps| == m && Framable(ps)
    ensures GroupOk(Group(n, m, r, ps)) && 0 < m <= MAX_N && forall i :: 0 <= i < |ps| ==> |ps[i]| <= BLOCK - 2
    ensures AreBlocks(Frames(ps), m, BLOCK)
  {
    hide Framed;
  }

  /** For every unsound size: payloads, and an order of arrival in which one that is none of them is handed up. */
  lemma {:induction false} UnsoundCorrupts(n: nat, m: nat, r: nat, id: u16)
    returns (ps: seq<Payload>, arrivals: seq<Arrival>, up: Up)
    requires Sizes(n, m, r) && !SoundSize(n, m, r)
    ensures |ps| == m && Framable(ps) && AllFromGroup(n, m, r, ps, id, arrivals)
    ensures LogOk(OnlyGroup(Group(n, m, r, ps), id)) && AllAuthentic(OnlyGroup(Group(n, m, r, ps), id), arrivals)
    ensures Sized(arrivals) && up in After(arrivals).ups && up.Of? && up.payload !in ps
  {
    hide *;
    var any := Chosen(m, 0, 0, false);
    SizesOk(n, m, r, any);
    var z := Left(n, m);
    LeftGap(Group(n, m, r, any));
    var a, b := TwoWeights(n, m, z);
    var long := WrongStarts(n, m, z, a, b);
    ps := Chosen(m, a, b, long);
    SizesOk(n, m, r, ps);
    var g := Group(n, m, r, ps);
    LeftGap(g);
    GapSizes(g, z);
    var p := NoneOfThem(WrongBlock(n, m, z, Frames(ps)), m, a, b, long);
    BadOrderGenuine(g, id, z, n);
    BadOrderFromGroup(n, m, r, ps, id, z);
    BadOrderHandsUp(g, id, z, p);
    up := Of(id, z, p);
    arrivals := BadOrder(g, id, z, n);
  }

  /** These genuine arrivals of the one group make the receiver hand up something that was not framed so. */
  ghost predicate Corrupts(g: Group, id: u16, arrivals: seq<Arrival>)
  {
    && GroupOk(g) && AllAuthentic(OnlyGroup(g, id), arrivals) && Sized(arrivals)
    && !AllTrue(OnlyGroup(g, id), After(arrivals).ups)
  }

  /**
   For all settings and every size m at which the timer can close a group: some payloads and some
   genuine arrivals make the receiver hand up what the sender did not frame exactly when m is unsound.
   */
  lemma {:induction false} CorruptsExactly(n: nat, m: nat, r: nat, id: u16)
    requires Sizes(n, m, r)
    ensures (exists ps: seq<Payload>, arrivals :: |ps| == m && Corrupts(Group(n, m, r, ps), id, arrivals))
       <==> !SoundSize(n, m, r)
  {
    if SoundSize(n, m, r) {
      forall ps: seq<Payload>, arrivals | |ps| == m
        ensures !Corrupts(Group(n, m, r, ps), id, arrivals)
      {
        NeverCorrupts(Group(n, m, r, ps), id, arrivals);
      }
    } else {
      var ps, arrivals, up := UnsoundCorrupts(n, m, r, id);
      var g := Group(n, m, r, ps);
      hide After, Authentic, WireOk;
      NotTrue(g, id, After(arrivals).ups, up);
      assert Corrupts(g, id, arrivals);
    }
  }

  lemma {:induction false} NeverCorrupts(g: Group, id: u16, arrivals: seq<Arrival>)
    requires SoundSize(g.n, g.size, g.r)
    ensures !Corrupts(g, id, arrivals)
  {
    if Corrupts(g, id, arrivals) {
      assert LogSound(OnlyGroup(g, id));
      hide After, Authentic, WireOk, AllTrue;
      EveryUpGenuine(OnlyGroup(g, id), arrivals);
      assert false;
    }
  }

  lemma {:induction false} NotTrue(g: Group, id: u16, ups: seq<Up>, up: Up)
    requires up in ups && up.Of? && up.payload !in g.payloads
    ensures !AllTrue(OnlyGroup(g, id), ups)
  {
    var k :| 0 <= k < |ups| && ups[k] == up;
    assert !UpTrue(OnlyGroup(g, id), ups[k]);
  }

  // ---------------------------------------------------------------- from the sender's calls

  function Filled(n: byte, r: byte, ps: seq<Payload>): (calls: seq<Call>)
    ensures |calls| == |ps|
  {
    seq(|ps|, i requires 0 <= i < |ps| => Call(n, r, ps[i]))
  }

  /** The payloads, all under the same settings, and then the timer. */
  function ClosedCalls(n: byte, r: byte, ps: seq<Payload>): (calls: seq<Call>)
    ensures |calls| == |ps| + 1
  {
    Filled(n, r, ps) + [Expire]
  }

  /** The encoder after k of the payloads. */
  function Open(n: byte, r: byte, ps: seq<Payload>, k: nat): Encoder
    requires k <= |ps| && Framable(ps)
  {
    if k == 0 then Encoder(0, 0, 0, []) else Encoder(1, n, r, if k < n as nat then Frames(ps[..k]) else [])
  }

  lemma {:induction false} FilledSnoc(n: byte, r: byte, ps: seq<Payload>, k: nat)
    requires k < |ps|
    ensures Filled(n, r, ps[..k + 1]) == Filled(n, r, ps[..k]) + [Call(n, r, ps[k])]
  {
  }

  lemma {:induction false} FramesSnoc(ps: seq<Payload>, k: nat)
    requires k < |ps| && Framable(ps)
    ensures Frames(ps[..k + 1]) == Frames(ps[..k]) + [Framed(ps[k])]
  {
    hide Framed;
  }

  /** A payload joins the group. */
  lemma {:induction false} Joins(n: byte, r: byte, ps: seq<Payload>, k: nat)
    requires k < |ps| && Framable(ps) && Sizes(n, |ps|, r)
    ensures var e, c := Open(n, r, ps, k), Call(n, r, ps[k]);
            && EncoderOk(e) && CallOk(c) && Stepped(e, c).e == Open(n, r, ps, k + 1)
            && |Stepped(e, c).ws| > 0 && Stepped(e, c).ws[0] == Wire(Header(1, k, n, r), ps[k])
  {
    FramesSnoc(ps, k);
    assert ps[..0] == [] && Frames(ps[..0]) == [];
    assert |Frames(ps[..k])| == k;
    hide Framed, ParityPackets, Frames;
  }

  ghost predicate SentUpto(n: byte, r: byte, ps: seq<Payload>, k: nat)
    requires k <= |ps| <= MAX_N && Framable(ps)
  {
    var calls := Filled(n, r, ps[..k]);
    && CallsOk(calls) && EncoderAfter(calls) == Open(n, r, ps, k) && Timely(calls)
    && forall i :: 0 <= i < k ==> Wire(Header(1, i, n, r), ps[i]) in Emitted(calls)
  }

  lemma {:induction false} AllSent(n: byte, r: byte, ps: seq<Payload>, k: nat)
    requires k <= |ps| && Framable(ps) && Sizes(n, |ps|, r)
    ensures SentUpto(n, r, ps, k)
    decreases k
  {
    if k == 0 {
      assert Filled(n, r, ps[..0]) == [];
    } else {
      AllSent(n, r, ps, k - 1);
      Joins(n, r, ps, k - 1);
      SendsNext(n, r, ps, k - 1);
    }
  }

  lemma {:induction false} SendsNext(n: byte, r: byte, ps: seq<Payload>, k: nat)
    requires k < |ps| <= MAX_N && Framable(ps) && SentUpto(n, r, ps, k)
    requires var e, c := Open(n, r, ps, k), Call(n, r, ps[k]);
             && EncoderOk(e) && CallOk(c) && Stepped(e, c).e == Open(n, r, ps, k + 1)
             && |Stepped(e, c).ws| > 0 && Stepped(e, c).ws[0] == Wire(Header(1, k, n, r), ps[k])
    ensures SentUpto(n, r, ps, k + 1)
  {
    FilledSnoc(n, r, ps, k);
    var calls, c, e := Filled(n, r, ps[..k]), Call(n, r, ps[k]), Open(n, r, ps, k);
    hide Open, EncoderAfter, Emitted, Timely, Stepped, EncoderOk, CallsOk, CallOk, Filled, Framable;
    CallsSnoc(calls, c);
    IsCall(e, c);
    hide ClosesSoundly;
    forall i | 0 <= i < k + 1
      ensures Wire(Header(1, i, n, r), ps[i]) in Emitted(calls + [c])
    {
      InEither(Emitted(calls), Stepped(e, c).ws, Wire(Header(1, i, n, r), ps[i]));
    }
  }

  lemma {:induction false} InEither<T>(a: seq<T>, b: seq<T>, x: T)
    requires x in a || (b != [] && b[0] == x)
    ensures x in a + b
  {
  }

  lemma {:induction false} IsCall(e: Encoder, c: Call)
    requires c.Call?
    ensures ClosesSoundly(e, c)
  {
  }

  /** The sender's side: the settings and the size alone decide whether the timer closes the group soundly. */
  lemma {:induction false} ClosedSent(n: byte, r: byte, ps: seq<Payload>)
    requires Framable(ps) && Sizes(n, |ps|, r)
    ensures var calls := ClosedCalls(n, r, ps);
            && CallsOk(calls) && (Timely(calls) <==> SoundSize(n, |ps|, r))
            && (|ps| < n as nat ==>
                  forall k :: 0 <= k < |ps| + r as nat ==> GroupPacket(n, |ps|, r, ps, 1, k) in Emitted(calls))
  {
    var m := |ps|;
    AllSent(n, r, ps, m);
    assert ps[..m] == ps;
    var calls := Filled(n, r, ps);
    SoundlyClosed(n, r, ps);
    hide EncoderAfter, Emitted, Timely, Frames, CallsOk, Filled, Framable, ClosesSoundly, SoundSize, Open, GroupPacket;
    CallsSnoc(calls, Expire);
    hide Stepped;
    if m < n as nat {
      forall k | 0 <= k < m + r as nat
        ensures GroupPacket(n, m, r, ps, 1, k) in Emitted(calls + [Expire])
      {
        GroupPacketSent(n, r, ps, calls, k);
      }
    }
  }

  lemma {:induction false} GroupPacketSent(n: byte, r: byte, ps: seq<Payload>, calls: seq<Call>, k: nat)
    requires Framable(ps) && Sizes(n, |ps|, r) && |ps| < n as nat && k < |ps| + r as nat
    requires CallsOk(calls) && EncoderOk(Open(n, r, ps, |ps|))
    requires forall i :: 0 <= i < |ps| ==> Wire(Header(1, i, n, r), ps[i]) in Emitted(calls)
    ensures GroupPacket(n, |ps|, r, ps, 1, k) in Emitted(calls) + Stepped(Open(n, r, ps, |ps|), Expire).ws
  {
    hide Emitted, CallsOk, Open, GroupPacket, Framable, EncoderOk, Expired;
    if k < |ps| {
      DataPacketIs(n, r, ps, k);
    } else {
      ParityPacketIs(n, r, ps, k - |ps|);
    }
  }

  lemma {:induction false} SoundlyClosed(n: byte, r: byte, ps: seq<Payload>)
    requires Framable(ps) && Sizes(n, |ps|, r)
    ensures ClosesSoundly(Open(n, r, ps, |ps|), Expire) <==> SoundSize(n, |ps|, r)
  {
    assert ps[..|ps|] == ps;
    hide Framed;
  }

  lemma {:induction false} DataPacketIs(n: byte, r: byte, ps: seq<Payload>, k: nat)
    requires Framable(ps) && Sizes(n, |ps|, r) && k < |ps|
    ensures GroupPacket(n, |ps|, r, ps, 1, k) == Wire(Header(1, k, n, r), ps[k])
  {
    hide Encoded;
  }

  lemma {:induction false} ParityPacketIs(n: byte, r: byte, ps: seq<Payload>, i: nat)
    requires Framable(ps) && Sizes(n, |ps|, r) && |ps| < n as nat && i < r as nat
    ensures var e := Open(n, r, ps, |ps|);
            && EncoderOk(e) && i < |Expired(e).ws|
            && Expired(e).ws[i] == GroupPacket(n, |ps|, r, ps, 1, |ps| + i)
  {
    assert ps[..|ps|] == ps;
    hide Encoded, Framed;
  }

  /** The network makes of these calls something whose payload was in none of them. */
  ghost predicate MakesUp(calls: seq<Call>, arrivals: seq<Arrival>)
  {
    && CallsOk(calls) && Network(Emitted(calls), arrivals) && Sized(arrivals)
    && exists k :: 0 <= k < |After(arrivals).ups| && !Called(calls, After(arrivals).ups[k].payload)
  }

  /**
   Both ends, for all settings and sizes: some m payloads, the timer and some network make the
   receiver hand up a payload the sender was never given exactly when m is unsound.
   */
  lemma {:induction false} EarlyCloseExactly(n: byte, m: nat, r: byte)
    requires Sizes(n, m, r)
    ensures (exists ps: seq<Payload>, arrivals ::
               |ps| == m && Framable(ps) && MakesUp(ClosedCalls(n, r, ps), arrivals))
       <==> !SoundSize(n, m, r)
  {
    if SoundSize(n, m, r) {
      forall ps: seq<Payload>, arrivals | |ps| == m && Framable(ps)
        ensures !MakesUp(ClosedCalls(n, r, ps), arrivals)
      {
        ClosedSent(n, r, ps);
        TimelyNeverMakesUp(ClosedCalls(n, r, ps), arrivals);
      }
    } else {
      var ps, arrivals, up := UnsoundCorrupts(n, m, r, 1);
      ClosedSent(n, r, ps);
      hide GroupPacket, Emitted, After, WireOk, CallsOk, Called, ClosedCalls;
      assert Network(Emitted(ClosedCalls(n, r, ps)), arrivals);
      NeverCalled(n, r, ps, up.payload);
      var k :| 0 <= k < |After(arrivals).ups| && After(arrivals).ups[k] == up;
      assert MakesUp(ClosedCalls(n, r, ps), arrivals);
    }
  }

  lemma {:induction false} NeverCalled(n: byte, r: byte, ps: seq<Payload>, p: Payload)
    requires p !in ps
    ensures !Called(ClosedCalls(n, r, ps), p)
  {
    var calls := ClosedCalls(n, r, ps);
    assert forall k :: 0 <= k < |ps| ==> calls[k] == Call(n, r, ps[k]);
  }

  lemma {:induction false} TimelyNeverMakesUp(calls: seq<Call>, arrivals: seq<Arrival>)
    requires CallsOk(calls) && Timely(calls) && |calls| <= NUMBERS
    ensures !MakesUp(calls, arrivals)
  {
    if MakesUp(calls, arrivals) {
      FewOpened(calls);
      hide Timely, CallsOk, Emitted, Called, After, GroupsOpened;
      EndToEnd(calls, arrivals);
      assert false;
    }
  }
}
