/**
 The systematic erasure code of fec.c as mathematics: row idx of the generator matrix is a unit
 vector for idx < n and the Cauchy row 1 / (idx + j) for idx >= n.
 */
module ErasureCode {
  import opened Bytes
  import opened Counting
  import opened Gf256
  import opened GfField
  import opened Matrix
  import opened Cauchy

  type Block = seq<byte>

  /** Entry j of generator row idx. */
  ghost function Coefficient(n: nat, idx: nat, j: nat): byte
    requires idx < 256 && j < 256
  {
    if idx < n then if j == idx then 1 else 0
    else Reciprocal(idx, j)
  }

  /** A parity row is a Cauchy row: entry times the sum of the two indices is 1. */
  lemma {:induction false} CauchyEntry(n: nat, idx: nat, j: nat)
    requires j < n <= idx < 256
    ensures Mul(Add(idx, j), Coefficient(n, idx, j)) == 1
  {
    ReciprocalSpec(idx, j);
    hide Add, Mul, Reciprocal;
  }

  ghost function GeneratorRow(n: nat, idx: nat): (r: Vec)
    requires n <= 256 && idx < 256
    ensures |r| == n
  {
    seq(n, j requires 0 <= j < n => Coefficient(n, idx, j))
  }

  ghost predicate GoodIndices(indices: seq<nat>, n: nat, total: nat)
  {
    && |indices| == n <= total <= 256
    && (forall i :: 0 <= i < n ==> indices[i] < total)
    && (forall i, j :: 0 <= i < j < n ==> indices[i] != indices[j])
  }

  /** The rows a receiver holding these indices can use. */
  ghost function Received(indices: seq<nat>, n: nat): (m: Mat)
    requires |indices| == n <= 256
    requires forall i :: 0 <= i < n ==> indices[i] < 256
    ensures IsSquare(m, n)
  {
    seq(n, i requires 0 <= i < n => GeneratorRow(n, indices[i]))
  }

  // ---------------------------------------------------------------- missing columns and parity rows

  /** The data indices below k that did not arrive, in order. */
  ghost function Missing(indices: seq<nat>, k: nat): (ys: Vec)
    requires k <= 256
    ensures |ys| <= k
    ensures forall j :: 0 <= j < |ys| ==> ys[j] < k && ys[j] as nat !in indices
    ensures DistinctUpto(ys, |ys|)
  {
    if k == 0 then []
    else if k - 1 in indices then Missing(indices, k - 1)
    else Missing(indices, k - 1) + [(k - 1) as byte]
  }

  /** The parity indices among the first k received, in order. */
  ghost function Parities(indices: seq<nat>, n: nat, k: nat): (xs: Vec)
    requires k <= |indices| && forall i :: 0 <= i < k ==> indices[i] < 256
    ensures forall j :: 0 <= j < |xs| ==> xs[j] >= n && exists i :: 0 <= i < k && indices[i] == xs[j]
    ensures (forall i, j :: 0 <= i < j < k ==> indices[i] != indices[j]) ==> DistinctUpto(xs, |xs|)
  {
    if k == 0 then []
    else
      var xs := Parities(indices, n, k - 1);
      if indices[k - 1] < n then xs else xs + [indices[k - 1] as byte]
  }

  ghost function Upto(indices: seq<nat>, k: nat): set<nat>
  {
    set i | i in indices && i < k
  }

  lemma {:induction false} MissingCount(indices: seq<nat>, k: nat)
    requires k <= 256
    ensures |Missing(indices, k)| + |Upto(indices, k)| == k
    decreases k
  {
    if k == 0 {
      assert Upto(indices, 0) == {};
    } else {
      MissingCount(indices, k - 1);
      if k - 1 in indices {
        assert Upto(indices, k) == Upto(indices, k - 1) + {k - 1};
      } else {
        assert Upto(indices, k) == Upto(indices, k - 1);
      }
    }
  }

  ghost function DataPrefix(indices: seq<nat>, n: nat, k: nat): set<nat>
    requires k <= |indices|
  {
    set i | i in indices[..k] && i < n
  }

  lemma {:induction false} ParityCount(indices: seq<nat>, n: nat, k: nat)
    requires k <= |indices| && forall i :: 0 <= i < k ==> indices[i] < 256
    requires forall i, j :: 0 <= i < j < k ==> indices[i] != indices[j]
    ensures |Parities(indices, n, k)| + |DataPrefix(indices, n, k)| == k
    decreases k
  {
    if k == 0 {
      assert DataPrefix(indices, n, 0) == {};
    } else {
      ParityCount(indices, n, k - 1);
      hide Parities;
      ParityStep(indices, n, k);
      DataStep(indices, n, k);
    }
  }

  lemma {:induction false} ParityStep(indices: seq<nat>, n: nat, k: nat)
    requires 0 < k <= |indices| && forall i :: 0 <= i < k ==> indices[i] < 256
    ensures |Parities(indices, n, k)| == |Parities(indices, n, k - 1)| + (if indices[k - 1] < n then 0 else 1)
  {
  }

  lemma {:induction false} DataStep(indices: seq<nat>, n: nat, k: nat)
    requires 0 < k <= |indices|
    requires forall i, j :: 0 <= i < j < k ==> indices[i] != indices[j]
    ensures |DataPrefix(indices, n, k)| == |DataPrefix(indices, n, k - 1)| + (if indices[k - 1] < n then 1 else 0)
  {
    var last := indices[k - 1];
    assert indices[..k] == indices[..k - 1] + [last];
    assert last !in indices[..k - 1];
    if last < n {
      assert DataPrefix(indices, n, k) == DataPrefix(indices, n, k - 1) + {last};
    } else {
      assert DataPrefix(indices, n, k) == DataPrefix(indices, n, k - 1);
    }
  }

  /** As many parity rows arrived as data rows are missing. */
  lemma {:induction false} ParitiesMatchMissing(indices: seq<nat>, n: nat)
    requires |indices| == n <= 256 && forall i :: 0 <= i < n ==> indices[i] < 256
    requires forall i, j :: 0 <= i < j < n ==> indices[i] != indices[j]
    ensures |Parities(indices, n, n)| == |Missing(indices, n)|
  {
    MissingCount(indices, n);
    ParityCount(indices, n, n);
    assert indices[..n] == indices;
    assert DataPrefix(indices, n, n) == Upto(indices, n);
  }

  // ---------------------------------------------------------------- independence

  ghost function Pick(v: Vec, ys: Vec): (w: Vec)
    requires forall j :: 0 <= j < |ys| ==> ys[j] < |v|
    ensures |w| == |ys|
  {
    seq(|ys|, j requires 0 <= j < |ys| => v[ys[j]])
  }

  /** A parity row sees only the unknowns that did not arrive. */
  lemma {:induction false} ParityRowSum(indices: seq<nat>, n: nat, x: nat, v: Vec, k: nat)
    requires k <= n == |v| && n <= x < 256
    requires forall j :: 0 <= j < n && j in indices ==> v[j] == 0
    ensures var ys := Missing(indices, k);
            Dot(GeneratorRow(n, x), v, k) == CauchySum(x, ys, Pick(v, ys), |ys|)
    decreases k
  {
    if k > 0 {
      ParityRowSum(indices, n, x, v, k - 1);
      DotStep(GeneratorRow(n, x), v, k);
      ParityEntry(n, x, k - 1);
      var ys, ys' := Missing(indices, k - 1), Missing(indices, k);
      var d := Dot(GeneratorRow(n, x), v, k - 1);
      hide Dot, GeneratorRow, CauchySum, Add, Mul, Reciprocal;
      if k - 1 in indices {
        assert ys' == ys;
        NoZeroDivisors(Reciprocal(x, k - 1), v[k - 1]);
        AddSelf(d);
      } else {
        hide Missing;
        MissingSnoc(indices, k);
        AddsTerm(x, ys, ys', v, k - 1);
      }
    }
  }

  lemma {:induction false} ParityEntry(n: nat, x: nat, j: nat)
    requires j < n <= x < 256
    ensures GeneratorRow(n, x)[j] == Reciprocal(x, j)
  {
    hide Reciprocal;
  }

  lemma {:induction false} MissingSnoc(indices: seq<nat>, k: nat)
    requires 0 < k <= 256 && k - 1 !in indices
    ensures Missing(indices, k) == Missing(indices, k - 1) + [(k - 1) as byte]
  {
  }

  /** One more unknown adds its term. */
  lemma {:induction false} AddsTerm(x: byte, ys: Vec, ys': Vec, v: Vec, j: byte)
    requires ys' == ys + [j] && j < |v| && forall i :: 0 <= i < |ys'| ==> ys'[i] < |v|
    ensures forall i :: 0 <= i < |ys| ==> ys[i] < |v|
    ensures CauchySum(x, ys', Pick(v, ys'), |ys'|)
         == Add(CauchySum(x, ys, Pick(v, ys), |ys|), Mul(Reciprocal(x, j), v[j]))
  {
    hide Add, Mul, Reciprocal;
    assert forall i :: 0 <= i < |ys| ==> ys[i] == ys'[i];
    SumStep(x, ys', Pick(v, ys'), |ys'|);
    CauchySumPrefix(x, ys, Pick(v, ys), ys', Pick(v, ys'), |ys|);
    MulComm(Reciprocal(x, j), v[j]);
    hide CauchySum;
  }

  lemma {:induction false} CauchySumPrefix(x: byte, ys: Vec, v: Vec, ys': Vec, v': Vec, k: nat)
    requires k <= |ys| && k <= |ys'| && k <= |v| && k <= |v'|
    requires forall j :: 0 <= j < k ==> ys[j] == ys'[j] && v[j] == v'[j]
    ensures CauchySum(x, ys, v, k) == CauchySum(x, ys', v', k)
    decreases k
  {
    hide Add, Mul, Reciprocal;
    if k > 0 {
      CauchySumPrefix(x, ys, v, ys', v', k - 1);
    }
  }

  lemma {:induction false} ArrivedDataIsZero(indices: seq<nat>, n: nat, v: Vec, j: nat)
    requires |indices| == n <= 256 && |v| == n && forall i :: 0 <= i < n ==> indices[i] < 256
    requires Apply(Received(indices, n), v, n) == ZeroVec(n)
    requires j < n && j in indices
    ensures v[j] == 0
  {
    var i :| 0 <= i < n && indices[i] == j;
    hide Dot, Add, Mul, Reciprocal;
    assert Apply(Received(indices, n), v, n)[i] == ZeroVec(n)[i];
    assert GeneratorRow(n, j) == UnitVec(j, n);
    DotUnit(j, v, n);
  }

  /** Every choice and order of n distinct indices below n + r gives an invertible matrix. */
  lemma {:induction false} AnyRowsIndependent(indices: seq<nat>, n: nat, total: nat)
    requires GoodIndices(indices, n, total)
    ensures Nonsingular(Received(indices, n), n)
  {
    hide Dot, Add, Mul, Reciprocal, CauchySum, Missing, Parities, Apply, Received, ZeroVec;
    forall v: Vec | |v| == n && Apply(Received(indices, n), v, n) == ZeroVec(n)
      ensures v == ZeroVec(n)
    {
      OnlyZeroIsLost(indices, n, total, v);
    }
  }

  lemma {:induction false} ParityEquations(indices: seq<nat>, n: nat, total: nat, v: Vec)
    requires GoodIndices(indices, n, total) && |v| == n
    requires Apply(Received(indices, n), v, n) == ZeroVec(n)
    requires forall j :: 0 <= j < n && j in indices ==> v[j] == 0
    ensures var xs, ys := Parities(indices, n, n), Missing(indices, n);
            |xs| == |ys| && Solves(xs, ys, Pick(v, ys), |ys|)
  {
    hide Dot, Add, Mul, Reciprocal, CauchySum, Missing, Parities;
    ParitiesMatchMissing(indices, n);
    var xs, ys := Parities(indices, n, n), Missing(indices, n);
    forall m | 0 <= m < |xs|
      ensures CauchySum(xs[m], ys, Pick(v, ys), |ys|) == 0
    {
      var i :| 0 <= i < n && indices[i] == xs[m];
      assert Apply(Received(indices, n), v, n)[i] == ZeroVec(n)[i];
      ParityRowSum(indices, n, xs[m], v, n);
    }
  }

  lemma {:induction false} OnlyZeroIsLost(indices: seq<nat>, n: nat, total: nat, v: Vec)
    requires GoodIndices(indices, n, total) && |v| == n
    requires Apply(Received(indices, n), v, n) == ZeroVec(n)
    ensures v == ZeroVec(n)
  {
    hide Dot, Add, Mul, Reciprocal, CauchySum, Missing, Parities, Apply, Received;
    forall j | 0 <= j < n && j in indices
      ensures v[j] == 0
    {
      ArrivedDataIsZero(indices, n, v, j);
    }
    var xs, ys := Parities(indices, n, n), Missing(indices, n);
    ParityEquations(indices, n, total, v);
    CauchyNonsingular(xs, ys, Pick(v, ys), |ys|);
    forall j | 0 <= j < n
      ensures v[j] == 0
    {
      if j !in indices {
        var m := MissingPosition(indices, n, j);
        assert Pick(v, ys)[m] == v[j];
      }
    }
  }

  lemma {:induction false} MissingPosition(indices: seq<nat>, k: nat, j: nat) returns (m: nat)
    requires j < k <= 256 && j !in indices
    ensures m < |Missing(indices, k)| && Missing(indices, k)[m] == j
    decreases k
  {
    if j == k - 1 {
      m := |Missing(indices, k)| - 1;
    } else {
      m := MissingPosition(indices, k - 1, j);
    }
  }

  // ---------------------------------------------------------------- encoding and decoding blocks

  ghost predicate AreBlocks(data: seq<Block>, n: nat, len: nat)
  {
    |data| == n && forall j :: 0 <= j < n ==> |data[j]| == len
  }

  /** The octets at position c of the n blocks. */
  ghost function Slice(data: seq<Block>, n: nat, len: nat, c: nat): (v: Vec)
    requires AreBlocks(data, n, len) && c < len
    ensures |v| == n
  {
    seq(n, j requires 0 <= j < n => data[j][c])
  }

  /** Block idx of the code: data block idx itself, or parity block idx - n. */
  ghost function Encoded(data: seq<Block>, n: nat, len: nat, idx: nat): (b: Block)
    requires AreBlocks(data, n, len) && n <= 256 && idx < 256
    ensures |b| == len
  {
    seq(len, c requires 0 <= c < len => Dot(GeneratorRow(n, idx), Slice(data, n, len, c), n))
  }

  lemma {:induction false} EncodedData(data: seq<Block>, n: nat, len: nat, idx: nat)
    requires AreBlocks(data, n, len) && idx < n <= 256
    ensures Encoded(data, n, len, idx) == data[idx]
  {
    hide Dot, Reciprocal;
    assert GeneratorRow(n, idx) == UnitVec(idx, n);
    forall c | 0 <= c < len
      ensures Encoded(data, n, len, idx)[c] == data[idx][c]
    {
      DotUnit(idx, Slice(data, n, len, c), n);
    }
  }

  function ZeroBlock(len: nat): (b: Block)
    ensures |b| == len
  {
    seq(len, c => 0)
  }

  /** One more data block of zeros leaves every parity as it was. */
  lemma {:induction false} ZeroExtended(data: seq<Block>, n: nat, len: nat, idx: nat)
    requires AreBlocks(data, n, len) && n < idx < 256
    ensures Encoded(data + [ZeroBlock(len)], n + 1, len, idx) == Encoded(data, n, len, idx)
  {
    var more := data + [ZeroBlock(len)];
    forall c | 0 <= c < len
      ensures Encoded(more, n + 1, len, idx)[c] == Encoded(data, n, len, idx)[c]
    {
      ZeroTerm(GeneratorRow(n + 1, idx), Slice(more, n + 1, len, c), n);
      hide Reciprocal, Dot;
      DotExt(GeneratorRow(n + 1, idx), GeneratorRow(n, idx), Slice(more, n + 1, len, c), Slice(data, n, len, c), n);
    }
    hide Dot, Slice, GeneratorRow;
  }

  lemma {:induction false} ZeroTerm(u: Vec, v: Vec, n: nat)
    requires |u| == |v| == n + 1 && v[n] == 0
    ensures Dot(u, v, n + 1) == Dot(u, v, n)
  {
    hide Add, Mul;
    MulComm(u[n], 0);
    MulZero(u[n]);
    AddSelf(Dot(u, v, n));
  }

  /** What a decoder owes: blocks whose encodings at the received indices are the received blocks. */
  ghost predicate Explains(data: seq<Block>, received: seq<Block>, indices: seq<nat>, n: nat, len: nat)
    requires AreBlocks(received, n, len) && |indices| == n <= 256
    requires forall i :: 0 <= i < n ==> indices[i] < 256
  {
    && AreBlocks(data, n, len)
    && forall c :: 0 <= c < len ==> Apply(Received(indices, n), Slice(data, n, len, c), n) == Slice(received, n, len, c)
  }

  /** The encodings of data at the received indices. */
  ghost predicate Genuine(data: seq<Block>, received: seq<Block>, indices: seq<nat>, n: nat, len: nat)
  {
    && |indices| == n <= 256 && AreBlocks(data, n, len) && AreBlocks(received, n, len)
    && forall i :: 0 <= i < n ==> indices[i] < 256 && received[i] == Encoded(data, n, len, indices[i])
  }

  lemma {:induction false} GenuineExplains(data: seq<Block>, received: seq<Block>, indices: seq<nat>, n: nat, len: nat)
    requires Genuine(data, received, indices, n, len)
    ensures Explains(data, received, indices, n, len)
  {
    hide Dot, GeneratorRow;
    forall c | 0 <= c < len
      ensures Apply(Received(indices, n), Slice(data, n, len, c), n) == Slice(received, n, len, c)
    {
      forall i | 0 <= i < n
        ensures Apply(Received(indices, n), Slice(data, n, len, c), n)[i] == Slice(received, n, len, c)[i]
      {
        assert received[i][c] == Encoded(data, n, len, indices[i])[c];
      }
    }
  }

  /** Independent rows leave a single explanation. */
  lemma {:induction false} ExplanationUnique(d: seq<Block>, e: seq<Block>, received: seq<Block>, indices: seq<nat>,
                                             n: nat, len: nat)
    requires |indices| == n <= 256 && forall i :: 0 <= i < n ==> indices[i] < 256
    requires AreBlocks(received, n, len) && Nonsingular(Received(indices, n), n)
    requires Explains(d, received, indices, n, len) && Explains(e, received, indices, n, len)
    ensures d == e
  {
    hide Dot, Received, Nonsingular, Apply;
    forall j | 0 <= j < n
      ensures d[j] == e[j]
    {
      forall c | 0 <= c < len
        ensures d[j][c] == e[j][c]
      {
        var u, w := Slice(d, n, len, c), Slice(e, n, len, c);
        ApplyInjective(Received(indices, n), u, w, n);
        assert u[j] == w[j];
      }
    }
  }

  /** The code corrects any loss of r blocks: n genuine blocks at distinct indices have one explanation. */
  lemma {:induction false} AnyNBlocksDetermineData(data: seq<Block>, other: seq<Block>, received: seq<Block>,
                                                   indices: seq<nat>, n: nat, r: nat, len: nat)
    requires GoodIndices(indices, n, n + r)
    requires Genuine(data, received, indices, n, len)
    requires Explains(other, received, indices, n, len)
    ensures other == data
  {
    hide Dot, Received, Nonsingular, Apply, Encoded, Explains;
    AnyRowsIndependent(indices, n, n + r);
    GenuineExplains(data, received, indices, n, len);
    ExplanationUnique(other, data, received, indices, n, len);
  }
}
