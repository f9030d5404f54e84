/** The block coder of fec.c: gf_mul_add_buf, fec_encode and fec_decode over octet buffers. */
module FecCodec {
  import opened Bytes
  import opened Gf256
  import opened GfField
  import opened GfTables
  import opened Matrix
  import opened Cauchy
  import opened GaussJordan
  import opened ErasureCode

  /** gf_mul_add_buf: dst += coef * src over the first len octets. */
  method MulAddBuf(t: Tables, dst: array<byte>, src: array<byte>, coef: byte, len: nat)
    requires t.Ready() && dst != t.exp && dst != t.log
    requires len <= dst.Length && len <= src.Length
    modifies dst
    ensures forall i :: 0 <= i < len ==> dst[i] == Add(old(dst[i]), Mul(coef, old(src[i])))
    ensures forall i :: len <= i < dst.Length ==> dst[i] == old(dst[i])
  {
    hide Add, Mul;
    if coef == 0 {
      forall i | 0 <= i < len
        ensures dst[i] == Add(dst[i], Mul(coef, src[i]))
      {
        MulZero(src[i]);
        AddSelf(dst[i]);
      }
      return;
    }
    if coef == 1 {
      for i := 0 to len
        invariant forall k :: 0 <= k < i ==> dst[k] == Add(old(dst[k]), Mul(coef, old(src[k])))
        invariant forall k :: i <= k < dst.Length ==> dst[k] == old(dst[k])
        invariant forall k :: i <= k < src.Length ==> src[k] == old(src[k])
      {
        MulOne(src[i]);
        dst[i] := Add(dst[i], src[i]);
      }
      return;
    }
    var logC := t.log[coef];
    for i := 0 to len
      invariant t.Ready()
      invariant forall k :: 0 <= k < i ==> dst[k] == Add(old(dst[k]), Mul(coef, old(src[k])))
      invariant forall k :: i <= k < dst.Length ==> dst[k] == old(dst[k])
      invariant forall k :: i <= k < src.Length ==> src[k] == old(src[k])
    {
      MulZero(coef);
      MulComm(coef, 0);
      AddSelf(dst[i]);
      if src[i] != 0 {
        t.MulByLogs(coef, src[i]);
        dst[i] := Add(dst[i], t.exp[logC as int + t.log[src[i]]]);
      }
    }
  }

  /** Buffers that can be written one by one without touching each other or the tables. */
  ghost predicate Separate(t: Tables, outs: seq<array<byte>>, ins: seq<array<byte>>)
  {
    && (forall i, j :: 0 <= i < j < |outs| ==> outs[i] != outs[j])
    && (forall i, j :: 0 <= i < |outs| && 0 <= j < |ins| ==> outs[i] != ins[j])
    && (forall i :: 0 <= i < |outs| ==> outs[i] != t.exp && outs[i] != t.log)
  }

  ghost predicate LongEnough(bufs: seq<array<byte>>, n: nat, len: nat)
  {
    n <= |bufs| && forall i :: 0 <= i < n ==> len <= bufs[i].Length
  }

  /** The first len octets of the first n buffers. */
  ghost function Contents(bufs: seq<array<byte>>, n: nat, len: nat): (blocks: seq<Block>)
    requires LongEnough(bufs, n, len)
    reads bufs
    ensures AreBlocks(blocks, n, len)
  {
    seq(n, i requires 0 <= i < n && LongEnough(bufs, n, len) reads bufs => bufs[i][..len])
  }

  /** buf holds the first k terms of the linear combination of the source blocks. */
  ghost predicate Accumulated(buf: array<byte>, coefs: Vec, blocks: seq<Block>, n: nat, len: nat, k: nat)
    requires AreBlocks(blocks, n, len) && |coefs| == n && k <= n && len <= buf.Length
    reads buf
  {
    forall c :: 0 <= c < len ==> buf[c] == Dot(coefs, Slice(blocks, n, len, c), k)
  }

  method Clear(buf: array<byte>, len: nat)
    requires len <= buf.Length
    modifies buf
    ensures forall c :: 0 <= c < len ==> buf[c] == 0
    ensures forall c :: len <= c < buf.Length ==> buf[c] == old(buf[c])
  {
    forall c | 0 <= c < len {
      buf[c] := 0;
    }
  }

  /** One accumulation step of an encoder or decoder inner loop. */
  method AddTerm(t: Tables, buf: array<byte>, srcs: seq<array<byte>>, ghost coefs: Vec, coef: byte, k: nat, n: nat,
                 len: nat)
    requires t.Ready() && LongEnough(srcs, n, len) && k < n == |coefs| && len <= buf.Length && coef == coefs[k]
    requires Separate(t, [buf], srcs)
    requires Accumulated(buf, coefs, Contents(srcs, n, len), n, len, k)
    modifies buf
    ensures Accumulated(buf, coefs, Contents(srcs, n, len), n, len, k + 1)
    ensures forall c :: len <= c < buf.Length ==> buf[c] == old(buf[c])
    ensures Contents(srcs, n, len) == old(Contents(srcs, n, len))
  {
    hide Add, Mul;
    ghost var blocks := Contents(srcs, n, len);
    assert [buf][0] == buf;
    MulAddBuf(t, buf, srcs[k], coef, len);
    forall j | 0 <= j < n
      ensures Contents(srcs, n, len)[j] == blocks[j]
    {
      assert srcs[j] != buf;
    }
    forall c | 0 <= c < len
      ensures buf[c] == Dot(coefs, Slice(blocks, n, len, c), k + 1)
    {
      assert Slice(blocks, n, len, c)[k] == old(srcs[k][c]);
    }
  }

  lemma {:induction false} AccumulatedIsEncoded(buf: array<byte>, blocks: seq<Block>, n: nat, len: nat, idx: nat)
    requires AreBlocks(blocks, n, len) && n <= 256 && idx < 256 && len <= buf.Length
    requires Accumulated(buf, GeneratorRow(n, idx), blocks, n, len, n)
    ensures buf[..len] == Encoded(blocks, n, len, idx)
  {
    hide Dot, GeneratorRow;
  }

  /** One parity block: the Cauchy row of index idx applied to the data. */
  method EncodeParity(t: Tables, data: seq<array<byte>>, n: nat, idx: nat, len: nat, parity: array<byte>)
    requires t.Ready() && n <= idx < 256 && LongEnough(data, n, len) && len <= parity.Length
    requires Separate(t, [parity], data)
    modifies parity
    ensures parity[..len] == Encoded(old(Contents(data, n, len)), n, len, idx)
    ensures Contents(data, n, len) == old(Contents(data, n, len))
  {
    hide Dot, Add, Mul, Div;
    assert [parity][0] == parity;
    ghost var blocks, row := Contents(data, n, len), GeneratorRow(n, idx);
    Clear(parity, len);
    assert Contents(data, n, len) == blocks by {
      forall j | 0 <= j < n
        ensures Contents(data, n, len)[j] == blocks[j]
      {
        assert data[j] != parity;
      }
    }
    forall c | 0 <= c < len
      ensures Dot(row, Slice(blocks, n, len, c), 0) == 0
    {
      DotZero(row, Slice(blocks, n, len, c), 0);
    }
    for j := 0 to n
      invariant t.Ready()
      invariant Contents(data, n, len) == blocks
      invariant Accumulated(parity, row, blocks, n, len, j)
    {
      var coef := t.GfDiv(1, Add(idx, j));
      assert row[j] == coef;
      AddTerm(t, parity, data, row, coef, j, n, len);
    }
    AccumulatedIsEncoded(parity, blocks, n, len, idx);
  }

  /** fec_encode */
  method FecEncode(t: Tables, data: seq<array<byte>>, n: int, r: int, len: nat,
                   parity: seq<array<byte>>)
    returns (ret: int)
    requires t.Ready() && n + r <= 256
    requires n > 0 ==> LongEnough(data, n, len)
    requires r > 0 ==> LongEnough(parity, r, len)
    requires Separate(t, parity, data)
    modifies parity
    ensures ret == 0
    ensures n > 0 && r > 0 ==> Contents(data, n, len) == old(Contents(data, n, len))
    ensures n > 0 && r > 0 ==>
              forall i :: 0 <= i < r ==> parity[i][..len] == Encoded(old(Contents(data, n, len)), n, len, n + i)
    ensures n <= 0 || r <= 0 ==> forall i :: 0 <= i < |parity| ==> parity[i][..] == old(parity[i][..])
  {
    hide Encoded;
    if n <= 0 || r <= 0 {
      return 0;
    }
    ghost var blocks := Contents(data, n, len);
    for i := 0 to r
      invariant t.Ready()
      invariant Contents(data, n, len) == blocks
      invariant forall k :: 0 <= k < i ==> parity[k][..len] == Encoded(blocks, n, len, n + k)
    {
      EncodeParity(t, data, n, n + i, len, parity[i]);
    }
    return 0;
  }

  // ---------------------------------------------------------------- decoding

  /** The decoding matrix A of fec_decode, one generator row per received index. */
  method FillRows(t: Tables, a: array2<byte>, indices: seq<nat>, n: nat)
    requires t.Ready() && a.Length0 == a.Length1 == n <= 16 && n <= |indices|
    requires forall i :: 0 <= i < n ==> indices[i] < 256
    modifies a
    ensures Rows(a) == Received(indices[..n], n)
  {
    hide Div, Add;
    var i := 0;
    while i < n
      invariant 0 <= i <= n && t.Ready()
      invariant forall r, c :: 0 <= r < i && 0 <= c < n ==> a[r, c] == Coefficient(n, indices[r], c)
    {
      var idx := indices[i];
      var j := 0;
      while j < n
        invariant 0 <= j <= n && t.Ready()
        invariant forall r, c :: 0 <= r < i && 0 <= c < n ==> a[r, c] == Coefficient(n, indices[r], c)
        invariant forall c :: 0 <= c < j ==> a[i, c] == Coefficient(n, idx, c)
      {
        if idx < n {
          a[i, j] := if j == idx then 1 else 0;
        } else {
          a[i, j] := t.GfDiv(1, Add(idx, j));
        }
        j := j + 1;
      }
      i := i + 1;
    }
    forall r | 0 <= r < n
      ensures Rows(a)[r] == Received(indices[..n], n)[r]
    {
    }
  }

  /** Row j of the inverse applied to the received blocks. */
  ghost function Combination(row: Vec, blocks: seq<Block>, n: nat, len: nat): (b: Block)
    requires AreBlocks(blocks, n, len) && |row| == n
    ensures |b| == len
  {
    seq(len, c requires 0 <= c < len => Dot(row, Slice(blocks, n, len, c), n))
  }

  /** First position holding index j, or -1. */
  method FindIndex(indices: seq<nat>, j: nat, n: nat) returns (found: int)
    requires n <= |indices|
    ensures -1 <= found < n
    ensures found >= 0 ==> indices[found] == j
    ensures found < 0 ==> j !in indices[..n]
  {
    for i := 0 to n
      invariant j !in indices[..i]
    {
      if indices[i] == j {
        return i;
      }
    }
    return -1;
  }

  method CopyBlock(dst: array<byte>, src: array<byte>, len: nat)
    requires len <= dst.Length && len <= src.Length
    modifies dst
    ensures dst[..len] == old(src[..len])
  {
    forall c | 0 <= c < len {
      dst[c] := src[c];
    }
  }

  /** Sum of inverse[j, i] times received block i. */
  method CombineBlocks(t: Tables, received: seq<array<byte>>, inverse: array2<byte>, j: nat, n: nat, len: nat,
                       out: array<byte>)
    requires t.Ready() && LongEnough(received, n, len) && len <= out.Length
    requires inverse.Length0 == inverse.Length1 == n && j < n
    requires Separate(t, [out], received)
    modifies out
    ensures out[..len] == Combination(Rows(inverse)[j], old(Contents(received, n, len)), n, len)
    ensures Contents(received, n, len) == old(Contents(received, n, len))
  {
    hide Dot, Add, Mul;
    assert [out][0] == out;
    ghost var blocks, row := Contents(received, n, len), Rows(inverse)[j];
    Clear(out, len);
    assert Contents(received, n, len) == blocks by {
      forall k | 0 <= k < n
        ensures Contents(received, n, len)[k] == blocks[k]
      {
        assert received[k] != out;
      }
    }
    forall c | 0 <= c < len
      ensures Dot(row, Slice(blocks, n, len, c), 0) == 0
    {
      DotZero(row, Slice(blocks, n, len, c), 0);
    }
    for i := 0 to n
      invariant t.Ready() && Rows(inverse)[j] == row
      invariant Contents(received, n, len) == blocks
      invariant Accumulated(out, row, blocks, n, len, i)
    {
      AddTerm(t, out, received, row, inverse[j, i], i, n, len);
    }
  }

  /** A received data block is what the inverse would compute for it. */
  lemma {:induction false} ReceivedRow(b: Mat, indices: seq<nat>, blocks: seq<Block>, n: nat, len: nat, i: nat)
    requires |indices| == n <= 256 && forall k :: 0 <= k < n ==> indices[k] < 256
    requires AreBlocks(blocks, n, len) && IsSquare(b, n)
    requires IsProduct(Identity(n), b, Received(indices, n), n) && Nonsingular(b, n)
    requires i < n && indices[i] < n
    ensures Combination(b[indices[i]], blocks, n, len) == blocks[i]
  {
    hide Dot, IsProduct, Nonsingular, Received, Reciprocal;
    var j := indices[i];
    forall c | 0 <= c < len
      ensures Combination(b[j], blocks, n, len)[c] == blocks[i][c]
    {
      var u := Slice(blocks, n, len, c);
      RightInverse(b, Received(indices, n), u, n);
      UnitRow(indices, n, i, Apply(b, u, n));
    }
  }

  lemma {:induction false} UnitRow(indices: seq<nat>, n: nat, i: nat, w: Vec)
    requires |indices| == n <= 256 && forall k :: 0 <= k < n ==> indices[k] < 256
    requires i < n && indices[i] < n && |w| == n
    ensures Apply(Received(indices, n), w, n)[i] == w[indices[i]]
  {
    hide Dot, Reciprocal;
    assert GeneratorRow(n, indices[i]) == UnitVec(indices[i], n);
    DotUnit(indices[i], w, n);
  }

  /** Rows of the inverse applied to the received blocks explain them. */
  lemma {:induction false} CombinationsExplain(b: Mat, data: seq<Block>, indices: seq<nat>, blocks: seq<Block>,
                                               n: nat, len: nat)
    requires |indices| == n <= 256 && forall k :: 0 <= k < n ==> indices[k] < 256
    requires AreBlocks(blocks, n, len) && AreBlocks(data, n, len) && IsSquare(b, n)
    requires IsProduct(Identity(n), b, Received(indices, n), n) && Nonsingular(b, n)
    requires forall j :: 0 <= j < n ==> data[j] == Combination(b[j], blocks, n, len)
    ensures Explains(data, blocks, indices, n, len)
  {
    hide Dot, IsProduct, Nonsingular, Received;
    forall c | 0 <= c < len
      ensures Apply(Received(indices, n), Slice(data, n, len, c), n) == Slice(blocks, n, len, c)
    {
      var u := Slice(blocks, n, len, c);
      RightInverse(b, Received(indices, n), u, n);
      assert Slice(data, n, len, c) == Apply(b, u, n) by {
        forall j | 0 <= j < n
          ensures Slice(data, n, len, c)[j] == Apply(b, u, n)[j]
        {
          assert data[j][c] == Combination(b[j], blocks, n, len)[c];
        }
      }
    }
  }

  /** Write each missing data block from the inverse and copy the others through. */
  method RecoverBlocks(t: Tables, received: seq<array<byte>>, indices: seq<nat>, inverse: array2<byte>, n: nat,
                       len: nat,
                       recovered: seq<array<byte>>)
    requires t.Ready() && n <= 16 && LongEnough(received, n, len) && LongEnough(recovered, n, len)
    requires |indices| >= n && forall k :: 0 <= k < n ==> indices[k] < 256
    requires inverse.Length0 == inverse.Length1 == n
    requires IsProduct(Identity(n), Rows(inverse), Received(indices[..n], n), n) && Nonsingular(Rows(inverse), n)
    requires Separate(t, recovered, received)
    modifies recovered
    ensures Explains(Contents(recovered, n, len), old(Contents(received, n, len)), indices[..n], n, len)
    ensures Contents(received, n, len) == old(Contents(received, n, len))
  {
    hide Dot, IsProduct, Nonsingular, Received, Combination, Explains;
    ghost var blocks, b := Contents(received, n, len), Rows(inverse);
    for j := 0 to n
      invariant t.Ready() && Rows(inverse) == b
      invariant Contents(received, n, len) == blocks
      invariant forall k :: 0 <= k < j ==> recovered[k][..len] == Combination(b[k], blocks, n, len)
    {
      var found := FindIndex(indices, j, n);
      if found != -1 {
        ReceivedRow(b, indices[..n], blocks, n, len, found);
        assert blocks[found] == received[found][..len];
        CopyBlock(recovered[j], received[found], len);
      } else {
        assert [recovered[j]][0] == recovered[j];
        CombineBlocks(t, received, inverse, j, n, len, recovered[j]);
      }
      assert Contents(received, n, len) == blocks by {
        forall k | 0 <= k < n
          ensures Contents(received, n, len)[k] == blocks[k]
        {
          assert received[k] != recovered[j];
        }
      }
    }
    CombinationsExplain(b, Contents(recovered, n, len), indices[..n], blocks, n, len);
  }

  /**
   fec_decode.  It succeeds exactly when enough blocks arrived and their rows are independent, and
   then the recovered blocks are the ones whose encodings were received.
   */
  method FecDecode(t: Tables, received: seq<array<byte>>, indices: seq<nat>, numReceived: int, n: nat, r: nat, len: nat,
                   recovered: seq<array<byte>>) returns (ret: int)
    requires t.Ready()
    requires n <= numReceived ==> n <= |indices| && LongEnough(received, n, len) && LongEnough(recovered, n, len)
    requires forall k :: 0 <= k < |indices| ==> indices[k] < 256
    requires Separate(t, recovered, received)
    modifies recovered
    ensures ret == 0 || ret == -1
    ensures ret == 0 <==> n <= numReceived && n <= 16 && Nonsingular(Received(indices[..n], n), n)
    ensures ret == 0 ==> Explains(Contents(recovered, n, len), old(Contents(received, n, len)), indices[..n], n, len)
    ensures ret == 0 ==> Contents(received, n, len) == old(Contents(received, n, len))
    ensures ret == -1 ==> forall i :: 0 <= i < |recovered| ==> recovered[i][..] == old(recovered[i][..])
  {
    hide Dot, IsProduct, Explains;
    if numReceived < n {
      return -1;
    }
    if n > 16 {
      return -1;
    }
    var a := new byte[n, n];
    var inverse := new byte[n, n];
    FillRows(t, a, indices, n);
    var inverted := InvertMatrix(t, a, inverse);
    if inverted < 0 {
      return -1;
    }
    RecoverBlocks(t, received, indices, inverse, n, len, recovered);
    return 0;
  }

  /** Any n of the n + r encoded blocks, in any order, decode to the data. */
  method DecodeAnyLoss(t: Tables, received: seq<array<byte>>, indices: seq<nat>, n: nat, r: nat, len: nat,
                       recovered: seq<array<byte>>, ghost data: seq<Block>) returns (ret: int)
    requires t.Ready() && 1 <= n <= 16 && r <= 8
    requires LongEnough(received, n, len) && LongEnough(recovered, n, len)
    requires GoodIndices(indices, n, n + r) && Genuine(data, Contents(received, n, len), indices, n, len)
    requires Separate(t, recovered, received)
    modifies recovered
    ensures ret == 0 && Contents(recovered, n, len) == data
  {
    hide Nonsingular, Received, Encoded, Explains;
    assert indices[..n] == indices;
    AnyRowsIndependent(indices, n, n + r);
    ghost var blocks := Contents(received, n, len);
    ret := FecDecode(t, received, indices, n, n, r, len, recovered);
    AnyNBlocksDetermineData(data, Contents(recovered, n, len), blocks, indices, n, r, len);
  }
}
