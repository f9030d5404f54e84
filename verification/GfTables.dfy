/** The exponential and logarithm tables of fec.c and the arithmetic that looks them up. */
module GfTables {
  import opened Bytes
  import opened Gf256
  import opened GfOrder
  import opened GfField

  lemma {:induction false} LogEntry(b: byte) returns (j: nat)
    requires b != 0
    ensures 1 <= j <= 255 && Exp(j) == b
  {
    var i := Log(b);
    Exp255();
    Exp0();
    j := if i == 0 then 255 else i;
  }

  class Tables {
    const exp: array<byte>
    const log: array<byte>

    /** exp[k] is x^k for every index the lookups can form, and log is its inverse with values 1..255. */
    ghost predicate Ready()
      reads exp, log
    {
      && exp.Length == 512 && log.Length == 256 && exp != log
      && (forall k :: 0 <= k <= 510 ==> exp[k] == Exp(k))
      && (forall j :: 1 <= j <= 255 ==> log[Exp(j)] == j)
      && log[0] == 0
    }

    constructor ()
      ensures fresh(exp) && fresh(log) && exp != log
      ensures exp.Length == 512 && log.Length == 256
    {
      exp := new byte[512](_ => 0);
      log := new byte[256](_ => 0);
    }

    /** gf_init: the loop runs 256 times, so the entry for 1 ends as 255 rather than 0. */
    method Init()
      requires exp.Length == 512 && log.Length == 256 && exp != log
      modifies exp, log
      ensures Ready()
      ensures log[1] == 255
    {
      var val: int := 1;
      Exp0();
      Exp255();
      var i := 0;
      hide Exp;
      while i < 256
        invariant 0 <= i <= 256
        invariant val == Exp(i)
        invariant forall k :: 0 <= k < i ==> exp[k] == Exp(k)
        invariant forall k :: 255 <= k < i + 255 ==> exp[k] == Exp(k)
        invariant forall j :: 0 <= j < i && i - 255 <= j ==> log[Exp(j)] == j
      {
        Period(i);
        forall j | 0 <= j < i && i - 254 <= j
          ensures Exp(j) != Exp(i)
        {
          ExpInjective(j, i);
        }
        exp[i] := val;
        exp[i + 255] := val;
        log[val] := i;
        ExpStep(i);
        val := 2 * val;
        if val >= 0x100 {
          ReduceByte(val / 2);
          val := Xor(val, 0x11d);
        }
        i := i + 1;
      }
      forall j | 1 <= j <= 255
        ensures Exp(j) != 0
      {
        ExpNonzero(j);
      }
      log[0] := 0;
    }

    /** gf_mul */
    function GfMul(a: byte, b: byte): (r: byte)
      requires Ready()
      reads exp, log
      ensures r == Mul(a, b)
    {
      NoZeroDivisors(a, b);
      if a == 0 || b == 0 then 0
      else (MulByLogs(a, b); exp[log[a] as int + log[b]])
    }

    /** gf_div, with the reduction of a negative difference by 255. */
    function GfDiv(a: byte, b: byte): (r: byte)
      requires Ready()
      reads exp, log
      ensures r == Div(a, b)
    {
      hide Exp, Div;
      if a == 0 then (DivZero(b); 0)
      else if b == 0 then 0
      else
        DivByLogs(a, b);
        var diff := log[a] as int - log[b];
        if diff < 0 then exp[diff + 255] else exp[diff]
    }

    lemma {:induction false} LogSpec(a: byte)
      requires Ready() && a != 0
      ensures 1 <= log[a] <= 255 && Exp(log[a]) == a
    {
      var j := LogEntry(a);
    }

    lemma {:induction false} MulByLogs(a: byte, b: byte)
      requires Ready() && a != 0 && b != 0
      ensures 2 <= log[a] as int + log[b] <= 510
      ensures exp[log[a] as int + log[b]] == Mul(a, b)
    {
      hide Exp, Mul, Log;
      LogSpec(a);
      LogSpec(b);
      ExpAdd(log[a], log[b]);
      assert exp[log[a] as int + log[b]] == Exp(log[a] as int + log[b]);
    }

    lemma {:induction false} DivByLogs(a: byte, b: byte)
      requires Ready() && a != 0 && b != 0
      ensures 1 <= log[b] <= 255 && 1 <= log[a] <= 255
      ensures Exp(if log[a] < log[b] then log[a] as int + 255 - log[b] else log[a] as int - log[b]) == Div(a, b)
    {
      hide Exp, Mul, Log;
      LogSpec(a);
      LogSpec(b);
      var d := if log[a] < log[b] then log[a] as int + 255 - log[b] else log[a] as int - log[b];
      ExpAdd(d, log[b]);
      Period(log[a]);
      DivMul(Exp(d), b);
    }
  }

  lemma {:induction false} ExpStep(i: nat)
    ensures Exp(i + 1) == XTime(Exp(i))
  {
  }

  lemma {:induction false} DivZero(b: byte)
    ensures Div(0, b) == 0
  {
    if b != 0 {
      MulZero(Inv(b));
    }
  }
}
