/** The octets of a KCP datagram: the printer (ikcp_encode_seg) and the parser inside ikcp_input. */
module KcpWire {
  import opened Bytes
  import opened KcpSpec

  // ---------------------------------------------------------------- integers, least significant octet first

  function Le(x: nat, n: nat): (s: seq<byte>)
    ensures |s| == n
  {
    if n == 0 then [] else [x % 0x100] + Le(x / 0x100, n - 1)
  }

  function FromLe(s: seq<byte>): nat
  {
    if s == [] then 0 else s[0] + 0x100 * FromLe(s[1..])
  }

  function Range(n: nat): nat
  {
    if n == 0 then 1 else 0x100 * Range(n - 1)
  }

  /** Little endian: the octets of a number from the lowest on. */
  lemma {:induction false} LowestFirst(x: nat)
    ensures Le(x, 2) == [x % 0x100, x / 0x100 % 0x100]
    ensures Le(x, 4) == [x % 0x100, x / 0x100 % 0x100, x / 0x100 / 0x100 % 0x100, x / 0x100 / 0x100 / 0x100 % 0x100]
  {
    LeStep(x, 2);
    LeStep(x, 4);
    LeStep(x / 0x100, 1);
    LeStep(x / 0x100, 3);
    LeStep(x / 0x100 / 0x100, 2);
    LeStep(x / 0x100 / 0x100 / 0x100, 1);
    LeStep(x, 0);
    hide Le;
    LeEnd(x / 0x100 / 0x100);
    LeEnd(x / 0x100 / 0x100 / 0x100 / 0x100);
  }

  lemma {:induction false} LeStep(x: nat, n: nat)
    ensures n > 0 ==> Le(x, n) == [x % 0x100] + Le(x / 0x100, n - 1)
  {
  }

  lemma {:induction false} LeEnd(x: nat)
    ensures Le(x, 0) == []
  {
  }

  lemma {:induction false} LeRoundTrip(x: nat, n: nat)
    requires x < Range(n)
    ensures FromLe(Le(x, n)) == x
  {
    if n > 0 {
      LeRoundTrip(x / 0x100, n - 1);
      var s := Le(x, n);
      assert s[1..] == Le(x / 0x100, n - 1);
    }
  }

  lemma {:induction false} FromLeBound(s: seq<byte>)
    ensures FromLe(s) < Range(|s|)
  {
    if s != [] {
      FromLeBound(s[1..]);
    }
  }

  lemma {:induction false} Ranges()
    ensures Range(2) == 0x1_0000 && Range(4) == TWO_32
  {
    assert Range(1) == 0x100 && Range(3) == 0x100_0000;
  }

  // ---------------------------------------------------------------- headers

  function Header(p: Packet): (s: seq<byte>)
    requires p.cmd < 0x100 && p.frg < 0x100
    ensures |s| == OVERHEAD
  {
    Le(p.conv, 4) + [p.cmd as byte] + [p.frg as byte] + Le(p.wnd, 2) + Le(p.ts, 4) + Le(p.sn, 4) + Le(p.una, 4)
        + Le(|p.data|, 4)
  }

  predicate KnownCommand(cmd: nat)
  {
    cmd == CMD_PUSH as nat || cmd == CMD_ACK as nat || cmd == CMD_WASK as nat || cmd == CMD_WINS as nat
  }

  /** A packet whose fields fit the header. */
  predicate Fits(p: Packet)
  {
    && p.conv < TWO_32 && KnownCommand(p.cmd) && p.frg < 0x100 && p.wnd < 0x1_0000
    && p.ts < TWO_32 && p.sn < TWO_32 && p.una < TWO_32 && |p.data| < TWO_31
  }

  function Print(p: Packet): (s: seq<byte>)
    requires Fits(p)
    ensures |s| == WireSize(p)
  {
    Header(p) + p.data
  }

  predicate AllFit(ps: seq<Packet>)
  {
    forall i :: 0 <= i < |ps| ==> Fits(ps[i])
  }

  /** A datagram: its packets one after the other. */
  function PrintAll(ps: seq<Packet>): (s: seq<byte>)
    requires AllFit(ps)
    ensures |s| == TotalSize(ps)
  {
    if ps == [] then [] else PrintAll(ps[..|ps| - 1]) + Print(ps[|ps| - 1])
  }

  // ---------------------------------------------------------------- the parser

  /** The packets read before the end or the first error, and ikcp_input's code for that error. */
  datatype Parsed = Parsed(ps: seq<Packet>, code: int)

  /** The header fields of the next packet; data is still empty. */
  function ReadHeader(d: seq<byte>): Packet
    requires |d| >= OVERHEAD
  {
    Packet(FromLe(d[0..4]), d[4] as nat, d[5] as nat, FromLe(d[6..8]), FromLe(d[8..12]), FromLe(d[12..16]),
        FromLe(d[16..20]), [])
  }

  function ReadLength(d: seq<byte>): nat
    requires |d| >= OVERHEAD
  {
    FromLe(d[20..24])
  }

  /** The loop of ikcp_input: fewer octets than a header end it without error. */
  function Parse(conv: nat, d: seq<byte>): Parsed
    decreases |d|
  {
    if |d| < OVERHEAD then Parsed([], 0)
    else
      var h := ReadHeader(d);
      var len := ReadLength(d);
      var rest := d[OVERHEAD..];
      if h.conv != conv then Parsed([], -1)
      else if |rest| < len || len >= TWO_31 then Parsed([], -2)
      else if !KnownCommand(h.cmd) then Parsed([], -3)
      else
        var more := Parse(conv, rest[len..]);
        Parsed([h.(data := rest[..len])] + more.ps, more.code)
  }

  lemma {:induction false} PartAt(pre: seq<byte>, mid: seq<byte>, post: seq<byte>)
    ensures (pre + mid + post)[|pre|..|pre| + |mid|] == mid
  {
  }

  lemma {:induction false} SamePart(d: seq<byte>, h: seq<byte>, lo: nat, hi: nat)
    requires lo <= hi <= |h| <= |d| && d[..|h|] == h
    ensures d[lo..hi] == h[lo..hi]
  {
    forall i | 0 <= i < hi - lo
      ensures d[lo..hi][i] == h[lo..hi][i]
    {
      assert d[..|h|][lo + i] == h[lo + i];
    }
    assert |d[lo..hi]| == |h[lo..hi]|;
  }

  /** Where the 32-bit fields after the window lie. */
  lemma {:induction false} BackParts(front: seq<byte>, ts: seq<byte>, sn: seq<byte>, una: seq<byte>, len: seq<byte>)
    requires |front| == 8 && |ts| == |sn| == |una| == |len| == 4
    ensures var h := front + ts + sn + una + len;
            h[..8] == front && h[8..12] == ts && h[12..16] == sn && h[16..20] == una && h[20..24] == len
  {
    PartAt(front, ts, sn + una + len);
    PartAt(front + ts, sn, una + len);
    PartAt(front + ts + sn, una, len);
    PartAt(front + ts + sn + una, len, []);
    var h := front + ts + sn + una + len;
    assert h == front + ts + (sn + una + len) == front + ts + sn + (una + len) == h + [];
  }

  lemma {:induction false} HeaderFields(p: Packet, d: seq<byte>)
    requires Fits(p) && |d| >= OVERHEAD && d[..OVERHEAD] == Header(p)
    ensures ReadHeader(d) == p.(data := []) && ReadLength(d) == |p.data|
  {
    Ranges();
    LeRoundTrip(p.conv, 4);
    LeRoundTrip(p.wnd, 2);
    LeRoundTrip(p.ts, 4);
    LeRoundTrip(p.sn, 4);
    LeRoundTrip(p.una, 4);
    LeRoundTrip(|p.data|, 4);
    HeaderLayout(p);
    var h := Header(p);
    hide Le, FromLe, Range, Header;
    SamePart(d, h, 0, 4);
    SamePart(d, h, 6, 8);
    SamePart(d, h, 8, 12);
    SamePart(d, h, 12, 16);
    SamePart(d, h, 16, 20);
    SamePart(d, h, 20, 24);
    assert d[4] == d[..OVERHEAD][4] && d[5] == d[..OVERHEAD][5];
  }

  lemma {:induction false} HeaderLayout(p: Packet)
    requires p.cmd < 0x100 && p.frg < 0x100
    ensures var h := Header(p);
            && h[0..4] == Le(p.conv, 4) && h[4] as nat == p.cmd && h[5] as nat == p.frg && h[6..8] == Le(p.wnd, 2)
            && h[8..12] == Le(p.ts, 4) && h[12..16] == Le(p.sn, 4) && h[16..20] == Le(p.una, 4)
               && h[20..24] == Le(|p.data|, 4)
  {
    hide Le;
    var front := Le(p.conv, 4) + [p.cmd as byte] + [p.frg as byte] + Le(p.wnd, 2);
    var h := Header(p);
    BackParts(front, Le(p.ts, 4), Le(p.sn, 4), Le(p.una, 4), Le(|p.data|, 4));
    hide Header;
    assert front[0..4] == Le(p.conv, 4) && front[6..8] == Le(p.wnd, 2);
    SamePart(h, front, 0, 4);
    SamePart(h, front, 6, 8);
    assert h[4] == h[..8][4] && h[5] == h[..8][5];
  }

  /** The parser takes one printed packet off the front. */
  lemma {:induction false} ParseOne(conv: nat, p: Packet, tail: seq<byte>)
    requires Fits(p) && p.conv == conv
    ensures Parse(conv, Print(p) + tail)
         == Parsed([p] + Parse(conv, tail).ps, Parse(conv, tail).code)
  {
    var d := Print(p) + tail;
    hide Header, ReadHeader, ReadLength;
    assert d[..OVERHEAD] == Header(p);
    HeaderFields(p, d);
    assert d[OVERHEAD..] == p.data + tail;
    assert (p.data + tail)[|p.data|..] == tail;
  }

  lemma {:induction false} PrintAllFront(p: Packet, ps: seq<Packet>)
    requires AllFit([p] + ps)
    ensures AllFit(ps) && Fits(p)
    ensures PrintAll([p] + ps) == Print(p) + PrintAll(ps)
    decreases |ps|
  {
    hide Print, Fits;
    var all := [p] + ps;
    assert all[0] == p && all[1..] == ps;
    if ps == [] {
      assert all[..0] == [];
    } else {
      var init := ps[..|ps| - 1];
      assert all[..|all| - 1] == [p] + init;
      PrintAllFront(p, init);
    }
  }

  /** Parsing a printed datagram gives back its packets, without error. */
  lemma {:induction false} ParsePrinted(conv: nat, ps: seq<Packet>)
    requires AllFit(ps) && forall i :: 0 <= i < |ps| ==> ps[i].conv == conv
    ensures Parse(conv, PrintAll(ps)) == Parsed(ps, 0)
    decreases |ps|
  {
    if ps != [] {
      hide Print, Fits;
      assert ps == [ps[0]] + ps[1..];
      PrintAllFront(ps[0], ps[1..]);
      ParsePrinted(conv, ps[1..]);
      hide Parse;
      ParseOne(conv, ps[0], PrintAll(ps[1..]));
    }
  }

  // ---------------------------------------------------------------- what the parser returns is well formed

  lemma {:induction false} LeBack(s: seq<byte>)
    ensures Le(FromLe(s), |s|) == s
    decreases |s|
  {
    if s != [] {
      var x := FromLe(s[1..]);
      assert (s[0] + 0x100 * x) % 0x100 == s[0] && (s[0] + 0x100 * x) / 0x100 == x;
      LeBack(s[1..]);
      assert s == [s[0]] + s[1..];
    }
  }

  lemma {:induction false} Cut24(d: seq<byte>)
    requires |d| >= OVERHEAD
    ensures d[..OVERHEAD] == d[0..4] + [d[4]] + [d[5]] + d[6..8] + d[8..12] + d[12..16] + d[16..20] + d[20..24]
  {
    var s := d[0..4] + [d[4]] + [d[5]] + d[6..8] + d[8..12] + d[12..16] + d[16..20] + d[20..24];
    assert |s| == OVERHEAD;
    forall i | 0 <= i < OVERHEAD
      ensures s[i] == d[i]
    {
    }
  }

  /** Printing a packet that was read gives back the octets it was read from. */
  lemma {:induction false} PrintBack(d: seq<byte>, len: nat)
    requires |d| >= OVERHEAD + len && len == ReadLength(d) < TWO_31 && KnownCommand(ReadHeader(d).cmd)
    ensures var p := ReadHeader(d).(data := d[OVERHEAD..][..len]);
            Fits(p) && Print(p) == d[..OVERHEAD + len]
  {
    HeaderInRange(d);
    Cut24(d);
    LeBack(d[0..4]);
    LeBack(d[6..8]);
    LeBack(d[8..12]);
    LeBack(d[12..16]);
    LeBack(d[16..20]);
    LeBack(d[20..24]);
    hide FromLe, Le;
    var p := ReadHeader(d).(data := d[OVERHEAD..][..len]);
    assert Header(p) == d[..OVERHEAD];
    hide Header;
    assert d[..OVERHEAD] + d[OVERHEAD..][..len] == d[..OVERHEAD + len];
  }

  /** Why reading stops at rest: less than a header, a foreign conversation, a length past the end, a command. */
  predicate Stops(conv: nat, rest: seq<byte>, code: int)
  {
    if |rest| < OVERHEAD then code == 0
    else if FromLe(rest[0..4]) != conv then code == -1
    else if FromLe(rest[20..24]) > |rest| - OVERHEAD || FromLe(rest[20..24]) >= 0x8000_0000 then code == -2
    else code == -3 && rest[4] !in {81, 82, 83, 84}
  }

  /**
   Whatever the octets, the packets read fit their headers, carry the right conversation, and
   printed again are the octets they were read from; what follows them is the reason for the code.
   */
  lemma {:induction false} ParsedPacketsFit(conv: nat, d: seq<byte>)
    ensures AllFit(Parse(conv, d).ps) && PrintAll(Parse(conv, d).ps) <= d
    ensures forall i :: 0 <= i < |Parse(conv, d).ps| ==> Parse(conv, d).ps[i].conv == conv
    ensures Stops(conv, d[|PrintAll(Parse(conv, d).ps)|..], Parse(conv, d).code)
    decreases |d|
  {
    hide Parse, CanRead, FirstPacket, Print, PrintAll, Fits, Stops;
    if CanRead(conv, d) {
      ReadOne(conv, d);
      var p, rest := FirstPacket(d), AfterFirst(d);
      ParsedPacketsFit(conv, rest);
      PrintAllFront(p, Parse(conv, rest).ps);
      PrefixExtends(Print(p), rest, PrintAll(Parse(conv, rest).ps));
      RestSame(Print(p), rest, |PrintAll(Parse(conv, rest).ps)|);
    } else {
      ReadNone(conv, d);
    }
  }

  /** The parser takes a packet off the front of d. */
  predicate CanRead(conv: nat, d: seq<byte>)
  {
    && |d| >= OVERHEAD && ReadHeader(d).conv == conv
    && ReadLength(d) <= |d| - OVERHEAD && ReadLength(d) < TWO_31 && KnownCommand(ReadHeader(d).cmd)
  }

  function FirstPacket(d: seq<byte>): Packet
    requires |d| >= OVERHEAD && ReadLength(d) <= |d| - OVERHEAD
  {
    ReadHeader(d).(data := d[OVERHEAD..][..ReadLength(d)])
  }

  function AfterFirst(d: seq<byte>): (rest: seq<byte>)
    requires |d| >= OVERHEAD && ReadLength(d) <= |d| - OVERHEAD
    ensures |rest| < |d|
  {
    d[OVERHEAD + ReadLength(d)..]
  }

  lemma {:induction false} ReadOne(conv: nat, d: seq<byte>)
    requires CanRead(conv, d)
    ensures |d| >= OVERHEAD && ReadLength(d) <= |d| - OVERHEAD
    ensures var p, more := FirstPacket(d), Parse(conv, AfterFirst(d));
            && Fits(p) && p.conv == conv && d == Print(p) + AfterFirst(d)
            && Parse(conv, d) == Parsed([p] + more.ps, more.code)
  {
    PrintBack(d, ReadLength(d));
    hide ReadHeader, ReadLength, Print, Fits;
    assert d[OVERHEAD..][ReadLength(d)..] == d[OVERHEAD + ReadLength(d)..];
  }

  lemma {:induction false} ReadNone(conv: nat, d: seq<byte>)
    requires !CanRead(conv, d)
    ensures var r := Parse(conv, d);
            r.ps == [] && Stops(conv, d, r.code)
    ensures PrintAll([]) == [] && [] <= d && d[0..] == d
  {
    hide FromLe, Fits;
  }

  lemma {:induction false} RestSame(front: seq<byte>, rest: seq<byte>, n: nat)
    requires n <= |rest|
    ensures (front + rest)[|front| + n..] == rest[n..]
  {
  }

  lemma {:induction false} PrefixExtends(front: seq<byte>, rest: seq<byte>, s: seq<byte>)
    requires s <= rest
    ensures front + s <= front + rest
  {
  }

  lemma {:induction false} HeaderInRange(d: seq<byte>)
    requires |d| >= OVERHEAD
    ensures var h := ReadHeader(d);
            h.conv < TWO_32 && h.frg < 0x100 && h.wnd < 0x1_0000 && h.ts < TWO_32 && h.sn < TWO_32 && h.una < TWO_32
  {
    Ranges();
    FromLeBound(d[0..4]);
    FromLeBound(d[6..8]);
    FromLeBound(d[8..12]);
    FromLeBound(d[12..16]);
    FromLeBound(d[16..20]);
    hide FromLe, Range;
  }

  // ---------------------------------------------------------------- packing

  function Flatten(ds: seq<seq<Packet>>): seq<Packet>
  {
    if ds == [] then [] else Flatten(ds[..|ds| - 1]) + ds[|ds| - 1]
  }

  function Contents(st: Packing): seq<Packet>
  {
    Flatten(st.done) + st.cur
  }

  predicate SizesOk(mtu: nat, st: Packing)
  {
    && (forall i :: 0 <= i < |st.done| ==> 0 < TotalSize(st.done[i]) <= mtu)
    && TotalSize(st.cur) <= mtu
    && (st.cur != [] ==> TotalSize(st.cur) > 0)
  }

  lemma {:induction false} EmitKeeps(mtu: nat, st: Packing)
    requires SizesOk(mtu, st)
    ensures SizesOk(mtu, Emit(st)) && Contents(Emit(st)) == Contents(st)
  {
    if st.cur != [] {
      var ds := st.done + [st.cur];
      assert ds[..|ds| - 1] == st.done;
    }
  }

  lemma {:induction false} TotalSnoc(cur: seq<Packet>, p: Packet)
    ensures TotalSize(cur + [p]) == TotalSize(cur) + WireSize(p)
  {
    assert (cur + [p])[..|cur|] == cur;
  }

  lemma {:induction false} AddKeeps(mtu: nat, st: Packing, p: Packet)
    requires SizesOk(mtu, st) && TotalSize(st.cur) + WireSize(p) <= mtu
    ensures var st' := st.(cur := st.cur + [p]);
            SizesOk(mtu, st') && Contents(st') == Contents(st) + [p]
  {
    TotalSnoc(st.cur, p);
    AppendAssociates(Flatten(st.done), st.cur, [p]);
    hide Flatten, TotalSize;
  }

  lemma {:induction false} PackOneKeeps(mtu: nat, st: Packing, p: Packet)
    requires SizesOk(mtu, st) && WireSize(p) <= mtu
    ensures SizesOk(mtu, PackOne(mtu, st, p)) && Contents(PackOne(mtu, st, p)) == Contents(st) + [p]
  {
    assert TotalSize(Emit(st).cur) == 0 by {
      NothingToSend();
    }
    hide SizesOk, Contents, TotalSize, WireSize, Emit;
    if TotalSize(st.cur) + WireSize(p) > mtu {
      EmitKeeps(mtu, st);
      AddKeeps(mtu, Emit(st), p);
    } else {
      AddKeeps(mtu, st, p);
    }
  }

  lemma {:induction false} NothingToSend()
    ensures TotalSize([]) == 0
  {
  }

  lemma {:induction false} PackAllSnoc(mtu: nat, st: Packing, a: seq<Packet>, p: Packet)
    ensures PackAll(mtu, st, a + [p]) == PackOne(mtu, PackAll(mtu, st, a), p)
  {
    assert (a + [p])[..|a|] == a;
    hide PackOne;
  }

  lemma {:induction false} PackAllKeeps(mtu: nat, st: Packing, ps: seq<Packet>)
    requires SizesOk(mtu, st) && forall p :: p in ps ==> WireSize(p) <= mtu
    ensures SizesOk(mtu, PackAll(mtu, st, ps)) && Contents(PackAll(mtu, st, ps)) == Contents(st) + ps
    decreases |ps|
  {
    if ps == [] {
      PackNone(mtu, st);
    } else {
      var init, last := ps[..|ps| - 1], ps[|ps| - 1];
      hide SizesOk, PackOne, Contents, PackAll, WireSize;
      PackAllKeeps(mtu, st, init);
      assert ps == init + [last];
      PackAllSnoc(mtu, st, init, last);
      PackOneKeeps(mtu, PackAll(mtu, st, init), last);
      AppendAssociates(Contents(st), init, [last]);
    }
  }

  lemma {:induction false} PackNone(mtu: nat, st: Packing)
    ensures PackAll(mtu, st, []) == st && Contents(st) + [] == Contents(st)
  {
  }

  lemma {:induction false} AppendAssociates<T>(a: seq<T>, b: seq<T>, c: seq<T>)
    ensures a + b + c == a + (b + c)
  {
  }

  /** Datagrams have between 1 and mtu octets and carry exactly the packets, in order. */
  lemma {:induction false} DatagramsCarry(mtu: nat, ps: seq<Packet>)
    requires forall p :: p in ps ==> WireSize(p) <= mtu
    ensures Flatten(Datagrams(mtu, ps)) == ps
    ensures forall i :: 0 <= i < |Datagrams(mtu, ps)| ==> 0 < TotalSize(Datagrams(mtu, ps)[i]) <= mtu
  {
    var st := PackAll(mtu, Packing([], []), ps);
    assert Contents(Packing([], [])) + ps == ps;
    hide PackAll, TotalSize, WireSize;
    assert SizesOk(mtu, Packing([], [])) by {
      NothingToSend();
    }
    PackAllKeeps(mtu, Packing([], []), ps);
    EmitKeeps(mtu, st);
    assert Flatten(Emit(st).done) + [] == Flatten(Emit(st).done);
  }

  /** No datagram has room for the packet that starts the next one. */
  predicate Tight(mtu: nat, ds: seq<seq<Packet>>)
  {
    && (forall i :: 0 <= i < |ds| ==> ds[i] != [])
    && forall i :: 0 < i < |ds| ==> TotalSize(ds[i - 1]) + WireSize(ds[i][0]) > mtu
  }

  predicate TightSoFar(mtu: nat, st: Packing)
  {
    Tight(mtu, Emit(st).done) && (st.cur == [] ==> st.done == [])
  }

  lemma {:induction false} PackOneTight(mtu: nat, st: Packing, p: Packet)
    requires TightSoFar(mtu, st)
    ensures TightSoFar(mtu, PackOne(mtu, st, p))
  {
    hide TotalSize, WireSize;
    var next := PackOne(mtu, st, p);
    if st.cur != [] && TotalSize(st.cur) + WireSize(p) > mtu {
      assert next.done == st.done + [st.cur] && next.cur == [p];
    } else {
      assert next.done == st.done && next.cur == st.cur + [p];
      if st.cur != [] {
        SameStarts(mtu, st.done, st.cur, p);
      }
    }
  }

  lemma {:induction false} SameStarts(mtu: nat, done: seq<seq<Packet>>, cur: seq<Packet>, p: Packet)
    requires cur != [] && Tight(mtu, done + [cur])
    ensures Tight(mtu, done + [cur + [p]])
  {
    hide TotalSize, WireSize;
    var a, b := done + [cur], done + [cur + [p]];
    forall i | 0 <= i < |b|
      ensures b[i] != [] && b[i][0] == a[i][0] && (i < |done| ==> b[i] == a[i])
    {
      assert a[i] != [];
    }
  }

  /** A datagram is closed only when the next packet does not fit it. */
  lemma {:induction false} DatagramsTight(mtu: nat, ps: seq<Packet>)
    ensures Tight(mtu, Datagrams(mtu, ps))
    ensures TightSoFar(mtu, PackAll(mtu, Packing([], []), ps))
    decreases |ps|
  {
    if ps != [] {
      hide PackOne, Tight;
      DatagramsTight(mtu, ps[..|ps| - 1]);
      PackOneTight(mtu, PackAll(mtu, Packing([], []), ps[..|ps| - 1]), ps[|ps| - 1]);
    }
  }

  lemma {:induction false} PackAllAppend(mtu: nat, st: Packing, a: seq<Packet>, b: seq<Packet>)
    ensures PackAll(mtu, st, a + b) == PackAll(mtu, PackAll(mtu, st, a), b)
    decreases |b|
  {
    if b == [] {
      assert a + b == a;
    } else {
      hide PackOne, PackAll;
      var init, last := b[..|b| - 1], b[|b| - 1];
      assert b == init + [last];
      assert a + b == (a + init) + [last];
      PackAllAppend(mtu, st, a, init);
      PackAllSnoc(mtu, st, a + init, last);
      PackAllSnoc(mtu, PackAll(mtu, st, a), init, last);
    }
  }

  lemma {:induction false} FlattenMember(ds: seq<seq<Packet>>, i: nat, j: nat)
    requires i < |ds| && j < |ds[i]|
    ensures ds[i][j] in Flatten(ds)
    decreases |ds|
  {
    if i < |ds| - 1 {
      FlattenMember(ds[..|ds| - 1], i, j);
    }
  }
}
