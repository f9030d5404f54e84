/**
 The streaming SOCKS5 parser of socks5.c as a function of one octet at a time, and what it owes:
 independence from chunking and the round trips of sections 3 to 5 of RFC 1928.
 */
module Socks5 {
  import opened Bytes

  datatype State = Init | Methods | ReqHeader | AddrLen | AddrBody | ReqPort | Connecting | Forwarding | Error

  /** The context: hdr and addr are the octets collected so far. */
  datatype Context = Context(
    state: State, methodsLeft: byte, methodIdx: byte, noAuth: bool,
    hdr: seq<byte>, addrType: byte, addrLen: nat, addr: seq<byte>, port: u16, portIdx: byte)

  /** socks5_init */
  function Start(): Context
  {
    Context(Init, 0, 0, false, [], 0, 0, [], 0, 0)
  }

  const IPV4: byte := 1
  const DOMAIN: byte := 3
  const IPV6: byte := 4

  /** One octet: the new context, the code returned if the octet ends the call, and the reply it produces. */
  datatype Taken = Taken(c: Context, code: int, reply: seq<byte>)

  function Failure(c: Context, reply: seq<byte>): Taken
  {
    Taken(c.(state := Error), -1, reply)
  }

  /** A ten-octet error reply. */
  function Refusal(code: byte): (r: seq<byte>)
    ensures |r| == 10
  {
    [5, code, 0, 1, 0, 0, 0, 0, 0, 0]
  }

  /** The method counter has eight bits. */
  function TakeMethod(c: Context, b: byte): Taken
  {
    if c.methodIdx == 0 then
      if b == 0 then Failure(c.(methodsLeft := b), []) else Taken(c.(methodsLeft := b, methodIdx := 1), 0, [])
    else
      var c1 := c.(noAuth := c.noAuth || b == 0, methodIdx := (c.methodIdx + 1) % 0x100);
      if c1.methodIdx <= c1.methodsLeft then Taken(c1, 0, [])
      else if c1.noAuth then Taken(c1.(state := ReqHeader, hdr := []), 0, [5, 0])
      else Failure(c1, [5, 0xff])
  }

  function TakeHeader(c: Context, b: byte): Taken
  {
    var c1 := c.(hdr := c.hdr + [b]);
    if |c1.hdr| != 4 then Taken(c1, 0, [])
    else if c1.hdr[0] != 5 then Failure(c1, [])
    else if c1.hdr[1] != 1 then Failure(c1, Refusal(7))
    else
      var t := c1.hdr[3];
      if t == IPV4 then Taken(c1.(addrType := t, addrLen := 4, addr := [], state := AddrBody), 0, [])
      else if t == DOMAIN then Taken(c1.(addrType := t, state := AddrLen), 0, [])
      else if t == IPV6 then Taken(c1.(addrType := t, addrLen := 16, addr := [], state := AddrBody), 0, [])
      else Failure(c1.(addrType := t), Refusal(8))
  }

  function TakeLength(c: Context, b: byte): Taken
  {
    if b == 0 then Failure(c.(addrLen := b), []) else Taken(c.(addrLen := b, addr := [], state := AddrBody), 0, [])
  }

  function TakeAddr(c: Context, b: byte): Taken
  {
    var c1 := c.(addr := c.addr + [b]);
    Taken(if |c1.addr| == c1.addrLen then c1.(port := 0, portIdx := 0, state := ReqPort) else c1, 0, [])
  }

  function TakePort(c: Context, b: byte): Taken
  {
    var c1 := c.(port := (c.port * 0x100 + b as int) % 0x1_0000, portIdx := (c.portIdx + 1) % 0x100);
    if c1.portIdx == 2 then Taken(c1.(state := Connecting), 1, []) else Taken(c1, 0, [])
  }

  function Take(c: Context, b: byte): Taken
  {
    match c.state
    case Init => if b != 5 then Failure(c, []) else Taken(c.(state := Methods), 0, [])
    case Methods => TakeMethod(c, b)
    case ReqHeader => TakeHeader(c, b)
    case AddrLen => TakeLength(c, b)
    case AddrBody => TakeAddr(c, b)
    case ReqPort => TakePort(c, b)
    case Connecting => Taken(c, 0, [])
    case Forwarding => Taken(c, 0, [])
    case Error => Taken(c, -1, [])
  }

  /** Parsing is over: further octets change nothing. */
  predicate Final(c: Context)
  {
    c.state == Connecting || c.state == Forwarding || c.state == Error
  }

  // ---------------------------------------------------------------- calls

  datatype Outcome = Outcome(c: Context, code: int, reply: seq<byte>)

  /** The rest of a call from octet i on; a later reply overwrites an earlier one, as each starts the same buffer. */
  function HandleFrom(c: Context, buf: seq<byte>, i: nat, reply: seq<byte>): Outcome
    requires i <= |buf|
    decreases |buf| - i
  {
    if i == |buf| then Outcome(c, 0, reply)
    else
      var t := Take(c, buf[i]);
      var reply' := if t.reply != [] then t.reply else reply;
      if Final(c) || t.code != 0 then Outcome(t.c, t.code, reply') else HandleFrom(t.c, buf, i + 1, reply')
  }

  /** socks5_handle_input */
  function Handle(c: Context, buf: seq<byte>): Outcome
  {
    HandleFrom(c, buf, 0, [])
  }

  /** The context after all the octets, however they are cut. */
  function Feed(c: Context, s: seq<byte>): Context
    decreases |s|
  {
    if s == [] then c else Feed(Take(c, s[0]).c, s[1..])
  }

  function Calls(c: Context, chunks: seq<seq<byte>>): Context
    decreases |chunks|
  {
    if chunks == [] then c else Calls(Handle(c, chunks[0]).c, chunks[1..])
  }

  function Flatten(chunks: seq<seq<byte>>): seq<byte>
  {
    if chunks == [] then [] else chunks[0] + Flatten(chunks[1..])
  }

  lemma {:induction false} FeedAppend(c: Context, a: seq<byte>, b: seq<byte>)
    ensures Feed(c, a + b) == Feed(Feed(c, a), b)
    decreases |a|
  {
    hide Take;
    if a == [] {
      assert a + b == b;
    } else {
      assert (a + b)[1..] == a[1..] + b;
      FeedAppend(Take(c, a[0]).c, a[1..], b);
    }
  }

  lemma {:induction false} FinalStays(c: Context, s: seq<byte>)
    requires Final(c)
    ensures Feed(c, s) == c
    decreases |s|
  {
    if s != [] {
      FinalStays(c, s[1..]);
    }
  }

  /** Octets that end a call end the parsing. */
  lemma {:induction false} CodesAreFinal(c: Context, b: byte)
    ensures Take(c, b).code != 0 ==> Final(Take(c, b).c)
    ensures Take(c, b).code == 1 <==> !Final(c) && Take(c, b).c.state == Connecting
    ensures !Final(c) ==> Take(c, b).c.state != Forwarding
    ensures !Final(c) && Final(Take(c, b).c) ==> Take(c, b).code != 0
    ensures Take(c, b).code in {0, 1, -1}
  {
  }

  lemma {:induction false} HandleFeeds(c: Context, buf: seq<byte>, i: nat, reply: seq<byte>)
    requires i <= |buf|
    ensures HandleFrom(c, buf, i, reply).c == Feed(c, buf[i..])
    ensures HandleFrom(c, buf, i, reply).code == 1 <==> !Final(c) && Feed(c, buf[i..]).state == Connecting
    decreases |buf| - i
  {
    if i < |buf| {
      var t := Take(c, buf[i]);
      CodesAreFinal(c, buf[i]);
      assert buf[i..][1..] == buf[i + 1..];
      if Final(c) || t.code != 0 {
        FinalUnmoved(c, buf[i]);
        hide Take, Final;
        FinalStays(t.c, buf[i + 1..]);
      } else {
        hide Take;
        HandleFeeds(t.c, buf, i + 1, if t.reply != [] then t.reply else reply);
      }
    }
  }

  lemma {:induction false} FinalUnmoved(c: Context, b: byte)
    ensures Final(c) ==> Take(c, b).c == c
  {
  }

  /** However the octets are cut into calls, the context is the same. */
  lemma {:induction false} ChunkingIrrelevant(c: Context, chunks: seq<seq<byte>>)
    ensures Calls(c, chunks) == Feed(c, Flatten(chunks))
    decreases |chunks|
  {
    if chunks != [] {
      var first := Handle(c, chunks[0]).c;
      HandleFeeds(c, chunks[0], 0, []);
      assert chunks[0][0..] == chunks[0];
      hide Feed, HandleFrom;
      ChunkingIrrelevant(first, chunks[1..]);
      FeedAppend(c, chunks[0], Flatten(chunks[1..]));
    }
  }

  /** How many calls return 1. */
  function Successes(c: Context, chunks: seq<seq<byte>>): nat
    decreases |chunks|
  {
    if chunks == [] then 0
    else
      var o := Handle(c, chunks[0]);
      (if o.code == 1 then 1 else 0) + Successes(o.c, chunks[1..])
  }

  /** Code 1 is returned exactly once when the octets complete a request, and never otherwise. */
  lemma {:induction false} SuccessOnce(c: Context, chunks: seq<seq<byte>>)
    ensures Successes(c, chunks) == if !Final(c) && Feed(c, Flatten(chunks)).state == Connecting then 1 else 0
    decreases |chunks|
  {
    if chunks == [] {
      assert Feed(c, []) == c;
    } else {
      var o := Handle(c, chunks[0]);
      HandleFeeds(c, chunks[0], 0, []);
      assert chunks[0][0..] == chunks[0];
      FeedAppend(c, chunks[0], Flatten(chunks[1..]));
      hide HandleFrom, Take;
      SuccessOnce(o.c, chunks[1..]);
      if Final(o.c) {
        FinalStays(o.c, Flatten(chunks[1..]));
      }
      if Final(c) {
        FinalStays(c, chunks[0]);
      }
    }
  }

  lemma {:induction false} HandleReply(c: Context, buf: seq<byte>, i: nat, reply: seq<byte>)
    requires i <= |buf|
    ensures var o, alone := HandleFrom(c, buf, i, reply), HandleFrom(c, buf, i, []);
            o == alone.(reply := if alone.reply != [] then alone.reply else reply)
    decreases |buf| - i
  {
    if i < |buf| {
      hide Take, Final;
      var t := Take(c, buf[i]);
      HandleReply(t.c, buf, i + 1, if t.reply != [] then t.reply else reply);
      HandleReply(t.c, buf, i + 1, t.reply);
    }
  }

  lemma {:induction false} HandleShift(c: Context, a: seq<byte>, b: seq<byte>, i: nat, reply: seq<byte>)
    requires i <= |b|
    ensures HandleFrom(c, a + b, |a| + i, reply) == HandleFrom(c, b, i, reply)
    decreases |b| - i
  {
    if i < |b| {
      hide Take, Final;
      var t := Take(c, b[i]);
      assert (a + b)[|a| + i] == b[i];
      HandleShift(t.c, a, b, i + 1, if t.reply != [] then t.reply else reply);
    }
  }

  lemma {:induction false} HandlePrefix(c: Context, a: seq<byte>, b: seq<byte>, i: nat, reply: seq<byte>)
    requires i <= |a|
    ensures var o := HandleFrom(c, a, i, reply);
            HandleFrom(c, a + b, i, reply)
            == if o.code != 0 || (Final(c) && i < |a|) then o else HandleFrom(o.c, a + b, |a|, o.reply)
    decreases |a| - i
  {
    if i < |a| {
      var t := Take(c, a[i]);
      CodesAreFinal(c, a[i]);
      hide Take;
      assert (a + b)[i] == a[i];
      if !Final(c) && t.code == 0 {
        HandlePrefix(t.c, a, b, i + 1, if t.reply != [] then t.reply else reply);
      }
    }
  }

  /**
   A call that has not ended the parsing can as well be joined with the next: one call on both pieces
   has the code of the second and its reply, or the reply of the first when the second has none.
   */
  lemma {:induction false} CallsJoin(c: Context, a: seq<byte>, b: seq<byte>)
    requires !Final(c) && !Final(Handle(c, a).c)
    ensures var first := Handle(c, a);
            var second := Handle(first.c, b);
            Handle(c, a + b) == second.(reply := if second.reply != [] then second.reply else first.reply)
  {
    var first := Handle(c, a);
    HandleCode(c, a, 0, []);
    HandlePrefix(c, a, b, 0, []);
    HandleShift(first.c, a, b, 0, first.reply);
    HandleReply(first.c, b, 0, first.reply);
    hide HandleFrom, Final;
  }

  lemma {:induction false} HandleCode(c: Context, buf: seq<byte>, i: nat, reply: seq<byte>)
    requires i <= |buf| && !Final(HandleFrom(c, buf, i, reply).c)
    ensures HandleFrom(c, buf, i, reply).code == 0
    decreases |buf| - i
  {
    if i < |buf| {
      var t := Take(c, buf[i]);
      CodesAreFinal(c, buf[i]);
      hide Take;
      if !Final(c) && t.code == 0 {
        HandleCode(t.c, buf, i + 1, if t.reply != [] then t.reply else reply);
      }
    }
  }

  /** When parsing is over a call changes nothing and says nothing; after an error any octet is answered with -1. */
  lemma {:induction false} AfterTheEnd(c: Context, buf: seq<byte>)
    requires Final(c)
    ensures Handle(c, buf) == Outcome(c, if buf != [] && c.state == Error then -1 else 0, [])
  {
  }

  /** A first octet other than 5 and a domain of length 0 end the parsing without a reply. */
  lemma {:induction false} SilentErrors(c: Context, buf: seq<byte>)
    requires buf != []
    ensures c.state == Init && buf[0] != 5 ==> Handle(c, buf) == Outcome(c.(state := Error), -1, [])
    ensures c.state == AddrLen && buf[0] == 0 ==> Handle(c, buf) == Outcome(c.(state := Error, addrLen := 0), -1, [])
  {
  }

  // ---------------------------------------------------------------- the greeting

  function Greeting(methods: seq<byte>): seq<byte>
    requires |methods| < 0x100
  {
    [5, |methods| as byte] + methods
  }

  /** The method list from position i on, when the counter says so. */
  lemma {:induction false} MethodsTaken(c: Context, buf: seq<byte>, i: nat, reply: seq<byte>)
    requires c.state == Methods && i < |buf| && 1 <= c.methodIdx <= c.methodsLeft
    requires c.methodIdx + (|buf| - i) == c.methodsLeft + 1
    ensures var o, ok := HandleFrom(c, buf, i, reply), c.noAuth || 0 in buf[i..];
            && (c.methodsLeft < 255 && ok ==>
               o.c.state == ReqHeader && o.c.hdr == [] && o.code == 0 && o.reply == [5, 0])
            && (c.methodsLeft < 255 && !ok ==> o.c.state == Error && o.code == -1 && o.reply == [5, 0xff])
            && (c.methodsLeft == 255 ==> o.c.state == Methods && o.c.methodIdx == 0 && o.code == 0)
    decreases |buf| - i
  {
    var t := Take(c, buf[i]);
    assert buf[i..] == [buf[i]] + buf[i + 1..];
    if i + 1 < |buf| {
      MethodsTaken(t.c, buf, i + 1, reply);
    }
  }

  /**
   A greeting of n methods is accepted exactly when 1 <= n <= 254 and method 0 is offered.  With 255
   methods the eight-bit counter returns to 0 and the parser waits for another count.
   */
  lemma {:induction false} GreetingAccepted(methods: seq<byte>)
    requires |methods| < 0x100
    ensures var o := Handle(Start(), Greeting(methods));
            && (o.c.state == ReqHeader <==> 1 <= |methods| <= 254 && 0 in methods)
            && (o.c.state == ReqHeader ==> o.c.hdr == [] && o.code == 0 && o.reply == [5, 0])
            && (1 <= |methods| <= 254 && 0 !in methods ==> o.c.state == Error && o.code == -1 && o.reply == [5, 0xff])
            && (methods == [] ==> o.c.state == Error && o.code == -1 && o.reply == [])
            && (|methods| == 255 ==> o.c.state == Methods && o.c.methodIdx == 0 && o.code == 0)
  {
    var g := Greeting(methods);
    var c1 := Take(Start(), g[0]).c;
    var c2 := Take(c1, g[1]).c;
    if methods != [] {
      MethodsTaken(c2, g, 2, []);
      assert g[2..] == methods;
    }
    assert HandleFrom(Start(), g, 0, []) == HandleFrom(c1, g, 1, []);
  }

  // ---------------------------------------------------------------- the request

  /** An address of one of the three kinds; domain names have 1 to 255 octets. */
  predicate AddressOk(t: byte, addr: seq<byte>)
  {
    (t == IPV4 && |addr| == 4) || (t == DOMAIN && 1 <= |addr| <= 255) || (t == IPV6 && |addr| == 16)
  }

  function Request(rsv: byte, t: byte, addr: seq<byte>, port: u16): seq<byte>
    requires AddressOk(t, addr)
  {
    [5, 1, rsv, t] + (if t == DOMAIN then [|addr| as byte] else []) + addr
        + [(port / 0x100) as byte, (port % 0x100) as byte]
  }

  /** What the four octets of a request header lead to. */
  lemma {:induction false} HeaderOutcome(c: Context, ver: byte, cmd: byte, rsv: byte, t: byte)
    requires c.state == ReqHeader && c.hdr == []
    ensures var o := Handle(c, [ver, cmd, rsv, t]);
            && (ver != 5 ==> o.c.state == Error && o.code == -1 && o.reply == [])
            && (ver == 5 && cmd != 1 ==>
               o.c.state == Error && o.code == -1 && o.reply == [5, 7, 0, 1, 0, 0, 0, 0, 0, 0])
            && (ver == 5 && cmd == 1 && t !in {IPV4, DOMAIN, IPV6} ==>
               o.c.state == Error && o.code == -1 && o.reply == [5, 8, 0, 1, 0, 0, 0, 0, 0, 0])
            && (ver == 5 && cmd == 1 && t in {IPV4, DOMAIN, IPV6} ==>
               o.c == Headed(c, [ver, cmd, rsv, t]) && o.code == 0 && o.reply == [])
  {
    var h := [ver, cmd, rsv, t];
    var c1 := c.(hdr := [ver]);
    var c2 := c.(hdr := [ver, cmd]);
    var c3 := c.(hdr := [ver, cmd, rsv]);
    assert [] + [ver] == [ver] && [ver] + [cmd] == [ver, cmd] && [ver, cmd] + [rsv] == [ver, cmd, rsv]
           && [ver, cmd, rsv] + [t] == h;
    assert Take(c, ver) == Taken(c1, 0, []);
    assert Take(c1, cmd) == Taken(c2, 0, []);
    assert Take(c2, rsv) == Taken(c3, 0, []);
    var last := Take(c3, t);
    FourSteps(c, h, c1, c2, c3);
    hide HandleFrom;
  }

  /** The context after an acceptable request header. */
  function Headed(c: Context, hdr: seq<byte>): Context
    requires |hdr| == 4
  {
    if hdr[3] == DOMAIN then c.(hdr := hdr, addrType := DOMAIN, state := AddrLen)
    else c.(hdr := hdr, addrType := hdr[3], addrLen := if hdr[3] == IPV4 then 4 else 16, addr := [], state := AddrBody)
  }

  lemma {:induction false} FourSteps(c: Context, h: seq<byte>, c1: Context, c2: Context, c3: Context)
    requires |h| == 4 && !Final(c) && !Final(c1) && !Final(c2) && !Final(c3)
    requires Take(c, h[0]) == Taken(c1, 0, []) && Take(c1, h[1]) == Taken(c2, 0, [])
             && Take(c2, h[2]) == Taken(c3, 0, [])
    ensures Handle(c, h) == Outcome(Take(c3, h[3]).c, Take(c3, h[3]).code, Take(c3, h[3]).reply)
  {
    hide Take, Final;
    assert HandleFrom(c, h, 0, []) == HandleFrom(c1, h, 1, []);
    assert HandleFrom(c1, h, 1, []) == HandleFrom(c2, h, 2, []);
    assert HandleFrom(c2, h, 2, []) == HandleFrom(c3, h, 3, []);
    var t := Take(c3, h[3]);
    assert HandleFrom(t.c, h, 4, t.reply) == Outcome(t.c, 0, t.reply);
  }

  lemma {:induction false} AddrTaken(c: Context, a: seq<byte>)
    requires c.state == AddrBody && a != [] && |c.addr| + |a| == c.addrLen
    ensures Feed(c, a) == c.(addr := c.addr + a, port := 0, portIdx := 0, state := ReqPort)
    decreases |a|
  {
    var t := Take(c, a[0]);
    assert c.addr + [a[0]] + a[1..] == c.addr + a;
    if |a| > 1 {
      AddrTaken(t.c, a[1..]);
    } else {
      assert a[1..] == [];
    }
  }

  lemma {:induction false} PortTaken(c: Context, port: u16)
    requires c.state == ReqPort && c.port == 0 && c.portIdx == 0
    ensures Feed(c, [(port / 0x100) as byte, (port % 0x100) as byte])
            == c.(port := port, portIdx := 2, state := Connecting)
  {
    var hi, lo := (port / 0x100) as byte, (port % 0x100) as byte;
    var c1 := Take(c, hi).c;
    assert c1 == c.(port := hi, portIdx := 1);
    var c2 := Take(c1, lo).c;
    assert c2 == c.(port := port, portIdx := 2, state := Connecting);
    assert [hi, lo][1..] == [lo] && [lo][1..] == [];
    hide Take;
    assert Feed(c, [hi, lo]) == Feed(c1, [lo]) == Feed(c2, []);
  }

  /** A CONNECT request of any kind of address yields that address and port. */
  lemma {:induction false} RequestRoundTrip(c: Context, rsv: byte, t: byte, addr: seq<byte>, port: u16)
    requires c.state == ReqHeader && c.hdr == [] && AddressOk(t, addr)
    ensures var d := Feed(c, Request(rsv, t, addr, port));
            d.state == Connecting && d.addrType == t && d.addr == addr && d.port == port
  {
    var h, p := [5, 1, rsv, t], [(port / 0x100) as byte, (port % 0x100) as byte];
    var l := if t == DOMAIN then [|addr| as byte] else [];
    HeadTaken(c, rsv, t, addr, l);
    var c2 := Feed(Feed(c, h), l);
    hide Feed;
    FeedParts(c, h, l, addr, p);
    AddrTaken(c2, addr);
    PortTaken(Feed(c2, addr), port);
    assert [] + addr == addr;
  }

  /** A good header and, for a domain, its length lead to an empty address of the right size. */
  lemma {:induction false} HeadTaken(c: Context, rsv: byte, t: byte, addr: seq<byte>, l: seq<byte>)
    requires c.state == ReqHeader && c.hdr == [] && AddressOk(t, addr)
    requires l == if t == DOMAIN then [|addr| as byte] else []
    ensures var d := Feed(Feed(c, [5, 1, rsv, t]), l);
            d.state == AddrBody && d.addr == [] && d.addrLen == |addr| && d.addrType == t
  {
    var h := [5, 1, rsv, t];
    HeaderOutcome(c, 5, 1, rsv, t);
    HandleFeeds(c, h, 0, []);
    assert h[0..] == h;
    hide Feed, HandleFrom, Take;
    LengthTaken(Headed(c, h), t, addr, l);
  }

  lemma {:induction false} FeedParts(c: Context, h: seq<byte>, l: seq<byte>, a: seq<byte>, p: seq<byte>)
    ensures Feed(c, h + l + a + p) == Feed(Feed(Feed(Feed(c, h), l), a), p)
  {
    hide Feed;
    FeedAppend(c, h, l);
    FeedAppend(c, h + l, a);
    FeedAppend(c, h + l + a, p);
  }

  lemma {:induction false} LengthTaken(c: Context, t: byte, addr: seq<byte>, l: seq<byte>)
    requires AddressOk(t, addr) && l == (if t == DOMAIN then [|addr| as byte] else [])
    requires c.addrType == t
    requires if t == DOMAIN then c.state == AddrLen else c.state == AddrBody && c.addr == [] && c.addrLen == |addr|
    ensures var d := Feed(c, l);
            d.state == AddrBody && d.addr == [] && d.addrLen == |addr| && d.addrType == t
  {
    if t == DOMAIN {
      assert l[1..] == [];
      assert Feed(Take(c, l[0]).c, []) == Take(c, l[0]).c;
    }
  }

  /**
   A whole exchange cut into calls in any way: a greeting of 1 to 254 methods with method 0 among
   them and a CONNECT request end in the requested address and port, and exactly one call says so.
   */
  lemma {:induction false} ExchangeRoundTrip(methods: seq<byte>, rsv: byte, t: byte, addr: seq<byte>, port: u16,
                                             chunks: seq<seq<byte>>)
    requires 1 <= |methods| <= 254 && 0 in methods && AddressOk(t, addr)
    requires Flatten(chunks) == Greeting(methods) + Request(rsv, t, addr, port)
    ensures var d := Calls(Start(), chunks);
            d.state == Connecting && d.addrType == t && d.addr == addr && d.port == port
    ensures Successes(Start(), chunks) == 1
  {
    var g, q := Greeting(methods), Request(rsv, t, addr, port);
    GreetingAccepted(methods);
    HandleFeeds(Start(), g, 0, []);
    assert g[0..] == g;
    hide Feed, HandleFrom, Take;
    RequestRoundTrip(Feed(Start(), g), rsv, t, addr, port);
    FeedAppend(Start(), g, q);
    ChunkingIrrelevant(Start(), chunks);
    SuccessOnce(Start(), chunks);
  }
}
