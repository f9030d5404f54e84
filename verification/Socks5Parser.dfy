/** The context of socks5.c, updated in place octet by octet, proved against Socks5. */
module Socks5Parser {
  import opened Bytes
  import opened Socks5

  class Parser {
    var state: State
    var methodsLeft: byte
    var methodIdx: byte
    var foundNoAuth: bool
    const reqHdr: array<byte>
    var reqHdrIdx: byte
    var addrType: byte
    var addrLen: nat
    var addrIdx: nat
    const ipv4: array<byte>
    const ipv6: array<byte>
    var domain: array<byte>
    var port: u16
    var portIdx: byte

    /** Where the octets of the address go. */
    function Store(): array<byte>
      reads `addrType, `domain
    {
      if addrType == IPV4 then ipv4 else if addrType == IPV6 then ipv6 else domain
    }

    ghost predicate Valid()
      reads this
    {
      && reqHdr.Length == 4 && ipv4.Length == 4 && ipv6.Length == 16
      && reqHdr != ipv4 && reqHdr != ipv6 && reqHdr != domain
      && reqHdrIdx <= 4 && addrIdx <= Store().Length
      && (state == ReqHeader ==> reqHdrIdx < 4)
      && (state in {Init, Methods, ReqHeader, AddrLen} ==> addrIdx == 0)
      && (state == AddrLen ==> addrType == DOMAIN)
      && (state == AddrBody ==> addrIdx < addrLen && Room())
    }

    ghost predicate Room()
      reads `addrType, `addrLen, `domain
    {
      || (addrType == IPV4 && addrLen == 4)
      || (addrType == IPV6 && addrLen == 16)
      || (addrType == DOMAIN && domain.Length == addrLen + 1)
    }

    ghost function Abs(): Context
      requires Valid()
      reads this, reqHdr, ipv4, ipv6, domain
    {
      Context(state, methodsLeft, methodIdx, foundNoAuth, reqHdr[..reqHdrIdx], addrType, addrLen, Store()[..addrIdx],
          port, portIdx)
    }

    /** socks5_init */
    constructor ()
      ensures Valid() && Abs() == Start()
      ensures fresh(reqHdr) && fresh(ipv4) && fresh(ipv6) && fresh(domain)
    {
      state, methodsLeft, methodIdx, foundNoAuth := Init, 0, 0, false;
      reqHdr, reqHdrIdx := new byte[4](_ => 0), 0;
      addrType, addrLen, addrIdx, port, portIdx := 0, 0, 0, 0, 0;
      ipv4, ipv6, domain := new byte[4](_ => 0), new byte[16](_ => 0), new byte[0];
    }

    method OnMethod(b: byte) returns (code: int, reply: seq<byte>)
      requires Valid() && state == Methods
      modifies `methodsLeft, `methodIdx, `foundNoAuth, `state, `reqHdrIdx
      ensures Valid() && Taken(Abs(), code, reply) == TakeMethod(old(Abs()), b)
    {
      code, reply := 0, [];
      if methodIdx == 0 {
        methodsLeft := b;
        if methodsLeft == 0 {
          state := Error;
          return -1, [];
        }
        methodIdx := 1;
      } else {
        if b == 0 {
          foundNoAuth := true;
        }
        methodIdx := (methodIdx + 1) % 0x100;
        if methodIdx > methodsLeft {
          if foundNoAuth {
            reply := [5, 0];
            state := ReqHeader;
            reqHdrIdx := 0;
          } else {
            state := Error;
            return -1, [5, 0xff];
          }
        }
      }
    }

    method OnHeader(b: byte) returns (code: int, reply: seq<byte>)
      requires Valid() && state == ReqHeader
      modifies `state, `reqHdrIdx, `addrType, `addrLen, `addrIdx, reqHdr
      ensures Valid() && Taken(Abs(), code, reply) == TakeHeader(old(Abs()), b)
    {
      code, reply := 0, [];
      ghost var c1 := Abs().(hdr := Abs().hdr + [b]);
      reqHdr[reqHdrIdx] := b;
      reqHdrIdx := reqHdrIdx + 1;
      assert reqHdr[..reqHdrIdx] == c1.hdr;
      if reqHdrIdx == 4 {
        if reqHdr[0] != 5 {
          state := Error;
          return -1, [];
        }
        if reqHdr[1] != 1 {
          state := Error;
          return -1, Refusal(7);
        }
        code, reply := OnType();
      }
    }

    /** The address type of a complete request header. */
    method OnType() returns (code: int, reply: seq<byte>)
      requires state == ReqHeader && reqHdrIdx == 4 && addrIdx == 0
      requires reqHdr.Length == 4 && ipv4.Length == 4 && ipv6.Length == 16 && reqHdr != ipv4 && reqHdr != ipv6
               && reqHdr != domain
      modifies `state, `addrType, `addrLen, `addrIdx
      ensures Valid() && addrType == reqHdr[3] && addrIdx == 0
      ensures addrLen == if addrType == IPV4 then 4 else if addrType == IPV6 then 16 else old(addrLen)
      ensures addrType in {IPV4, DOMAIN, IPV6} ==>
              code == 0 && reply == [] && state == if addrType == DOMAIN then AddrLen else AddrBody
      ensures addrType !in {IPV4, DOMAIN, IPV6} ==> code == -1 && reply == Refusal(8) && state == Error
    {
      code, reply := 0, [];
      addrType := reqHdr[3];
      if addrType == IPV4 {
        addrLen := 4;
        addrIdx := 0;
        state := AddrBody;
      } else if addrType == DOMAIN {
        state := AddrLen;
      } else if addrType == IPV6 {
        addrLen := 16;
        addrIdx := 0;
        state := AddrBody;
      } else {
        state := Error;
        return -1, Refusal(8);
      }
    }

    method OnLength(b: byte) returns (code: int)
      requires Valid() && state == AddrLen
      modifies `state, `addrLen, `addrIdx, `domain
      ensures Valid() && Taken(Abs(), code, []) == TakeLength(old(Abs()), b)
      ensures domain == old(domain) || fresh(domain)
    {
      addrLen := b;
      if addrLen == 0 {
        state := Error;
        return -1;
      }
      domain := new byte[addrLen + 1](_ => 0);
      addrIdx := 0;
      state := AddrBody;
      code := 0;
    }

    /** The octet goes into the buffer of its address type. */
    method PutAddr(b: byte)
      requires Valid() && state == AddrBody
      modifies `addrIdx, ipv4, ipv6, domain
      ensures addrIdx == old(addrIdx) + 1 <= addrLen && addrIdx <= Store().Length
      ensures Store()[..addrIdx] == old(Store()[..addrIdx]) + [b]
    {
      var store := Store();
      store[addrIdx] := b;
      addrIdx := addrIdx + 1;
    }

    /** One octet of the address; a domain name is closed with a zero octet. */
    method OnAddr(b: byte)
      requires Valid() && state == AddrBody
      modifies `state, `addrIdx, `port, `portIdx, ipv4, ipv6, domain
      ensures Valid() && Taken(Abs(), 0, []) == TakeAddr(old(Abs()), b)
      ensures state == ReqPort && addrType == DOMAIN ==> domain.Length == addrLen + 1 && domain[addrLen] == 0
    {
      ghost var before := Abs();
      PutAddr(b);
      assert Store()[..addrIdx] == before.addr + [b];
      if addrIdx == addrLen {
        if addrType == DOMAIN {
          domain[addrLen] := 0;
          assert Store()[..addrIdx] == before.addr + [b];
        }
        port := 0;
        portIdx := 0;
        state := ReqPort;
      }
    }

    method OnPort(b: byte) returns (code: int)
      requires Valid() && state == ReqPort
      modifies `state, `port, `portIdx
      ensures Valid() && Taken(Abs(), code, []) == TakePort(old(Abs()), b)
    {
      port := (port * 0x100 + b as int) % 0x1_0000;
      portIdx := (portIdx + 1) % 0x100;
      code := 0;
      if portIdx == 2 {
        state := Connecting;
        code := 1;
      }
    }

    /** The switch on the state. */
    method OnByte(b: byte) returns (code: int, reply: seq<byte>)
      requires Valid()
      modifies this, reqHdr, ipv4, ipv6, domain
      ensures Valid() && Taken(Abs(), code, reply) == Take(old(Abs()), b)
      ensures domain == old(domain) || fresh(domain)
    {
      hide TakeMethod, TakeHeader, TakeLength, TakeAddr, TakePort;
      code, reply := 0, [];
      match state
      case Init =>
        if b != 5 {
          state := Error;
          code := -1;
        } else {
          state := Methods;
        }
      case Methods => code, reply := OnMethod(b);
      case ReqHeader => code, reply := OnHeader(b);
      case AddrLen => code := OnLength(b);
      case AddrBody => OnAddr(b);
      case ReqPort => code := OnPort(b);
      case Connecting =>
      case Forwarding =>
      case Error => code := -1;
    }

    /** socks5_handle_input */
    method HandleInput(buf: seq<byte>) returns (code: int, reply: seq<byte>)
      requires Valid()
      modifies this, reqHdr, ipv4, ipv6, domain
      ensures Valid() && Outcome(Abs(), code, reply) == Handle(old(Abs()), buf)
      ensures domain == old(domain) || fresh(domain)
    {
      hide Take, Valid;
      reply := [];
      var i := 0;
      while i < |buf|
        invariant 0 <= i <= |buf| && Valid() && (domain == old(domain) || fresh(domain))
        invariant HandleFrom(Abs(), buf, i, reply) == Handle(old(Abs()), buf)
      {
        var over := state == Connecting || state == Forwarding || state == Error;
        assert over == Final(Abs());
        var out;
        code, out := OnByte(buf[i]);
        if out != [] {
          reply := out;
        }
        if over || code != 0 {
          return;
        }
        i := i + 1;
      }
      code := 0;
    }
  }

  /** A C string: the octets before the first zero. */
  function CString(s: seq<byte>): seq<byte>
  {
    if s == [] || s[0] == 0 then [] else [s[0]] + CString(s[1..])
  }

  /** The domain read back with strlen is the one requested exactly when it holds no zero octet. */
  lemma {:induction false} DomainAsString(addr: seq<byte>)
    ensures CString(addr + [0]) == addr <==> 0 !in addr
    decreases |addr|
  {
    if addr != [] {
      assert (addr + [0])[1..] == addr[1..] + [0];
      DomainAsString(addr[1..]);
      assert addr == [addr[0]] + addr[1..];
    }
  }
}
