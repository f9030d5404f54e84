/** The datagram being filled by ikcp_flush: a fixed buffer and a write position. */
module KcpBuffer {
  import opened Bytes
  import opened KcpSpec
  import opened KcpWire

  function HeaderFront(p: Packet): (s: seq<byte>)
    requires p.cmd < 0x100 && p.frg < 0x100
    ensures |s| == 8
  {
    Le(p.conv, 4) + [p.cmd as byte] + [p.frg as byte] + Le(p.wnd, 2)
  }

  function HeaderBack(p: Packet): (s: seq<byte>)
    ensures |s| == 16
  {
    Le(p.ts, 4) + Le(p.sn, 4) + Le(p.una, 4) + Le(|p.data|, 4)
  }

  lemma {:induction false} HeaderParts(p: Packet)
    requires p.cmd < 0x100 && p.frg < 0x100
    ensures Header(p) == HeaderFront(p) + HeaderBack(p)
  {
    hide Le;
  }

  /** The datagram under construction: buffer and the write pointer of ikcp_flush. */
  class OutBuffer {
    const data: array<byte>
    var size: nat

    ghost predicate Valid()
      reads this
    {
      size <= data.Length
    }

    ghost function Contents(): seq<byte>
      requires Valid()
      reads this, data
    {
      data[..size]
    }

    constructor (capacity: nat)
      ensures Valid() && Contents() == [] && fresh(data) && data.Length == capacity
    {
      data := new byte[capacity](_ => 0);
      size := 0;
    }

    /** ikcp_encode8u */
    method Put8(c: byte)
      requires Valid() && size + 1 <= data.Length
      modifies this, data
      ensures Valid() && size == old(size) + 1 && Contents() == old(Contents()) + [c]
    {
      data[size] := c;
      size := size + 1;
    }

    /** ikcp_encode16u and ikcp_encode32u: n octets, least significant first. */
    method PutLe(x: nat, n: nat)
      requires Valid() && size + n <= data.Length
      modifies this, data
      ensures Valid() && size == old(size) + n && Contents() == old(Contents()) + Le(x, n)
    {
      var rest, i := x, 0;
      ghost var start := Contents();
      assert start + Le(x, n) == start + [] + Le(x, n);
      while i < n
        invariant 0 <= i <= n && Valid() && size == old(size) + i
        invariant Contents() + Le(rest, n - i) == start + Le(x, n)
      {
        ghost var sofar := Contents();
        Put8(rest % 0x100);
        assert Le(rest, n - i) == [rest % 0x100] + Le(rest / 0x100, n - i - 1);
        assert sofar + ([rest % 0x100] + Le(rest / 0x100, n - i - 1)) == Contents() + Le(rest / 0x100, n - i - 1);
        rest := rest / 0x100;
        i := i + 1;
      }
      assert Contents() + Le(rest, 0) == Contents();
    }

    /** memcpy of the payload. */
    method PutBytes(s: seq<byte>)
      requires Valid() && size + |s| <= data.Length
      modifies this, data
      ensures Valid() && size == old(size) + |s| && Contents() == old(Contents()) + s
    {
      ghost var start := Contents();
      var i := 0;
      while i < |s|
        invariant 0 <= i <= |s| && Valid() && size == old(size) + i
        invariant Contents() == start + s[..i]
      {
        Put8(s[i]);
        assert start + s[..i] + [s[i]] == start + s[..i + 1];
        i := i + 1;
      }
      assert s[..|s|] == s;
    }

    /** The first eight octets of a header. */
    method PutFront(p: Packet)
      requires Valid() && Fits(p) && size + 8 <= data.Length
      modifies this, data
      ensures Valid() && size == old(size) + 8 && Contents() == old(Contents()) + HeaderFront(p)
    {
      hide Le;
      ghost var start := Contents();
      PutLe(p.conv, 4);
      Put8(p.cmd);
      Put8(p.frg);
      PutLe(p.wnd, 2);
      assert Contents() == start + HeaderFront(p);
    }

    /** The last sixteen octets of a header. */
    method PutBack(p: Packet)
      requires Valid() && Fits(p) && size + 16 <= data.Length
      modifies this, data
      ensures Valid() && size == old(size) + 16 && Contents() == old(Contents()) + HeaderBack(p)
    {
      hide Le;
      ghost var start := Contents();
      PutLe(p.ts, 4);
      PutLe(p.sn, 4);
      PutLe(p.una, 4);
      PutLe(|p.data|, 4);
      assert Contents() == start + HeaderBack(p);
    }

    /** ikcp_encode_seg followed by the payload. */
    method PutPacket(p: Packet)
      requires Valid() && Fits(p) && size + WireSize(p) <= data.Length
      modifies this, data
      ensures Valid() && size == old(size) + WireSize(p) && Contents() == old(Contents()) + Print(p)
    {
      HeaderParts(p);
      hide HeaderFront, HeaderBack, Header, Fits;
      ghost var start := Contents();
      PutFront(p);
      PutBack(p);
      PutBytes(p.data);
      assert Contents() == start + (HeaderFront(p) + HeaderBack(p) + p.data);
    }

    method Clear()
      requires Valid()
      modifies this
      ensures Valid() && size == 0 && Contents() == []
    {
      size := 0;
    }
  }
}
