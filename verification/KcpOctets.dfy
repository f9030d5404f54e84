/**
 Runs on octets: two control blocks updated in place, exchanging the datagrams their output
 callbacks receive as octets, do exactly what the runs over packets do.
 */
module KcpOctets {
  import opened Bytes
  import opened KcpSpec
  import opened KcpWire
  import opened KcpMessages
  import opened KcpFlow
  import opened KcpWorld
  import opened KcpWrap
  import opened KcpTunnel
  import KcpRefine
  import KcpBlock

  // ---------------------------------------------------------------- what a flush emits

  /** Packets of the conversation that fit a datagram. */
  ghost predicate Ours(cfg: Config, ps: seq<Packet>)
  {
    forall i :: 0 <= i < |ps| ==> ps[i].conv == cfg.conv && WireSize(ps[i]) <= cfg.mtu
  }

  /** A datagram of the conversation: not empty and no longer than the mtu. */
  ghost predicate OurDatagram(cfg: Config, d: seq<Packet>)
  {
    d != [] && TotalSize(d) <= cfg.mtu && forall i :: 0 <= i < |d| ==> d[i].conv == cfg.conv
  }

  ghost predicate Packed(cfg: Config, st: Packing)
  {
    && (forall i :: 0 <= i < |st.done| ==> OurDatagram(cfg, st.done[i]))
    && (st.cur != [] ==> OurDatagram(cfg, st.cur))
  }

  lemma {:induction false} PackedOne(cfg: Config, st: Packing, p: Packet)
    requires Packed(cfg, st) && p.conv == cfg.conv && WireSize(p) <= cfg.mtu
    ensures Packed(cfg, PackOne(cfg.mtu, st, p))
  {
    hide WireSize;
    assert (st.cur + [p])[..|st.cur|] == st.cur && [p][..0] == [];
    assert TotalSize(st.cur + [p]) == TotalSize(st.cur) + WireSize(p) && TotalSize([p]) == WireSize(p);
    assert [] + [p] == [p] && TotalSize([]) == 0;
    hide TotalSize;
  }

  lemma {:induction false} PackedOurs(cfg: Config, ps: seq<Packet>)
    requires Ours(cfg, ps)
    ensures Packed(cfg, PackAll(cfg.mtu, Packing([], []), ps))
    decreases |ps|
  {
    if ps != [] {
      hide Packed, PackOne;
      PackedOurs(cfg, ps[..|ps| - 1]);
      PackedOne(cfg, PackAll(cfg.mtu, Packing([], []), ps[..|ps| - 1]), ps[|ps| - 1]);
    } else {
      assert Packed(cfg, Packing([], []));
    }
  }

  lemma {:induction false} DatagramsOurs(cfg: Config, ps: seq<Packet>)
    requires Ours(cfg, ps)
    ensures forall i :: 0 <= i < |Datagrams(cfg.mtu, ps)| ==> OurDatagram(cfg, Datagrams(cfg.mtu, ps)[i])
  {
    PackedOurs(cfg, ps);
    hide PackAll, OurDatagram;
  }

  lemma {:induction false} LaunchFits(k: Kcb, window: nat)
    requires ValidConfig(k.cfg)
    requires Short(k.snd.queue, k.cfg.Mss()) && Short(k.snd.buf, k.cfg.Mss())
    ensures Short(Launch(true, k, window).snd.buf, k.cfg.Mss())
    decreases |k.snd.queue|
  {
    hide Launch, TimeDiff, U32;
    LaunchUnfolds(true, k, window);
    if k.snd.queue != [] && TimeDiff(k.snd.nxt, U32(k.snd.una + window)) < 0 {
      var seg := Launched(k, k.snd.queue[0]);
      LaunchFits(k.(snd := Sender(k.snd.una, U32(k.snd.nxt + 1), k.snd.queue[1..], k.snd.buf + [seg])), window);
    }
  }

  ghost predicate Short(segs: seq<Segment>, mss: nat)
  {
    forall i :: 0 <= i < |segs| ==> |segs[i].data| <= mss
  }

  lemma {:induction false} SweepOurs(k: Kcb, n: nat)
    requires n <= |k.snd.buf| && ValidConfig(k.cfg) && Short(k.snd.buf, k.cfg.Mss())
    ensures Ours(k.cfg, SweepUpto(k, n).ps)
    decreases n
  {
    if n > 0 {
      SweepOurs(k, n - 1);
      assert Flushed(k, k.snd.buf[n - 1]).data == k.snd.buf[n - 1].data;
      hide Flushed, WhySend;
    }
  }

  lemma {:induction false} FlushOurs(k: Kcb)
    requires ValidConfig(k.cfg) && Short(k.snd.queue, k.cfg.Mss()) && Short(k.snd.buf, k.cfg.Mss())
    ensures Ours(k.cfg, Flush(true, k).ps)
  {
    if k.tm.updated {
      KcpBlock.FlushStages(k);
      var quiet := Quiet(k);
      var l := KcpBlock.LaunchedAll(quiet);
      LaunchFits(quiet, SendWindow(quiet));
      SweepOurs(l, |l.snd.buf|);
      hide Short, Flush, KcpBlock.LaunchedAll, SweepUpto, ProbeTimer, Unused, LastAck, Adjusted;
    }
  }

  lemma {:induction false} UpdateOurs(k: Kcb, now: nat)
    requires ValidConfig(k.cfg) && Short(k.snd.queue, k.cfg.Mss()) && Short(k.snd.buf, k.cfg.Mss())
    ensures Ours(k.cfg, Update(true, k, now).ps)
  {
    KcpBlock.UpdateParts(k, now);
    var t := Ticked(k.tm, k.cfg.interval, now);
    FlushOurs(k.(tm := t.tm));
    hide Update, Flush, Ticked;
  }

  /** In a state of the invariant, the octets of a datagram are processed as its packets. */
  lemma {:induction false} OctetsArePackets(w: World, i: nat)
    requires Inv(w) && i < |w.ba|
    ensures var d := WrapPackets(w.ba[i]);
            && ValidConfig(w.a.cfg) && AllFit(d)
            && KcpBlock.InputData(WrapKcb(w.a), PrintAll(d)) == (Input(true, WrapKcb(w.a), d), 0)
  {
    var d := WrapPackets(w.ba[i]);
    InvMirror(w);
    KcpRefine.EveryDatagramParses(Mirror(w), i);
    forall j | 0 <= j < |d|
      ensures d[j].conv == w.a.cfg.conv
    {
      assert Sent(w.ba, w.ba[i][j]);
      assert HeaderOk(w.ba[i][j], w.b.cfg.conv);
    }
    hide Half, AllFit, Parse, Input, KcpBlock.InputData, WrapSnd, WrapRcv;
    assert |PrintAll(d)| == TotalSize(d) && d != [];
    KcpBlock.InputPrinted(WrapKcb(w.a), d);
  }

  // ---------------------------------------------------------------- the network as octets

  /** The octets of every datagram emitted so far. */
  ghost predicate Carried(octets: seq<seq<byte>>, net: Network, cfg: Config)
  {
    && |octets| == |net|
    && forall i :: 0 <= i < |net| ==> OurDatagram(cfg, net[i]) && AllFit(net[i]) && octets[i] == PrintAll(net[i])
  }

  lemma {:induction false} CarriedGrows(before: seq<seq<byte>>, after: seq<seq<byte>>, net: Network, cfg: Config,
                                        ps: seq<Packet>)
    requires Carried(before, net, cfg) && KcpBlock.Handed(before, after, cfg.mtu, ps) && Ours(cfg, ps)
    ensures Carried(after, net + Datagrams(cfg.mtu, ps), cfg) && before <= after
  {
    DatagramsOurs(cfg, ps);
    hide Datagrams, PrintAll, AllFit, OurDatagram;
  }

  /** A datagram has between 24 octets and the mtu. */
  lemma {:induction false} CarriedSizes(octets: seq<seq<byte>>, net: Network, cfg: Config, i: nat)
    requires Carried(octets, net, cfg) && i < |octets|
    ensures 0 < |octets[i]| <= cfg.mtu
  {
    var d := net[i];
    assert OurDatagram(cfg, d);
    assert TotalSize(d) == TotalSize(d[..|d| - 1]) + WireSize(d[|d| - 1]);
    hide TotalSize, AllFit, PrintAll;
  }

  /** Giving a block the octets of a datagram is delivering the datagram. */
  lemma {:induction false} OctetsDelivered(w: World, octets: seq<seq<byte>>, i: nat)
    requires Configured(w) && Carried(octets, w.ba, w.b.cfg) && i < |octets|
    ensures w.(a := KcpBlock.InputData(w.a, octets[i]).0) == StepA(true, w, Event.Deliver(i))
  {
    assert OurDatagram(w.b.cfg, w.ba[i]);
    KcpBlock.InputPrinted(w.a, w.ba[i]);
    hide KcpSpec.Input, KcpBlock.InputData, TotalSize, AllFit, PrintAll;
  }

  // ---------------------------------------------------------------- endpoints

  /** One side as a value: control block, datagrams emitted, messages handed in and taken out. */
  datatype Station = Station(k: Kcb, net: Network, sent: seq<Msg>, got: seq<Msg>)

  /** Both sides as the world of the packet runs. */
  function Between(near: Station, far: Station): World
  {
    World(near.k, far.k, near.net, far.net, near.sent, far.sent, near.got, far.got)
  }

  /** One side: its control block, and what its application has handed in and taken out. */
  class Endpoint {
    const block: KcpBlock.Kcp
    var sent: seq<Msg>
    var got: seq<Msg>
    // the packets behind the octets in block.sent
    ghost var net: Network

    ghost predicate Valid()
      reads this, block, block.out
    {
      block.Valid() && block.OutOk() && !block.cfg.stream && Carried(block.sent, net, block.cfg)
    }

    ghost predicate Apart(peer: Endpoint)
    {
      this != peer && block != peer.block && block.out != peer.block.out && block.out.data != peer.block.out.data
    }

    constructor (k: KcpBlock.Kcp)
      requires k.Valid() && k.OutOk() && k.sent == [] && !k.cfg.stream
      ensures Valid() && block == k && net == [] && sent == [] && got == []
    {
      block, sent, got, net := k, [], [], [];
    }

    ghost function Self(): Station
      reads this, block
    {
      Station(block.Abs(), net, sent, got)
    }

    /** The world seen from here, with the other side as it is now. */
    ghost function View(far: Station): World
      reads this, block
    {
      Between(Self(), far)
    }

    method SendMessage(msg: Msg, ghost far: Station)
      requires Valid() && Configured(View(far))
      modifies this, block
      ensures Valid()
      ensures View(far) == StepA(true, old(View(far)), Event.SendMessage(msg))
      ensures block.sent == old(block.sent) && block.cfg == old(block.cfg)
    {
      assert msg[..|msg|] == msg;
      hide KcpSpec.Send, Carried, KcpBlock.SegmentsOk;
      var ret := block.Send(msg, |msg|);
      if ret >= 0 {
        sent := sent + [msg];
      }
    }

    method Tick(now: nat, ghost far: Station)
      requires Valid() && Configured(View(far))
      modifies this, block, block.out, block.out.data
      ensures Valid()
      ensures View(far) == StepA(true, old(View(far)), Event.Tick(now))
      ensures old(block.sent) <= block.sent && block.cfg == old(block.cfg)
    {
      hide KcpSpec.Update, Carried, KcpBlock.Handed, Datagrams;
      ghost var k, before := block.Abs(), block.sent;
      UpdateOurs(k, U32(now));
      UpdateConfig(true, k, U32(now));
      block.Update(U32(now));
      ghost var ps := KcpSpec.Update(true, k, U32(now)).ps;
      CarriedGrows(before, block.sent, net, k.cfg, ps);
      net := net + Datagrams(k.cfg.mtu, ps);
    }

    method Flush(ghost far: Station)
      requires Valid() && Configured(View(far))
      modifies this, block, block.out, block.out.data
      ensures Valid()
      ensures View(far) == StepA(true, old(View(far)), FlushNow)
      ensures old(block.sent) <= block.sent && block.cfg == old(block.cfg)
    {
      hide KcpSpec.Flush, Carried, KcpBlock.Handed, Datagrams;
      ghost var k, before := block.Abs(), block.sent;
      FlushOurs(k);
      FlushConfig(true, k);
      block.Flush();
      ghost var ps := KcpSpec.Flush(true, k).ps;
      CarriedGrows(before, block.sent, net, k.cfg, ps);
      net := net + Datagrams(k.cfg.mtu, ps);
    }

    /** Octets arrive.  What follows is the parser's doing. */
    method Accept(octets: seq<byte>, ghost far: Station)
      requires Valid() && Configured(View(far))
      modifies block
      ensures Valid() && Configured(View(far))
      ensures View(far) == old(View(far)).(a := KcpBlock.InputData(old(block.Abs()), octets).0)
      ensures block.sent == old(block.sent) && block.cfg == old(block.cfg)
    {
      hide Carried, KcpBlock.SegmentsOk;
      KcpBlock.InputDataConfig(block.Abs(), octets);
      hide KcpBlock.InputData;
      var _ := block.Input(octets);
    }

    /** The i-th datagram of the far side arrives; wire holds their octets. */
    method Deliver(i: nat, wire: seq<seq<byte>>, ghost far: Station)
      requires Valid() && Configured(View(far)) && Carried(wire, far.net, far.k.cfg)
      modifies block
      ensures Valid()
      ensures View(far) == StepA(true, old(View(far)), Event.Deliver(i))
    {
      hide KcpSpec.Input, KcpBlock.InputData, AllFit, KcpBlock.SegmentsOk;
      if i < |wire| {
        OctetsDelivered(View(far), wire, i);
        Accept(wire[i], far);
      }
    }

    method Receive(len: int, ghost far: Station)
      requires Valid() && Configured(View(far))
      modifies this, block
      ensures Valid()
      ensures View(far) == StepA(true, old(View(far)), Event.Receive(len))
      ensures block.sent == old(block.sent) && block.cfg == old(block.cfg)
    {
      hide KcpSpec.Recv, Carried, KcpBlock.SegmentsOk;
      var ret, msg := block.Recv(len);
      if ret >= 0 && len >= 0 {
        got := got + [msg];
      }
    }

    method Do(e: Event, wire: seq<seq<byte>>, ghost far: Station)
      requires Valid() && Configured(View(far)) && Carried(wire, far.net, far.k.cfg)
      modifies this, block, block.out, block.out.data
      ensures Valid()
      ensures View(far) == StepA(true, old(View(far)), e)
    {
      hide StepA, Valid, View;
      match e
      case SendMessage(msg) => SendMessage(msg, far);
      case Tick(now) => Tick(now, far);
      case FlushNow => Flush(far);
      case Deliver(i) => Deliver(i, wire, far);
      case Receive(len) => Receive(len, far);
    }
  }

  // ---------------------------------------------------------------- whole runs

  /** Any schedule of calls on two control blocks joined by octets is the run over packets. */
  method Drive(a: Endpoint, b: Endpoint, acts: seq<Action>)
    requires a.Valid() && b.Valid() && a.Apart(b) && Configured(a.View(b.Self()))
    modifies a, a.block, a.block.out, a.block.out.data, b, b.block, b.block.out, b.block.out.data
    ensures a.Valid() && b.Valid() && a.View(b.Self()) == Run(true, old(a.View(b.Self())), acts)
  {
    hide Step;
    ghost var w := a.View(b.Self());
    for i := 0 to |acts|
      invariant a.Valid() && b.Valid() && a.View(b.Self()) == Run(true, w, acts[..i])
    {
      assert acts[..i + 1][..i] == acts[..i];
      DriveOne(a, b, acts[i]);
    }
    assert acts[..|acts|] == acts;
  }

  method DriveOne(a: Endpoint, b: Endpoint, act: Action)
    requires a.Valid() && b.Valid() && a.Apart(b) && Configured(a.View(b.Self()))
    modifies a, a.block, a.block.out, a.block.out.data, b, b.block, b.block.out, b.block.out.data
    ensures a.Valid() && b.Valid() && a.View(b.Self()) == Step(true, old(a.View(b.Self())), act)
  {
    hide StepA, KcpBlock.Kcp.Valid, KcpBlock.Kcp.OutOk, Carried;
    if act.atA {
      a.Do(act.event, b.block.sent, b.Self());
    } else {
      b.Do(act.event, a.block.sent, a.Self());
    }
  }

  method OpenTunnels() returns (a: Endpoint, b: Endpoint)
    ensures a.Valid() && b.Valid() && a.Apart(b) && a.View(b.Self()) == TunnelStart()
    ensures fresh({a, b, a.block, b.block, a.block.out, b.block.out, a.block.out.data, b.block.out.data})
  {
    assert !TunnelConfig().stream;
    hide TunnelConfig;
    var k := KcpBlock.OpenTunnelBlock();
    var l := KcpBlock.OpenTunnelBlock();
    a := new Endpoint(k);
    b := new Endpoint(l);
  }

  /**
   Two tunnels that talk in octets: while each side has sent at most 2^31 + 1 segments, each
   application has read a prefix of what the other wrote.
   */
  method RunTunnels(acts: seq<Action>) returns (a: Endpoint, b: Endpoint)
    ensures a.Valid() && b.Valid() && a.View(b.Self()) == Run(true, TunnelStart(), acts)
    ensures KcpRefine.Small(Run(true, TunnelStart(), acts)) ==> a.got <= b.sent && b.got <= a.sent
  {
    hide Run, KcpRefine.Small, TunnelStart;
    a, b := OpenTunnels();
    Drive(a, b, acts);
    if KcpRefine.Small(Run(true, TunnelStart(), acts)) {
      EveryTunnelRun(acts);
    }
  }
}
