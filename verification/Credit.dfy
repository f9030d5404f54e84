/** Window credit of a channel (tunnel.c): DATA frames spend it, WINDOW_UPDATE frames give it back. */
module Credit {
  import opened Bytes

  const WINDOW: nat := 4096
  const CHUNK: nat := 2048
  const WORD: nat := 0x1_0000_0000

  datatype Frame = Data(len: u32) | Update(inc: u32)

  /** send_wnd and local_recv_accum of one end. */
  datatype Channel = Channel(sendWnd: u32, accum: u32)

  datatype Result = Result(c: Channel, out: seq<Frame>)

  function Wrap(x: nat): u32
  {
    x % WORD
  }

  /** readLen octets came from the local socket: at most the window and at most 2048 of them are sent. */
  function OnRead(c: Channel, readLen: nat): Result
  {
    var n := Min(Min(readLen, c.sendWnd), CHUNK);
    if n > 0 then Result(c.(sendWnd := c.sendWnd - n), [Data(n)]) else Result(c, [])
  }

  /** A DATA frame of which the local socket took sent octets. */
  function OnData(c: Channel, sent: int): Result
    requires sent < WORD
  {
    if sent <= 0 then Result(c, [])
    else
      var accum := Wrap(c.accum + sent);
      if accum >= CHUNK then Result(c.(accum := 0), [Update(accum)]) else Result(c.(accum := accum), [])
  }

  function OnUpdate(c: Channel, inc: u32): Result
  {
    Result(c.(sendWnd := Wrap(c.sendWnd + inc)), [])
  }

  // ---------------------------------------------------------------- two ends and two reliable links

  datatype Event = Read(len: nat) | Arrive(sent: int)

  datatype Action = Action(atA: bool, e: Event)

  /** Frames in flight in each direction, oldest first. */
  datatype World = World(a: Channel, b: Channel, ab: seq<Frame>, ba: seq<Frame>)

  function Opened(): World
  {
    World(Channel(WINDOW, 0), Channel(WINDOW, 0), [], [])
  }

  /** A socket takes no more than it is given. */
  function Taken(f: Frame, sent: int): int
    requires f.Data?
  {
    Min(sent, f.len)
  }

  function Handle(c: Channel, f: Frame, sent: int): Result
  {
    if f.Data? then OnData(c, Taken(f, sent)) else OnUpdate(c, f.inc)
  }

  function NextA(w: World, e: Event): World
  {
    match e
    case Read(len) => var r := OnRead(w.a, len); w.(a := r.c, ab := w.ab + r.out)
    case Arrive(sent) =>
      if w.ba == [] then w
      else var r := Handle(w.a, w.ba[0], sent); World(r.c, w.b, w.ab + r.out, w.ba[1..])
  }

  function Mirror(w: World): World
  {
    World(w.b, w.a, w.ba, w.ab)
  }

  function Next(w: World, act: Action): World
  {
    if act.atA then NextA(w, act.e) else Mirror(NextA(Mirror(w), act.e))
  }

  function Run(acts: seq<Action>): World
  {
    if acts == [] then Opened() else Next(Run(acts[..|acts| - 1]), acts[|acts| - 1])
  }

  // ---------------------------------------------------------------- conservation

  function DataIn(fs: seq<Frame>): nat
  {
    if fs == [] then 0 else (if fs[0].Data? then fs[0].len else 0) + DataIn(fs[1..])
  }

  function CreditIn(fs: seq<Frame>): nat
  {
    if fs == [] then 0 else (if fs[0].Update? then fs[0].inc else 0) + CreditIn(fs[1..])
  }

  lemma {:induction false} SumsAppend(fs: seq<Frame>, gs: seq<Frame>)
    ensures DataIn(fs + gs) == DataIn(fs) + DataIn(gs)
    ensures CreditIn(fs + gs) == CreditIn(fs) + CreditIn(gs)
    decreases |fs|
  {
    if fs == [] {
      assert fs + gs == gs;
    } else {
      SumsAppend(fs[1..], gs);
      assert (fs + gs)[1..] == fs[1..] + gs;
    }
  }

  lemma {:induction false} SumsOne(fs: seq<Frame>)
    requires |fs| <= 1
    ensures DataIn(fs) == if fs != [] && fs[0].Data? then fs[0].len else 0
    ensures CreditIn(fs) == if fs != [] && fs[0].Update? then fs[0].inc else 0
  {
  }

  /** Everything that makes up the credit of the direction from A to B. */
  function Total(w: World): nat
  {
    w.a.sendWnd + DataIn(w.ab) + w.b.accum + CreditIn(w.ba)
  }

  predicate Bounded(w: World)
  {
    Total(w) <= WINDOW && w.b.accum < CHUNK
  }

  lemma {:induction false} HandleSpends(c: Channel, f: Frame, sent: int)
    requires c.accum < CHUNK && (f.Data? ==> f.len <= WINDOW) && (f.Update? ==> c.sendWnd + f.inc <= WINDOW)
    ensures var r := Handle(c, f, sent);
            && r.c.accum < CHUNK && |r.out| <= 1 && DataIn(r.out) == 0
            && r.c.sendWnd == c.sendWnd + (if f.Update? then f.inc else 0)
            && r.c.accum + CreditIn(r.out) == c.accum + (if f.Data? && sent > 0 then Taken(f, sent) else 0)
  {
    SumsOne(Handle(c, f, sent).out);
    assert forall x: nat :: x < WORD ==> Wrap(x) == x;
  }

  lemma {:induction false} ReadSpends(c: Channel, readLen: nat)
    ensures var r := OnRead(c, readLen);
            && r.c.accum == c.accum && CreditIn(r.out) == 0
            && r.c.sendWnd + DataIn(r.out) == c.sendWnd
  {
    SumsOne(OnRead(c, readLen).out);
  }

  /** Octets of the frame taken from the inbox that the local socket did not take. */
  function Refused(inbox: seq<Frame>, e: Event): nat
  {
    if e.Arrive? && inbox != [] && inbox[0].Data? then
      if e.sent <= 0 then inbox[0].len else inbox[0].len - Taken(inbox[0], e.sent)
    else 0
  }

  predicate Fits(w: World)
  {
    Bounded(w) && Bounded(Mirror(w))
  }

  /** An event at A keeps the outgoing total and lowers the incoming one by what the local socket refused. */
  lemma {:induction false} NextAConserves(w: World, e: Event)
    requires Fits(w)
    ensures var w' := NextA(w, e);
            && Fits(w') && Total(w') == Total(w) && Total(Mirror(w')) + Refused(w.ba, e) == Total(Mirror(w))
  {
    match e
    case Read(len) =>
      ReadSpends(w.a, len);
      SumsAppend(w.ab, OnRead(w.a, len).out);
      hide DataIn, CreditIn;
    case Arrive(sent) =>
      if w.ba != [] {
        var f := w.ba[0];
        assert DataIn(w.ba) == (if f.Data? then f.len else 0) + DataIn(w.ba[1..]);
        assert CreditIn(w.ba) == (if f.Update? then f.inc else 0) + CreditIn(w.ba[1..]);
        HandleSpends(w.a, f, sent);
        SumsAppend(w.ab, Handle(w.a, f, sent).out);
        hide DataIn, CreditIn, Handle;
      }
  }

  lemma {:induction false} NextConserves(w: World, act: Action)
    requires Fits(w)
    ensures var w' := Next(w, act);
            && Fits(w')
            && Total(w') + (if act.atA then 0 else Refused(w.ab, act.e)) == Total(w)
            && Total(Mirror(w')) + (if act.atA then Refused(w.ba, act.e) else 0) == Total(Mirror(w))
  {
    hide Total, NextA, Refused;
    assert Mirror(Mirror(w)) == w;
    if act.atA {
      NextAConserves(w, act.e);
    } else {
      NextAConserves(Mirror(w), act.e);
    }
  }

  /** All octets refused so far by the local socket of one end. */
  function Lost(acts: seq<Action>, atA: bool): nat
  {
    if acts == [] then 0
    else
      var init, act := acts[..|acts| - 1], acts[|acts| - 1];
      var w := Run(init);
      Lost(init, atA) + (if act.atA == atA then Refused(if atA then w.ba else w.ab, act.e) else 0)
  }

  /** In every run, in each direction, the total and what the far socket refused add up to 4096. */
  lemma {:induction false} EveryRunConserves(acts: seq<Action>)
    ensures Fits(Run(acts))
    ensures Total(Run(acts)) + Lost(acts, false) == WINDOW
    ensures Total(Mirror(Run(acts))) + Lost(acts, true) == WINDOW
    decreases |acts|
  {
    hide Next, Fits, Refused;
    if acts == [] {
      NothingYet();
    } else {
      EveryRunConserves(acts[..|acts| - 1]);
      NextConserves(Run(acts[..|acts| - 1]), acts[|acts| - 1]);
      hide Total;
    }
  }

  lemma {:induction false} NothingYet()
    ensures Fits(Opened()) && Total(Opened()) == WINDOW && Total(Mirror(Opened())) == WINDOW
  {
  }

  /** Window arithmetic never wraps: every unsigned addition of the run stays below 2^32. */
  lemma {:induction false} NoWrap(acts: seq<Action>)
    ensures var w := Run(acts);
            && w.a.sendWnd + CreditIn(w.ba) <= WINDOW && w.b.sendWnd + CreditIn(w.ab) <= WINDOW
            && w.a.accum + DataIn(w.ba) <= WINDOW && w.b.accum + DataIn(w.ab) <= WINDOW
  {
    EveryRunConserves(acts);
    hide Run;
  }

  /**
   With nothing in flight the sender's window is what was neither refused nor is still being
   collected; when nothing was refused more than half is open, so the next read is forwarded.
   */
  lemma {:induction false} DrainedIsNotStuck(acts: seq<Action>, readLen: nat)
    requires Run(acts).ab == [] && Run(acts).ba == []
    ensures var w := Run(acts);
            && w.a.sendWnd + w.b.accum + Lost(acts, false) == WINDOW
            && (Lost(acts, false) == 0 ==> w.a.sendWnd > CHUNK)
            && (Lost(acts, false) == 0 && readLen > 0 ==> OnRead(w.a, readLen).out == [Data(Min(readLen, CHUNK))])
  {
    EveryRunConserves(acts);
    hide Run, Lost;
  }

  /** With nothing in flight a read is forwarded exactly while refused and collected octets leave some of the window. */
  lemma {:induction false} ForwardedExactly(acts: seq<Action>, readLen: nat)
    requires Run(acts).ab == [] && Run(acts).ba == []
    ensures OnRead(Run(acts).a, readLen).out != [] <==> readLen > 0 && Run(acts).b.accum + Lost(acts, false) < WINDOW
  {
    EveryRunConserves(acts);
    hide Run, Lost;
  }

  // ---------------------------------------------------------------- refused octets are lost for good

  lemma {:induction false} RunAppend(acts: seq<Action>, more: seq<Action>)
    requires more != []
    ensures Run(acts + more) == Next(Run(acts + more[..|more| - 1]), more[|more| - 1])
    ensures Lost(acts + more[..|more| - 1], false) <= Lost(acts + more, false)
  {
    assert (acts + more)[..|acts + more| - 1] == acts + more[..|more| - 1];
    hide Next, Refused;
  }

  lemma {:induction false} LostGrows(acts: seq<Action>, more: seq<Action>)
    ensures Lost(acts, false) <= Lost(acts + more, false)
    decreases |more|
  {
    hide Lost, Run;
    if more == [] {
      assert acts + more == acts;
    } else {
      LostGrows(acts, more[..|more| - 1]);
      RunAppend(acts, more);
    }
  }

  /** In every continuation the window stays short of what has been refused. */
  lemma {:induction false} LossIsPermanent(acts: seq<Action>, more: seq<Action>)
    ensures Run(acts + more).a.sendWnd + Lost(acts, false) <= WINDOW
  {
    LostGrows(acts, more);
    EveryRunConserves(acts + more);
    hide Run, Lost;
  }

  /** The window is closed and nothing on its way could open it. */
  predicate Silent(w: World)
  {
    w.a.sendWnd == 0 && DataIn(w.ab) == 0 && CreditIn(w.ba) == 0
  }

  lemma {:induction false} SilentAtA(w: World, e: Event)
    requires Fits(w) && Silent(w)
    ensures Silent(NextA(w, e))
  {
    match e
    case Read(len) =>
      assert w.ab + [] == w.ab;
    case Arrive(sent) =>
      if w.ba != [] {
        assert CreditIn(w.ba) == (if w.ba[0].Update? then w.ba[0].inc else 0) + CreditIn(w.ba[1..]);
        assert DataIn(w.ba) == (if w.ba[0].Data? then w.ba[0].len else 0) + DataIn(w.ba[1..]);
        HandleSpends(w.a, w.ba[0], sent);
        SumsAppend(w.ab, Handle(w.a, w.ba[0], sent).out);
        hide DataIn, CreditIn, Handle;
      }
  }

  lemma {:induction false} SilentAtB(w: World, e: Event)
    requires Fits(w) && Silent(w)
    ensures Silent(Mirror(NextA(Mirror(w), e)))
  {
    match e
    case Read(len) =>
      ReadSpends(w.b, len);
      SumsAppend(w.ba, OnRead(w.b, len).out);
      hide DataIn, CreditIn;
    case Arrive(sent) =>
      if w.ab != [] {
        assert DataIn(w.ab) == (if w.ab[0].Data? then w.ab[0].len else 0) + DataIn(w.ab[1..]);
        assert CreditIn(w.ab) == (if w.ab[0].Update? then w.ab[0].inc else 0) + CreditIn(w.ab[1..]);
        HandleSpends(w.b, w.ab[0], sent);
        SumsAppend(w.ba, Handle(w.b, w.ab[0], sent).out);
        hide DataIn, CreditIn, Handle;
      }
  }

  lemma {:induction false} SilenceStays(acts: seq<Action>, more: seq<Action>)
    requires Silent(Run(acts))
    ensures Silent(Run(acts + more))
    decreases |more|
  {
    hide Run, Silent, NextA, Fits;
    if more == [] {
      assert acts + more == acts;
    } else {
      var init, last := more[..|more| - 1], more[|more| - 1];
      SilenceStays(acts, init);
      EveryRunConserves(acts + init);
      RunAppend(acts, more);
      if last.atA {
        SilentAtA(Run(acts + init), last.e);
      } else {
        SilentAtB(Run(acts + init), last.e);
      }
    }
  }

  /**
   With nothing in flight: refused and collected octets make up the whole window exactly when no
   continuation whatever lets another octet through.
   */
  lemma {:induction false} SilentForGood(acts: seq<Action>)
    requires Run(acts).ab == [] && Run(acts).ba == []
    ensures Run(acts).b.accum + Lost(acts, false) == WINDOW <==>
              forall more: seq<Action>, readLen: nat :: OnRead(Run(acts + more).a, readLen).out == []
  {
    EveryRunConserves(acts);
    ForwardedExactly(acts, 1);
    assert acts + [] == acts;
    if Run(acts).b.accum + Lost(acts, false) == WINDOW {
      assert Silent(Run(acts));
      forall more: seq<Action>, readLen: nat
        ensures OnRead(Run(acts + more).a, readLen).out == []
      {
        SilenceStays(acts, more);
      }
    } else {
      assert OnRead(Run(acts + []).a, 1).out != [];
    }
    hide Run, Lost;
  }

  /** Such a state is reachable: two frames refused by the peer's socket, and nothing opens the window again. */
  lemma {:induction false} RefusedCreditIsLost(more: seq<Action>)
    ensures var acts := [Action(true, Read(2048)), Action(true, Read(2048)),
                         Action(false, Arrive(-1)), Action(false, Arrive(-1))];
            Run(acts).ab == [] && Run(acts).ba == [] && Lost(acts, false) == WINDOW && Run(acts + more).a.sendWnd == 0
  {
    var r, x := Action(true, Read(2048)), Action(false, Arrive(-1));
    var acts := [r, r, x, x];
    assert acts[..3] == [r, r, x] && [r, r, x][..2] == [r, r] && [r, r][..1] == [r] && [r][..0] == [];
    assert Run([r]) == World(Channel(2048, 0), Channel(WINDOW, 0), [Data(2048)], []);
    assert Run([r, r]) == World(Channel(0, 0), Channel(WINDOW, 0), [Data(2048), Data(2048)], []);
    assert Run([r, r, x]) == World(Channel(0, 0), Channel(WINDOW, 0), [Data(2048)], []);
    assert Lost([r], false) == 0;
    assert Lost([r, r], false) == 0;
    assert Lost([r, r, x], false) == 2048;
    assert Lost(acts, false) == 4096;
    hide Lost, Run;
    LossIsPermanent(acts, more);
  }

  // ---------------------------------------------------------------- each event, exactly

  /** sent is the most that the octets read, the window and 2048 allow. */
  predicate Most(sent: nat, readLen: nat, window: nat)
  {
    sent <= readLen && sent <= window && sent <= 2048 && (sent == readLen || sent == window || sent == 2048)
  }

  /** A read is forwarded as far as the window and one chunk allow, in one frame, and charged to the window. */
  lemma {:induction false} ReadExactly(c: Channel, readLen: nat)
    ensures var r := OnRead(c, readLen);
            && DataIn(r.out) == c.sendWnd - r.c.sendWnd && Most(DataIn(r.out), readLen, c.sendWnd)
            && r.out == (if DataIn(r.out) > 0 then [Data(DataIn(r.out))] else []) && r.c.accum == c.accum
  {
    SumsOne(OnRead(c, readLen).out);
    hide DataIn;
  }

  /**
   What the socket took is collected; credit goes back exactly once 2048 octets have come together,
   all of them in one frame.
   */
  lemma {:induction false} DataExactly(c: Channel, sent: int)
    requires c.accum < 2048 && sent <= 4096
    ensures var r := OnData(c, sent);
            var taken := if sent > 0 then sent else 0;
            && r.c.sendWnd == c.sendWnd
            && (c.accum + taken < 2048 ==> r.c.accum == c.accum + taken && r.out == [])
            && (c.accum + taken >= 2048 ==> r.c.accum == 0 && r.out == [Update(c.accum + taken)])
  {
    assert forall x: nat :: x < WORD ==> Wrap(x) == x;
  }

  /** Credit opens the window by what it says; without room in the counter it would wrap. */
  lemma {:induction false} UpdateExactly(c: Channel, inc: u32)
    ensures var r := OnUpdate(c, inc);
            && r.out == [] && r.c.accum == c.accum
            && (c.sendWnd + inc < 0x1_0000_0000 ==> r.c.sendWnd == c.sendWnd + inc)
            && (c.sendWnd + inc >= 0x1_0000_0000 ==> r.c.sendWnd + 0x1_0000_0000 == c.sendWnd + inc)
  {
  }

  // ---------------------------------------------------------------- one end in place

  /** The credit fields of a channel; frames are queued on out. */
  class ChannelEnd {
    var sendWnd: u32
    var localRecvAccum: u32
    var out: seq<Frame>

    ghost function Abs(): Channel
      reads `sendWnd, `localRecvAccum
    {
      Channel(sendWnd, localRecvAccum)
    }

    constructor ()
      ensures Abs() == Channel(WINDOW, 0) && out == []
    {
      sendWnd, localRecvAccum, out := WINDOW, 0, [];
    }

    /** Data forwarding of an event on the local socket. */
    method LocalRead(readLen: nat)
      modifies this
      ensures Abs() == OnRead(old(Abs()), readLen).c && out == old(out) + OnRead(old(Abs()), readLen).out
    {
      var toRead := if readLen > sendWnd then sendWnd else readLen;
      if toRead > 2048 {
        toRead := 2048;
      }
      if toRead > 0 {
        out := out + [Data(toRead)];
        sendWnd := sendWnd - toRead;
      }
    }

    /** CMD_DATA, of which the local socket took sent octets. */
    method DataArrived(sent: int)
      requires sent < WORD
      modifies this
      ensures Abs() == OnData(old(Abs()), sent).c && out == old(out) + OnData(old(Abs()), sent).out
    {
      if sent > 0 {
        localRecvAccum := Wrap(localRecvAccum + sent);
        if localRecvAccum >= 2048 {
          out := out + [Update(localRecvAccum)];
          localRecvAccum := 0;
        }
      }
    }

    /** CMD_WINDOW_UPDATE */
    method CreditArrived(inc: u32)
      modifies this
      ensures Abs() == OnUpdate(old(Abs()), inc).c && out == old(out) + OnUpdate(old(Abs()), inc).out
    {
      sendWnd := Wrap(sendWnd + inc);
    }
  }
}
