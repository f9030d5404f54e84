/** The sender's group numbering over whole runs, and the two ends together. */
module FecSending {
  import opened Bytes
  import opened ErasureCode
  import opened FecGroups
  import opened FecDelivery
  import opened FecRuns

  /** One call of kcp_output_cb under the settings of the moment, or the timer that closes an open group. */
  datatype Call = Call(fecN: byte, fecR: byte, payload: Payload) | Expire

  /** The encoder, all it emitted, which payloads it put where, and how many groups it has started. */
  datatype Outbox = Outbox(e: Encoder, ws: seq<Wire>, log: Log, started: nat)

  /** Group numbers have 16 bits. */
  const NUMBERS: nat := 0x1_0000

  function Nothing(): Outbox
  {
    Outbox(Encoder(0, 0, 0, []), [], Log(map[], {}), 0)
  }

  predicate CallOk(c: Call)
  {
    c.Call? ==> 1 <= |c.payload| <= MTU
  }

  /** What a call or the timer does to the encoder, and the packets it sends. */
  ghost function Stepped(e: Encoder, c: Call): (s: Sending)
    requires EncoderOk(e) && CallOk(c)
    ensures EncoderOk(s.e)
  {
    match c
    case Call(fecN, fecR, payload) => Output(e, fecN, fecR, payload)
    case Expire => Expired(e)
  }

  /** The timer finds an open group. */
  predicate Closes(e: Encoder, c: Call)
  {
    c.Expire? && e.r > 0 && e.blocks != []
  }

  predicate CallsOk(calls: seq<Call>)
  {
    forall i :: 0 <= i < |calls| ==> CallOk(calls[i])
  }

  /** A protected call finds no group open. */
  predicate Opens(e: Encoder, c: Call)
  {
    c.Call? && c.fecR != 0 && e.blocks == []
  }

  /** A number is left for the group this call may open. */
  predicate Numberable(s: Outbox, c: Call)
  {
    Opens(s.e, c) ==> s.started < NUMBERS
  }

  function NextGroup(s: Outbox, c: Call): Group
    requires EncoderOk(s.e) && (s.e.blocks != [] ==> s.e.group in s.log.groups) && c.Call?
  {
    var o := Opened(s.e, c.fecN, c.fecR);
    if s.e.blocks == [] then Group(o.n, o.n, o.r, [c.payload])
    else s.log.groups[s.e.group].(payloads := s.log.groups[s.e.group].payloads + [c.payload])
  }

  /** A group closed with the payloads it has. */
  function Closed(g: Group): Group
  {
    g.(size := |g.payloads|)
  }

  /** The book-keeping beside Output. */
  function Logged(s: Outbox, c: Call): Log
    requires EncoderOk(s.e) && (s.e.blocks != [] ==> s.e.group in s.log.groups)
  {
    if c.Expire? then
      if Closes(s.e, c) then s.log.(groups := s.log.groups[s.e.group := Closed(s.log.groups[s.e.group])]) else s.log
    else if c.fecR == 0 then s.log.(plain := s.log.plain + {c.payload})
    else s.log.(groups := s.log.groups[Opened(s.e, c.fecN, c.fecR).group := NextGroup(s, c)])
  }

  ghost function Sends(s: Outbox, c: Call): Outbox
    requires EncoderOk(s.e) && (s.e.blocks != [] ==> s.e.group in s.log.groups) && CallOk(c)
  {
    var out := Stepped(s.e, c);
    Outbox(out.e, s.ws + out.ws, Logged(s, c), s.started + (if Opens(s.e, c) then 1 else 0))
  }

  /** The open group of the encoder is the logged one. */
  predicate Current(e: Encoder, log: Log)
  {
    e.blocks != [] ==>
      && e.group in log.groups
      && var g := log.groups[e.group];
         g.n == e.n == g.size && g.r == e.r && |g.payloads| == |e.blocks| && Framable(g.payloads)
             && e.blocks == Frames(g.payloads)
  }

  /** Groups are numbered 1, 2, ..., 65535, 0. */
  predicate Numbered(e: Encoder, log: Log, started: nat)
  {
    && started <= NUMBERS && e.group == started % NUMBERS
    && forall id :: id in log.groups ==> id <= started && (id == 0 ==> started == NUMBERS)
  }

  ghost predicate AllSentAuthentic(log: Log, ws: seq<Wire>)
    requires LogOk(log)
  {
    forall i :: 0 <= i < |ws| ==> Authentic(log, ws[i])
  }

  ghost predicate OutboxOk(s: Outbox)
  {
    && EncoderOk(s.e) && LogOk(s.log) && Current(s.e, s.log) && Numbered(s.e, s.log, s.started)
    && AllSentAuthentic(s.log, s.ws)
  }

  // ---------------------------------------------------------------- earlier packets stay genuine

  predicate Grows(g: Group, h: Group)
  {
    && g.n == h.n && g.r == h.r && |g.payloads| <= h.size
    && |g.payloads| <= |h.payloads| && h.payloads[..|g.payloads|] == g.payloads
    && (|g.payloads| == g.size ==> h == g)
  }

  predicate Extends(log: Log, log': Log)
  {
    && log.plain <= log'.plain
    && (forall id :: id in log.groups ==> id in log'.groups && Grows(log.groups[id], log'.groups[id]))
  }

  lemma {:induction false} StaysAuthentic(log: Log, log': Log, w: Wire)
    requires LogOk(log) && LogOk(log') && Extends(log, log') && Authentic(log, w)
    ensures Authentic(log', w)
  {
    hide Encoded, Framed, Frames;
    if w.h.r != 0 {
      var g, h := log.groups[w.h.group], log'.groups[w.h.group];
      assert Grows(g, h);
      if w.h.index < g.size {
        assert h.payloads[..|g.payloads|][w.h.index] == h.payloads[w.h.index];
      }
    }
  }

  lemma {:induction false} AllStayAuthentic(log: Log, log': Log, ws: seq<Wire>)
    requires LogOk(log) && LogOk(log') && Extends(log, log') && AllSentAuthentic(log, ws)
    ensures AllSentAuthentic(log', ws)
  {
    forall i | 0 <= i < |ws|
      ensures Authentic(log', ws[i])
    {
      StaysAuthentic(log, log', ws[i]);
    }
  }

  // ---------------------------------------------------------------- one call

  lemma {:induction false} NextGroupOk(s: Outbox, c: Call)
    requires OutboxOk(s) && CallOk(c) && c.Call? && c.fecR != 0
    ensures var g, o := NextGroup(s, c), Opened(s.e, c.fecN, c.fecR);
            && GroupOk(g) && g.n == o.n == g.size && g.r == o.r && |g.payloads| == |o.blocks| + 1
            && g.payloads[|o.blocks|] == c.payload && Frames(g.payloads) == o.blocks + [Framed(c.payload)]
  {
    hide Framed, AllSentAuthentic;
    var g, o := NextGroup(s, c), Opened(s.e, c.fecN, c.fecR);
    if s.e.blocks != [] {
      assert GroupOk(s.log.groups[s.e.group]);
    }
    assert Frames(g.payloads) == o.blocks + [Framed(c.payload)];
  }

  /** The group a protected call uses is the newest one. */
  lemma {:induction false} LoggedNumbered(s: Outbox, c: Call)
    requires OutboxOk(s) && CallOk(c) && Numberable(s, c) && c.Call? && c.fecR != 0
    ensures Numbered(Opened(s.e, c.fecN, c.fecR), Logged(s, c), s.started + (if Opens(s.e, c) then 1 else 0))
  {
    hide Framed, AllSentAuthentic, Frames, NextGroup, GroupOk;
  }

  lemma {:induction false} FreshNumber(s: Outbox, c: Call)
    requires OutboxOk(s) && CallOk(c) && Numberable(s, c) && Opens(s.e, c)
    ensures Opened(s.e, c.fecN, c.fecR).group !in s.log.groups
  {
    hide Framed, AllSentAuthentic, Frames, LogOk, GroupOk;
  }

  lemma {:induction false} LoggedExtends(s: Outbox, c: Call)
    requires OutboxOk(s) && CallOk(c) && Numberable(s, c) && c.Call?
    ensures LogOk(Logged(s, c)) && Extends(s.log, Logged(s, c))
  {
    if c.fecR != 0 {
      NextGroupOk(s, c);
      hide Framed, AllSentAuthentic, Frames, Numbered, Output;
      if s.e.blocks != [] {
        var g := s.log.groups[s.e.group];
        assert (g.payloads + [c.payload])[..|g.payloads|] == g.payloads;
      } else {
        FreshNumber(s, c);
      }
    }
  }

  /** Closing the open group keeps all that was sent genuine. */
  lemma {:induction false} ClosedExtends(s: Outbox, c: Call)
    requires OutboxOk(s) && Closes(s.e, c)
    ensures LogOk(Logged(s, c)) && Extends(s.log, Logged(s, c))
  {
    hide Framed, AllSentAuthentic, Frames, Numbered;
    assert GroupOk(s.log.groups[s.e.group]);
  }

  /** The packets of one protected call are genuine. */
  lemma {:induction false} OutputAuthentic(s: Outbox, c: Call)
    requires OutboxOk(s) && CallOk(c) && Numberable(s, c) && c.Call? && c.fecR != 0
    ensures LogOk(Logged(s, c)) && AllSentAuthentic(Logged(s, c), Output(s.e, c.fecN, c.fecR, c.payload).ws)
  {
    LoggedExtends(s, c);
    NextGroupOk(s, c);
    hide Framed, Encoded, Frames, OutboxOk, Authentic;
    var o, g, log := Opened(s.e, c.fecN, c.fecR), NextGroup(s, c), Logged(s, c);
    var full := o.(blocks := o.blocks + [Framed(c.payload)]);
    var w := Wire(Header(o.group, |o.blocks|, o.n, o.r), c.payload);
    assert log.groups[o.group] == g;
    DataAuthentic(log, w);
    if |full.blocks| >= full.n {
      ParitiesAuthentic(log, full);
    }
  }

  /** So are the parities the timer sends. */
  lemma {:induction false} ExpiredAuthentic(s: Outbox, c: Call)
    requires OutboxOk(s) && Closes(s.e, c)
    ensures LogOk(Logged(s, c)) && AllSentAuthentic(Logged(s, c), Expired(s.e).ws)
  {
    ClosedExtends(s, c);
    hide Framed, Encoded, Frames, Authentic, AllSentAuthentic, Extends;
    ParitiesAuthentic(Logged(s, c), s.e);
  }

  lemma {:induction false} DataAuthentic(log: Log, w: Wire)
    requires LogOk(log) && w.h.r != 0 && w.h.group in log.groups
    requires var g := log.groups[w.h.group];
             w.h.n == g.n && w.h.r == g.r && w.h.index < |g.payloads| && w.body == g.payloads[w.h.index]
    ensures Authentic(log, w)
  {
    hide Encoded;
    assert GroupOk(log.groups[w.h.group]);
  }

  lemma {:induction false} ParitiesAuthentic(log: Log, e: Encoder)
    requires LogOk(log) && e.group in log.groups && 0 < |e.blocks| <= MAX_N && 1 <= e.r <= MAX_R
    requires var g := log.groups[e.group];
             g.size == |e.blocks| == |g.payloads| && g.r == e.r && GroupOk(g) && e.blocks == Frames(g.payloads)
    ensures AllSentAuthentic(log, ParityPackets(e))
  {
    hide Encoded, Frames;
    var g := log.groups[e.group];
    forall i | 0 <= i < e.r
      ensures Authentic(log, ParityPackets(e)[i])
    {
      var body := Encoded(e.blocks, g.size, BLOCK, g.size + i);
      assert ParityPackets(e)[i] == Wire(Header(e.group, g.size + i, g.size, e.r), body);
      assert IsBlock(g, g.size + i, body);
    }
  }

  lemma {:induction false} SendsOk(s: Outbox, c: Call)
    requires OutboxOk(s) && CallOk(c) && Numberable(s, c)
    ensures OutboxOk(Sends(s, c))
  {
    if c.Expire? {
      ExpireOk(s, c);
    } else {
      LoggedExtends(s, c);
      AllStayAuthentic(s.log, Logged(s, c), s.ws);
      if c.fecR == 0 {
        hide Frames;
        assert Authentic(Logged(s, c), Wire(Header(0, 0, 1, 0), c.payload));
      } else {
        OutputAuthentic(s, c);
        NextGroupOk(s, c);
        LoggedNumbered(s, c);
        hide Framed, Encoded, Frames, Authentic, ParityPackets;
        OutputCurrent(s, c);
      }
    }
  }

  lemma {:induction false} ExpireOk(s: Outbox, c: Call)
    requires OutboxOk(s) && c.Expire?
    ensures OutboxOk(Sends(s, c))
  {
    if Closes(s.e, c) {
      ClosedExtends(s, c);
      AllStayAuthentic(s.log, Logged(s, c), s.ws);
      ExpiredAuthentic(s, c);
      hide Framed, Encoded, Frames, Authentic, ParityPackets, LogOk;
    } else {
      assert s.ws + [] == s.ws;
    }
  }

  lemma {:induction false} OutputCurrent(s: Outbox, c: Call)
    requires OutboxOk(s) && CallOk(c) && Numberable(s, c) && c.Call? && c.fecR != 0
    ensures var e := Output(s.e, c.fecN, c.fecR, c.payload).e;
            && Current(e, Logged(s, c)) && e.group == Opened(s.e, c.fecN, c.fecR).group
  {
    NextGroupOk(s, c);
    hide Framed, Encoded, Frames, Authentic, ParityPackets, AllSentAuthentic;
  }

  // ---------------------------------------------------------------- groups closed early

  /** The timer closes an open group only with a sound size. */
  predicate ClosesSoundly(e: Encoder, c: Call)
  {
    Closes(e, c) ==> SoundSize(e.n, |e.blocks|, e.r)
  }

  lemma {:induction false} StaysSound(s: Outbox, c: Call)
    requires OutboxOk(s) && CallOk(c) && LogSound(s.log) && ClosesSoundly(s.e, c)
    ensures LogSound(Sends(s, c).log)
  {
    if c.Call? && c.fecR != 0 {
      NextGroupOk(s, c);
    }
    hide Framed, Encoded, Frames, AllSentAuthentic, Output, Expired;
  }

  // ---------------------------------------------------------------- all runs

  /** The encoder after the calls. */
  ghost function EncoderAfter(calls: seq<Call>): (e: Encoder)
    requires CallsOk(calls)
    ensures EncoderOk(e)
  {
    if calls == [] then Nothing().e
    else
      Stepped(EncoderAfter(calls[..|calls| - 1]), calls[|calls| - 1]).e
  }

  /** How many groups the calls open; unprotected calls open none and a group takes up to 16 payloads. */
  ghost function GroupsOpened(calls: seq<Call>): nat
    requires CallsOk(calls)
  {
    if calls == [] then 0
    else
      var init := calls[..|calls| - 1];
      GroupsOpened(init) + (if Opens(EncoderAfter(init), calls[|calls| - 1]) then 1 else 0)
  }

  /** The packets the calls put on the wire. */
  ghost function Emitted(calls: seq<Call>): seq<Wire>
    requires CallsOk(calls)
  {
    if calls == [] then []
    else
      var init, last := calls[..|calls| - 1], calls[|calls| - 1];
      Emitted(init) + Stepped(EncoderAfter(init), last).ws
  }

  /** Every group the timer closes in these calls has a sound size. */
  ghost predicate Timely(calls: seq<Call>)
    requires CallsOk(calls)
  {
    calls == [] ||
    (Timely(calls[..|calls| - 1]) && ClosesSoundly(EncoderAfter(calls[..|calls| - 1]), calls[|calls| - 1]))
  }

  /** One more call. */
  lemma {:induction false} CallsSnoc(calls: seq<Call>, c: Call)
    requires CallsOk(calls) && CallOk(c)
    ensures CallsOk(calls + [c])
    ensures EncoderAfter(calls + [c]) == Stepped(EncoderAfter(calls), c).e
    ensures Emitted(calls + [c]) == Emitted(calls) + Stepped(EncoderAfter(calls), c).ws
    ensures GroupsOpened(calls + [c]) == GroupsOpened(calls) + (if Opens(EncoderAfter(calls), c) then 1 else 0)
    ensures Timely(calls + [c]) <==> Timely(calls) && ClosesSoundly(EncoderAfter(calls), c)
  {
    assert (calls + [c])[..|calls|] == calls;
    hide Stepped, ClosesSoundly, Opens;
  }

  lemma {:induction false} FewOpened(calls: seq<Call>)
    requires CallsOk(calls) && |calls| <= NUMBERS
    ensures GroupsOpened(calls) <= |calls| && GroupsOpened(calls) <= NUMBERS
    decreases |calls|
  {
    if calls != [] {
      FewOpened(calls[..|calls| - 1]);
      hide Opens;
    }
  }

  /** All that is sent, as long as no group number is used twice. */
  ghost function SendAll(calls: seq<Call>): (s: Outbox)
    requires CallsOk(calls) && GroupsOpened(calls) <= NUMBERS
    ensures OutboxOk(s) && s.e == EncoderAfter(calls) && s.ws == Emitted(calls) && s.started == GroupsOpened(calls)
  {
    if calls == [] then
      Nothing()
    else
      var s := SendAll(calls[..|calls| - 1]);
      SendsOk(s, calls[|calls| - 1]);
      Sends(s, calls[|calls| - 1])
  }

  /** The receiver gets any of the packets sent, any number of times, in any order. */
  predicate Network(ws: seq<Wire>, arrivals: seq<Arrival>)
  {
    forall i :: 0 <= i < |arrivals| ==> arrivals[i].w in ws
  }

  lemma {:induction false} NetworkAuthentic(log: Log, ws: seq<Wire>, arrivals: seq<Arrival>)
    requires LogOk(log) && AllSentAuthentic(log, ws) && Network(ws, arrivals)
    ensures AllAuthentic(log, arrivals) && Sized(arrivals)
  {
    forall i | 0 <= i < |arrivals|
      ensures Authentic(log, arrivals[i].w) && WireOk(arrivals[i].w)
    {
      assert arrivals[i].w in ws;
      var k :| 0 <= k < |ws| && ws[k] == arrivals[i].w;
      assert Authentic(log, ws[k]);
      hide Authentic, WireOk, LogOk;
      AuthenticSized(log, ws[k]);
    }
  }

  predicate Called(calls: seq<Call>, p: Payload)
  {
    exists k :: 0 <= k < |calls| && calls[k].Call? && calls[k].payload == p
  }

  ghost predicate LogFrom(log: Log, calls: seq<Call>)
  {
    && (forall p :: p in log.plain ==> Called(calls, p))
    && (forall id, i :: id in log.groups && 0 <= i < |log.groups[id].payloads| ==>
       Called(calls, log.groups[id].payloads[i]))
  }

  lemma {:induction false} CalledMore(calls: seq<Call>, c: Call, p: Payload)
    requires Called(calls, p) || (c.Call? && c.payload == p)
    ensures Called(calls + [c], p)
  {
    if Called(calls, p) {
      var k :| 0 <= k < |calls| && calls[k].Call? && calls[k].payload == p;
      assert (calls + [c])[k].payload == p;
    } else {
      assert (calls + [c])[|calls|].payload == p;
    }
  }

  lemma {:induction false} LoggedFrom(s: Outbox, c: Call, calls: seq<Call>)
    requires OutboxOk(s) && CallOk(c) && LogFrom(s.log, calls)
    ensures LogFrom(Logged(s, c), calls + [c])
  {
    var log := Logged(s, c);
    hide OutboxOk, Called, Frames, Opened;
    forall p | p in log.plain
      ensures Called(calls + [c], p)
    {
      CalledMore(calls, c, p);
    }
    forall id, i | id in log.groups && 0 <= i < |log.groups[id].payloads|
      ensures Called(calls + [c], log.groups[id].payloads[i])
    {
      CalledMore(calls, c, log.groups[id].payloads[i]);
    }
  }

  lemma {:induction false} LogComesFrom(calls: seq<Call>)
    requires CallsOk(calls) && GroupsOpened(calls) <= NUMBERS
    ensures LogFrom(SendAll(calls).log, calls)
    decreases |calls|
  {
    hide LogFrom, OutboxOk, Sends, CallOk;
    if calls == [] {
      NothingLogged();
    } else {
      var init, last := calls[..|calls| - 1], calls[|calls| - 1];
      LogComesFrom(init);
      LoggedFrom(SendAll(init), last, init);
      assert init + [last] == calls;
      SendsLog(SendAll(init), last);
    }
  }

  lemma {:induction false} SendsLog(s: Outbox, c: Call)
    requires OutboxOk(s) && CallOk(c)
    ensures Sends(s, c).log == Logged(s, c)
  {
  }

  lemma {:induction false} NothingLogged()
    ensures LogFrom(Nothing().log, [])
  {
  }

  lemma {:induction false} SentSoundly(calls: seq<Call>)
    requires CallsOk(calls) && GroupsOpened(calls) <= NUMBERS && Timely(calls)
    ensures LogSound(SendAll(calls).log)
    decreases |calls|
  {
    if calls != [] {
      hide OutboxOk, Sends, CallOk, ClosesSoundly, LogSound;
      SentSoundly(calls[..|calls| - 1]);
      StaysSound(SendAll(calls[..|calls| - 1]), calls[|calls| - 1]);
    }
  }

  /**
   Both ends, any network, no more groups than numbers and none closed at an unsound size: only
   payloads given to the sender are handed up, each at the group and index it was framed for.
   */
  lemma {:induction false} EndToEnd(calls: seq<Call>, arrivals: seq<Arrival>)
    requires CallsOk(calls) && GroupsOpened(calls) <= NUMBERS && Timely(calls)
    requires Network(SendAll(calls).ws, arrivals)
    ensures Sized(arrivals) && AllAuthentic(SendAll(calls).log, arrivals)
    ensures AllTrue(SendAll(calls).log, After(arrivals).ups)
    ensures forall i :: 0 <= i < |After(arrivals).ups| ==> Called(calls, After(arrivals).ups[i].payload)
  {
    var s := SendAll(calls);
    LogComesFrom(calls);
    SentSoundly(calls);
    hide SendAll, Authentic, Called;
    NetworkAuthentic(s.log, s.ws, arrivals);
    EveryUpGenuine(s.log, arrivals);
    hide After;
    var ups := After(arrivals).ups;
    forall i | 0 <= i < |ups|
      ensures Called(calls, ups[i].payload)
    {
      assert UpTrue(s.log, ups[i]);
    }
  }
}
