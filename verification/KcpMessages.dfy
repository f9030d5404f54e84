/** Messages, the fragments they are cut into, and the stream of fragments a run sends. */
module KcpMessages {
  import opened Bytes
  import opened KcpSpec

  type Msg = seq<byte>

  /** What of a segment belongs to the message rather than to the protocol. */
  datatype Frag = Frag(frg: nat, data: seq<byte>)

  function FragOf(s: Segment): Frag
  {
    Frag(s.frg, s.data)
  }

  function FragsOf(segs: seq<Segment>): (fs: seq<Frag>)
    ensures |fs| == |segs|
  {
    seq(|segs|, i requires 0 <= i < |segs| => FragOf(segs[i]))
  }

  lemma {:induction false} FragsOfAppend(a: seq<Segment>, b: seq<Segment>)
    ensures FragsOf(a + b) == FragsOf(a) + FragsOf(b)
  {
  }

  /** A message ikcp_send accepts in message mode: fewer than 128 fragments. */
  predicate Sendable(msg: Msg, mss: nat)
    requires mss > 0
  {
    FragmentCount(|msg|, mss) < WND_RCV
  }

  function Cut(msg: Msg, mss: nat): (fs: seq<Frag>)
    requires mss > 0
    ensures |fs| == FragmentCount(|msg|, mss)
  {
    FragsOf(Fragments(msg, mss, FragmentCount(|msg|, mss), false))
  }

  function JoinFrags(fs: seq<Frag>): seq<byte>
  {
    if fs == [] then [] else JoinFrags(fs[..|fs| - 1]) + fs[|fs| - 1].data
  }

  lemma {:induction false} JoinIsJoinFrags(segs: seq<Segment>)
    ensures Join(segs) == JoinFrags(FragsOf(segs))
  {
    if segs != [] {
      JoinIsJoinFrags(segs[..|segs| - 1]);
      assert FragsOf(segs)[..|segs| - 1] == FragsOf(segs[..|segs| - 1]);
    }
  }

  lemma {:induction false} JoinFragsCons(f: Frag, fs: seq<Frag>)
    ensures JoinFrags([f] + fs) == f.data + JoinFrags(fs)
    decreases |fs|
  {
    var all := [f] + fs;
    if fs == [] {
      assert all[..0] == [];
      assert f.data + [] == f.data;
    } else {
      var init, last := fs[..|fs| - 1], fs[|fs| - 1];
      assert all[..|all| - 1] == [f] + init;
      JoinFragsCons(f, init);
      assert (f.data + JoinFrags(init)) + last.data == f.data + (JoinFrags(init) + last.data);
    }
  }

  lemma {:induction false} AtLeastOne(a: nat, b: nat)
    requires a >= b > 0
    ensures a / b >= 1
  {
  }

  /** Enough segments of mss octets cover the message. */
  lemma {:induction false} FragmentsCover(len: nat, mss: nat)
    requires mss > 0
    ensures 1 <= FragmentCount(len, mss)
    ensures len <= FragmentCount(len, mss) * mss
    ensures len > 0 ==> (FragmentCount(len, mss) - 1) * mss < len
  {
    var count := FragmentCount(len, mss);
    if len > mss {
      var q := (len + mss - 1) / mss;
      var r := (len + mss - 1) % mss;
      assert q * mss + r == len + mss - 1;
      assert (q - 1) * mss == q * mss - mss;
      AtLeastOne(len + mss - 1, mss);
    }
  }

  lemma {:induction false} RestFits(len: nat, mss: nat, count: nat)
    requires mss > 0 && count > 0 && len <= count * mss
    ensures len - Min(len, mss) <= (count - 1) * mss
  {
    assert (count - 1) * mss == count * mss - mss;
    assert 0 <= (count - 1) * mss;
  }

  lemma {:induction false} FragmentsStep(msg: Msg, mss: nat, count: nat)
    requires mss > 0 && count > 0
    ensures FragsOf(Fragments(msg, mss, count, false))
         == [Frag(count - 1, msg[..Min(|msg|, mss)])]
            + FragsOf(Fragments(msg[Min(|msg|, mss)..], mss, count - 1, false))
  {
  }

  /** Pieces count down to 0 and hold at most mss octets each. */
  lemma {:induction false} FragmentsShape(msg: Msg, mss: nat, count: nat)
    requires mss > 0
    ensures var fs := FragsOf(Fragments(msg, mss, count, false));
            forall i :: 0 <= i < count ==> fs[i].frg == count - 1 - i && |fs[i].data| <= mss
    decreases count
  {
    if count > 0 {
      FragmentsShape(msg[Min(|msg|, mss)..], mss, count - 1);
      FragmentsStep(msg, mss, count);
      hide Fragments, FragsOf;
    }
  }

  /** The pieces join to the message. */
  lemma {:induction false} FragmentsJoin(msg: Msg, mss: nat, count: nat)
    requires mss > 0 && |msg| <= count * mss
    ensures JoinFrags(FragsOf(Fragments(msg, mss, count, false))) == msg
    decreases count
  {
    if count == 0 {
      assert msg == [];
    } else {
      var size := Min(|msg|, mss);
      RestFits(|msg|, mss, count);
      FragmentsJoin(msg[size..], mss, count - 1);
      FragmentsStep(msg, mss, count);
      hide Fragments, JoinFrags, FragsOf;
      JoinFragsCons(Frag(count - 1, msg[..size]), FragsOf(Fragments(msg[size..], mss, count - 1, false)));
      assert msg[..size] + msg[size..] == msg;
    }
  }

  /** Cutting a message and merging the pieces gives it back. */
  lemma {:induction false} CutSpec(msg: Msg, mss: nat)
    requires mss > 0
    ensures var fs := Cut(msg, mss);
            && |fs| >= 1
            && (forall i :: 0 <= i < |fs| ==> fs[i].frg == |fs| - 1 - i && |fs[i].data| <= mss)
            && JoinFrags(fs) == msg
  {
    FragmentsCover(|msg|, mss);
    FragmentsShape(msg, mss, FragmentCount(|msg|, mss));
    FragmentsJoin(msg, mss, FragmentCount(|msg|, mss));
  }

  // ---------------------------------------------------------------- the stream

  /** All fragments of the messages, in sending order; position is sequence number. */
  function Stream(msgs: seq<Msg>, mss: nat): seq<Frag>
    requires mss > 0
  {
    if msgs == [] then [] else Stream(msgs[..|msgs| - 1], mss) + Cut(msgs[|msgs| - 1], mss)
  }

  lemma {:induction false} StreamSnoc(msgs: seq<Msg>, msg: Msg, mss: nat)
    requires mss > 0
    ensures Stream(msgs + [msg], mss) == Stream(msgs, mss) + Cut(msg, mss)
  {
    assert (msgs + [msg])[..|msgs|] == msgs;
  }

  lemma {:induction false} StreamPrefix(msgs: seq<Msg>, n: nat, mss: nat)
    requires mss > 0 && n <= |msgs|
    ensures |Stream(msgs[..n], mss)| <= |Stream(msgs, mss)|
    ensures Stream(msgs[..n], mss) == Stream(msgs, mss)[..|Stream(msgs[..n], mss)|]
    decreases |msgs|
  {
    if n == |msgs| {
      assert msgs[..n] == msgs;
    } else {
      var init := msgs[..|msgs| - 1];
      StreamPrefix(init, n, mss);
      assert init[..n] == msgs[..n];
      hide Cut;
    }
  }

  predicate AllSendable(msgs: seq<Msg>, mss: nat)
    requires mss > 0
  {
    forall i :: 0 <= i < |msgs| ==> Sendable(msgs[i], mss)
  }

  /** Fragment numbers fit the window and the wire, and payloads fit a segment. */
  lemma {:induction false} StreamFits(msgs: seq<Msg>, mss: nat)
    requires mss > 0 && AllSendable(msgs, mss)
    ensures forall i :: 0 <= i < |Stream(msgs, mss)| ==>
              Stream(msgs, mss)[i].frg < WND_RCV - 1 && |Stream(msgs, mss)[i].data| <= mss
    decreases |msgs|
  {
    if msgs != [] {
      var init, last := msgs[..|msgs| - 1], msgs[|msgs| - 1];
      StreamFits(init, mss);
      CutSpec(last, mss);
      hide Cut;
    }
  }

  /** After the first n messages the stream continues with the next one. */
  lemma {:induction false} StreamAt(msgs: seq<Msg>, n: nat, mss: nat)
    requires mss > 0 && n < |msgs|
    ensures var k := |Stream(msgs[..n], mss)|;
            var c := Cut(msgs[n], mss);
            k + |c| == |Stream(msgs[..n + 1], mss)| <= |Stream(msgs, mss)| && Stream(msgs, mss)[k..k + |c|] == c
  {
    hide Cut;
    StreamPrefix(msgs, n + 1, mss);
    StreamPrefix(msgs, n, mss);
    assert msgs[..n + 1] == msgs[..n] + [msgs[n]];
    StreamSnoc(msgs[..n], msgs[n], mss);
    var k, c := |Stream(msgs[..n], mss)|, Cut(msgs[n], mss);
    assert Stream(msgs, mss)[..k + |c|] == Stream(msgs[..n], mss) + c;
    assert Stream(msgs, mss)[k..k + |c|] == Stream(msgs, mss)[..k + |c|][k..];
  }
}
