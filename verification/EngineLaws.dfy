/** What a complete APDU makes the engine do and what comes back, without the functions that
    compute it. */
module EngineLaws {
  import opened Bytes
  import opened Limits
  import opened Engine

  /** Appends go in from first to last; one that does not fit is dropped whole. */
  lemma {:induction false} LastAppend(p: nat, body: seq<byte>, appends: seq<seq<byte>>, last: seq<byte>)
    ensures var before := AppendedAll(p, body, appends);
            AppendedAll(p, body, appends + [last])
            == if p + |before| + |last| <= BYTEBUF_MAX then before + last else before
    decreases |appends|
  {
    if appends == [] {
      assert [] + [last] == [last] && [last][1..] == [];
    } else {
      assert (appends + [last])[0] == appends[0] && (appends + [last])[1..] == appends[1..] + [last];
      LastAppend(p, Appended(p, body, appends[0]), appends[1..], last);
    }
  }

  lemma Written(p: nat, appends: seq<seq<byte>>)
    ensures p + |Concat(appends)| <= BYTEBUF_MAX ==> AppendedAll(p, [], appends) == Concat(appends)
  {
    AllFitWhole(p, [], appends);
    assert [] + Concat(appends) == Concat(appends);
  }

  /** Too long for the command store: refused without a call. */
  lemma OverlongApdu<E>(g: Engine<E>, p: nat, e: E, apdu: seq<byte>)
    requires p <= 2 && |apdu| > WORKER_MAX
    ensures Dispatch(g, p, e, apdu) == Reply(e, [0x91, 0x7E], [])
  {
  }

  /** A native command reaches the engine as it is, and its answer goes back as it is. */
  lemma NativeApdu<E>(g: Engine<E>, p: nat, e: E, apdu: seq<byte>)
    requires |apdu| <= WORKER_MAX && !(|apdu| >= 4 && apdu[0] == 0x00) && !(|apdu| >= 5 && apdu[0] == 0x90)
    ensures var r, c := Dispatch(g, p, e, apdu), g.command(e, apdu);
            && r.calls == [NativeCall(apdu)] && r.state == c.state
            && r.body == AppendedAll(p, [], c.appends)
            && (p + |Concat(c.appends)| <= BYTEBUF_MAX ==> r.body == Concat(c.appends))
  {
    Written(p, g.command(e, apdu).appends);
  }

  /** A standard APDU is first offered as a SELECT. If that handles it nothing else happens;
      otherwise it is run as a native command, and what both wrote is the answer. */
  lemma StandardApdu<E>(g: Engine<E>, p: nat, e: E, apdu: seq<byte>)
    requires 4 <= |apdu| <= WORKER_MAX && apdu[0] == 0x00
    ensures var r, s := Dispatch(g, p, e, apdu), g.select(e, apdu);
            var c := g.command(s.state, apdu);
            var written := if s.handled then s.appends else s.appends + c.appends;
            && r.calls == [SelectCall(apdu)] + (if s.handled then [] else [NativeCall(apdu)])
            && r.state == (if s.handled then s.state else c.state)
            && r.body == AppendedAll(p, [], written)
            && (p + |Concat(written)| <= BYTEBUF_MAX ==> r.body == Concat(written))
  {
    var s := g.select(e, apdu);
    var c := g.command(s.state, apdu);
    Written(p, s.appends);
    Written(p, s.appends + c.appends);
    TwoWriters(p, [], s.appends, c.appends);
  }

  lemma {:induction false} TwoWriters(p: nat, body: seq<byte>, xs: seq<seq<byte>>, ys: seq<seq<byte>>)
    ensures AppendedAll(p, AppendedAll(p, body, xs), ys) == AppendedAll(p, body, xs + ys)
    decreases |xs|
  {
    if xs == [] {
      assert [] + ys == ys;
    } else {
      assert (xs + ys)[1..] == xs[1..] + ys;
      TwoWriters(p, Appended(p, body, xs[0]), xs[1..], ys);
    }
  }

  /** A wrapped APDU whose length octet is right, whatever follows the data: the engine gets
      instruction and data, and a nonempty answer goes back in its wrapped form, if it has one
      that fits the scratch buffer behind the prologue. */
  lemma WrappedAnswer<E>(g: Engine<E>, p: nat, e: E, ins: byte, p1: byte, p2: byte, lc: byte, data: seq<byte>, rest: seq<byte>)
    requires lc as nat == |data| < WORKER_MAX && 5 + |data| + |rest| <= WORKER_MAX
    ensures var r := Dispatch(g, p, e, [0x90, ins, p1, p2, lc] + data + rest);
            var c := g.command(e, [ins] + data);
            var native := AppendedAll(p, [], c.appends);
            && r.calls == [NativeCall([ins] + data)] && r.state == c.state
            && (p + |Concat(c.appends)| <= BYTEBUF_MAX ==> native == Concat(c.appends))
            && r.body == if native != [] && g.wrap(native).Some? && p + |g.wrap(native).value| <= WORKER_MAX
                         then g.wrap(native).value else native
  {
    var apdu := [0x90, ins, p1, p2, lc] + data + rest;
    assert apdu[0] == 0x90 && apdu[1] == ins && apdu[4] == lc && apdu[5..5 + |data|] == data;
    Written(p, g.command(e, [ins] + data).appends);
  }
}
