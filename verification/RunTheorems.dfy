/** Properties of every run: repeated blocks, the bound CID, and response chaining. */
module RunTheorems {
  import opened Bytes
  import opened Limits
  import opened Engine
  import opened IsoDep
  import opened IsoDepLemmas
  import opened Runs
  import opened Session
  import opened SessionProof

  // ----- Repetition -----

  /** The blocks a reader repeats when it missed the last frame. */
  datatype Repeat = AckAgain | NakAgain | BlockAgain(more: bool, inf: seq<byte>)

  function RepeatBlock<E>(s: State<E>, r: Repeat): seq<byte> {
    match r
    case AckAgain => RAck(BoundLink(s), s.picc)
    case NakAgain => RNak(BoundLink(s), s.picc)
    case BlockAgain(more, inf) => IBlock(BoundLink(s), Flip(s.expected), more, inf)
  }

  lemma RepeatStep<E>(g: Engine<E>, s: State<E>, r: Repeat)
    requires Inv(s) && s.valid && s.command == []
    ensures OnBlock(g, s, RepeatBlock(s, r)) == Answer(s, s.lastFrame)
  {
    var l := BoundLink(s);
    RPcbBits(l, s.picc);
    match r
    case AckAgain => assert LinkOf(RAck(l, s.picc)) == l;
    case NakAgain => assert LinkOf(RNak(l, s.picc)) == l;
    case BlockAgain(more, inf) =>
      var pro, rx := Prologue(l, IPcb(Flip(s.expected), more)), RepeatBlock(s, r);
      IPcbBits(l, Flip(s.expected), more);
      IBlockParts(l, Flip(s.expected), more, inf);
      assert rx[..|pro|] == pro;
  }

  function RepeatEvents<E>(s: State<E>, rs: seq<Repeat>): (evs: seq<Event>)
    ensures |evs| == |rs|
  {
    seq(|rs|, i requires 0 <= i < |rs| => Received(RepeatBlock(s, rs[i])))
  }

  function SameFrame<E>(s: State<E>, n: nat): (seen: seq<Seen>)
    ensures |seen| == n
  {
    seq(n, i => Seen([s.lastFrame], [], []))
  }

  lemma {:induction false} RepeatRun<E>(g: Engine<E>, s: State<E>, rs: seq<Repeat>)
    requires Inv(s) && s.valid && s.command == []
    ensures Run(g, s, RepeatEvents(s, rs)) == Trace(s, SameFrame(s, |rs|))
  {
    if rs != [] {
      RepeatStep(g, s, rs[0]);
      assert RepeatEvents(s, rs)[1..] == RepeatEvents(s, rs[1..]);
      RepeatRun(g, s, rs[1..]);
      assert SameFrame(s, |rs|) == [Seen([s.lastFrame], [], [])] + SameFrame(s, |rs[1..]|);
    }
  }

  /** Repeated blocks, inserted anywhere in a run where a response has been sent and no
      command is pending, are each answered with the same frame and change nothing else. */
  lemma StutterInsensitive<E>(g: Engine<E>, s: State<E>, before: seq<Event>, rs: seq<Repeat>, after: seq<Event>)
    requires Inv(s)
    requires var m := Run(g, s, before).state; m.valid && m.command == []
    ensures var m := Run(g, s, before).state;
            var plain := Run(g, s, before + after);
            var t := Run(g, s, before + RepeatEvents(m, rs) + after);
            && t.state == plain.state
            && t.seen == plain.seen[..|before|] + SameFrame(m, |rs|) + plain.seen[|before|..]
  {
    var m := Run(g, s, before).state;
    RunAppend(g, s, before, after);
    RunAppend(g, s, before, RepeatEvents(m, rs));
    RunAppend(g, s, before + RepeatEvents(m, rs), after);
    RepeatRun(g, m, rs);
  }

  // ----- The bound CID -----

  /** A response was sent or a command is pending, so the CID is fixed. */
  ghost predicate Bound<E>(s: State<E>) {
    s.valid || s.command != []
  }

  /** The block carries exactly this card identifier. */
  predicate Carries(f: seq<byte>, l: Link) {
    Decodable(f) && LinkOf(f) == l
  }

  predicate IsPps(f: seq<byte>) {
    f != [] && f[0] & 0xF0 == 0xD0
  }

  /** While the CID is fixed, a block with another one changes nothing and gets no answer. */
  lemma ForeignCid<E>(g: Engine<E>, s: State<E>, rx: seq<byte>)
    requires Inv(s) && Bound(s) && Decodable(rx) && !IsPps(rx) && LinkOf(rx) != BoundLink(s)
    ensures OnBlock(g, s, rx) == Silent(s)
  {
  }

  lemma PrologueCarries(l: Link, n: Bit, more: bool, f: seq<byte>)
    ensures StartsWith(f, l, IPcb(n, more)) ==> Carries(f, l)
    ensures Carries(RAck(l, n), l) && Carries(RNak(l, n), l)
  {
    if StartsWith(f, l, IPcb(n, more)) {
      IPcbBits(l, n, more);
      assert f[0] == f[..l.Size()][0];
      if l.Cid? { assert f[1] == f[..l.Size()][1]; }
    }
    RPcbBits(l, n);
  }

  lemma SegmentCarries(l: Link, n: Bit, rest: seq<byte>)
    ensures Carries(Segment(l, n, rest), l)
  {
    SegmentStarts(l, n, rest);
    PrologueCarries(l, n, ChunkLen(l, |rest|) < |rest|, Segment(l, n, rest));
  }

  ghost predicate AllCarry(frames: seq<Frame>, l: Link) {
    forall f | f in frames :: IsPps(f) || Carries(f, l)
  }

  lemma BoundTake<E>(g: Engine<E>, s: State<E>, n: Bit, more: bool, inf: seq<byte>)
    requires Inv(s) && Bound(s)
    requires var l := BoundLink(s); |Prologue(l, IPcb(n, more))| == PrefixLen(Prologue(l, IPcb(n, more))[0])
    ensures var l := BoundLink(s);
            var o := TakeIBlock(g, s, l, Prologue(l, IPcb(n, more)), inf);
            && BoundLink(o.state) == l && AllCarry(o.frames, l) && (s.valid ==> o.state.valid)
            && (Bound(o.state) <==> s.valid || IMeaning(s, l, n, more, inf) != Overflow)
  {
    hide Execute, Dispatch, Segment;
    var l := BoundLink(s);
    IPcbBits(l, n, more);
    PrologueCarries(l, n, more, s.lastFrame);
    PrologueCarries(l, s.picc, s.offset != 0, s.lastFrame);
    PrologueCarries(l, s.expected, more, s.lastFrame);
    if !more {
      var apdu := s.command + inf;
      ExecuteIsFirstSegment(g, s.(command := []), l, n, apdu);
      SegmentCarries(l, s.expected, Dispatch(g, l.Size(), s.engine, apdu).body);
    }
  }

  lemma BoundR<E>(g: Engine<E>, s: State<E>, rx: seq<byte>)
    requires Inv(s) && Bound(s) && Decodable(rx) && LinkOf(rx) == BoundLink(s)
    ensures var o := OnRBlock(s, rx[0], BoundLink(s), |rx| == PrefixLen(rx[0]));
            && BoundLink(o.state) == BoundLink(s) && AllCarry(o.frames, BoundLink(s))
            && (s.valid ==> o.state.valid) && Bound(o.state)
  {
    var l := BoundLink(s);
    PrologueCarries(l, s.picc, s.offset != 0, s.lastFrame);
    if s.offset != 0 {
      ContinuedIsNextSegment(s);
      SegmentCarries(l, Flip(s.picc), s.tx[s.offset..]);
    }
  }

  /** While the CID is fixed and no reset arrives, it does not change and every frame but an
      echoed PPS carries it. It stays fixed, unless an overflow discards the pending command
      before any response was sent. */
  lemma BoundStep<E>(g: Engine<E>, s: State<E>, ev: Event)
    requires Inv(s) && Bound(s) && MeaningOf(s, ev) != Ended
    ensures var o := Step(g, s, ev);
            && BoundLink(o.state) == BoundLink(s) && AllCarry(o.frames, BoundLink(s))
            && (s.valid ==> o.state.valid)
            && (Bound(o.state) <==> s.valid || MeaningOf(s, ev) != Overflow)
  {
    hide OnIBlock, OnRBlock;
    if Decodable(ev.block) && !IsPps(ev.block) {
      var rx, l := ev.block, LinkOf(ev.block);
      StepFollows(g, s, ev);
      if l != BoundLink(s) {
        ForeignCid(g, s, rx);
        ForeignMeaning(s, rx);
      } else if rx[0] & 0xC0 == 0x80 {
        NotIBlock(s, rx);
        BoundR(g, s, rx);
      } else if rx[0] & 0xC0 == 0xC0 {
        NotIBlock(s, rx);
        DeselectForm(rx);
      } else {
        BoundI(g, s, rx);
      }
    } else if Decodable(ev.block) {
      PpsMeaning(s, ev.block);
    }
  }

  lemma ForeignMeaning<E>(s: State<E>, rx: seq<byte>)
    requires Bound(s) && Decodable(rx) && LinkOf(rx) != BoundLink(s)
    ensures BlockMeaning(s, rx) == Ignored
  {
  }

  lemma PpsMeaning<E>(s: State<E>, rx: seq<byte>)
    requires Decodable(rx) && IsPps(rx)
    ensures BlockMeaning(s, rx) == Ignored
  {
    NotIBlock(s, rx);
    RPcbBits(LinkOf(rx), Flip(s.picc));
    DeselectForm(rx);
  }

  lemma BoundI<E>(g: Engine<E>, s: State<E>, rx: seq<byte>)
    requires Inv(s) && Bound(s) && Decodable(rx) && LinkOf(rx) == BoundLink(s)
    requires rx[0] & 0xC0 != 0x80 && rx[0] & 0xC0 != 0xC0
    ensures var p := PrefixLen(rx[0]);
            var o := OnIBlock(g, s, BoundLink(s), rx[..p], rx[p..]);
            && BoundLink(o.state) == BoundLink(s) && AllCarry(o.frames, BoundLink(s)) && (s.valid ==> o.state.valid)
            && (Bound(o.state) <==> s.valid || BlockMeaning(s, rx) != Overflow)
  {
    hide TakeIBlock;
    var pcb, l := rx[0], BoundLink(s);
    OnIBlockFollows(g, s, rx);
    if pcb & 0xE2 == 0x02 && pcb & NAD_MASK == 0 {
      IPcbForm(rx);
      assert rx == IBlock(l, pcb & 1, pcb & CHAINING != 0, Inf(rx));
      IBlockMeans(s, l, pcb & 1, pcb & CHAINING != 0, Inf(rx));
      BoundTake(g, s, pcb & 1, pcb & CHAINING != 0, Inf(rx));
    }
  }

  /** Over every run without a reset the CID is stable, from the first response on, and from
      the first stored block on as long as no overflow discards it. */
  lemma {:induction false} CidStable<E>(g: Engine<E>, s: State<E>, evs: seq<Event>)
    requires Inv(s) && Bound(s) && Ended !in History(g, s, evs)
    requires s.valid || Overflow !in History(g, s, evs)
    ensures var t := Run(g, s, evs);
            && Bound(t.state) && BoundLink(t.state) == BoundLink(s)
            && forall i | 0 <= i < |evs| :: AllCarry(t.seen[i].frames, BoundLink(s))
    decreases |evs|
  {
    hide Step, MeaningOf;
    if evs != [] {
      StepInv(g, s, evs[0]);
      BoundStep(g, s, evs[0]);
      CidStable(g, Step(g, s, evs[0]).state, evs[1..]);
    }
  }

  /** The exception is real: a first command that overflows the store frees the CID, and the
      next block may bind another one. */
  lemma OverflowFreesCid<E>(g: Engine<E>, e: E, l1: Link, l2: Link, x: seq<byte>, y: seq<byte>)
    requires x != [] && |x| <= WORKER_MAX < |x| + |y|
    ensures var s1 := Run(g, Fresh(e), [Received(IBlock(l1, 0, true, x))]).state;
            var s2 := Run(g, s1, [Received(IBlock(l1, 1, true, y))]).state;
            var s3 := Run(g, s2, [Received(IBlock(l2, 1, true, x))]).state;
            && Bound(s1) && BoundLink(s1) == l1 && !Bound(s2) && Bound(s3) && BoundLink(s3) == l2
  {
    var s := Fresh(e);
    var b1 := Received(IBlock(l1, 0, true, x));
    StoreBlock(g, s, l1, 0, x);
    RunOne(g, s, b1);
    var s1 := Step(g, s, b1).state;
    assert [] + x == x;
    var b2 := Received(IBlock(l1, 1, true, y));
    IBlockMeans(s1, l1, 1, true, y);
    BoundStep(g, s1, b2);
    StepFollows(g, s1, b2);
    RunOne(g, s1, b2);
    var s2 := Step(g, s1, b2).state;
    StepInv(g, s1, b2);
    StoreBlock(g, s2, l2, 1, x);
    RunOne(g, s2, Received(IBlock(l2, 1, true, x)));
  }

  lemma RunOne<E>(g: Engine<E>, s: State<E>, ev: Event)
    requires Inv(s)
    ensures Inv(Step(g, s, ev).state) && Run(g, s, [ev]).state == Step(g, s, ev).state
  {
    RunSnoc(g, s, [], ev);
    StepInv(g, s, ev);
    assert [] + [ev] == [ev];
  }

  lemma StoreBlock<E>(g: Engine<E>, s: State<E>, l: Link, n: Bit, inf: seq<byte>)
    requires Inv(s) && !Bound(s) && s.expected == n && s.offset == 0 && inf != [] && |inf| <= WORKER_MAX
    ensures var s1 := Step(g, s, Received(IBlock(l, n, true, inf))).state;
            s1.command == s.command + inf && s1.expected == Flip(n) && BoundLink(s1) == l && !s1.valid && Inv(s1)
            && s1.offset == 0
  {
    var pro, rx := Prologue(l, IPcb(n, true)), IBlock(l, n, true, inf);
    IPcbBits(l, n, true);
    IBlockParts(l, n, true, inf);
    assert rx[..|pro|] == pro;
    StepInv(g, s, Received(rx));
  }

  // ----- Response chaining -----

  /** The frames that carry a response, from block number n on. */
  function Segments(l: Link, n: Bit, rest: seq<byte>): (fs: seq<Frame>)
    ensures fs != []
    decreases |rest|
  {
    var k := ChunkLen(l, |rest|);
    [Segment(l, n, rest)] + if k < |rest| then Segments(l, Flip(n), rest[k..]) else []
  }

  function NumberAt(n: Bit, i: nat): Bit {
    if i % 2 == 0 then n else Flip(n)
  }

  /** What is left of a frame without its prologue. */
  function Payload(l: Link, f: seq<byte>): seq<byte> {
    if l.Size() <= |f| then f[l.Size()..] else []
  }

  function Payloads(l: Link, fs: seq<Frame>): seq<byte> {
    if fs == [] then [] else Payload(l, fs[0]) + Payloads(l, fs[1..])
  }

  /** The frames of a response put together are the response. */
  lemma {:induction false} SegmentsCarryAll(l: Link, n: Bit, rest: seq<byte>)
    ensures Payloads(l, Segments(l, n, rest)) == rest
    decreases |rest|
  {
    var k := ChunkLen(l, |rest|);
    var fs := Segments(l, n, rest);
    assert Payload(l, fs[0]) == rest[..k];
    if k < |rest| {
      SegmentsCarryAll(l, Flip(n), rest[k..]);
      assert fs[1..] == Segments(l, Flip(n), rest[k..]);
      assert rest[..k] + rest[k..] == rest;
    } else {
      assert fs[1..] == [] && rest[..k] + [] == rest;
    }
  }

  /** There are as few frames as their size allows: one, or the length over the room of a
      frame, rounded up. */
  lemma {:induction false} SegmentsCount(l: Link, n: Bit, rest: seq<byte>)
    ensures |Segments(l, n, rest)| == if rest == [] then 1 else (|rest| + FRAME_MAX - l.Size() - 1) / (FRAME_MAX - l.Size())
    decreases |rest|
  {
    var k := ChunkLen(l, |rest|);
    if k < |rest| {
      SegmentsCount(l, Flip(n), rest[k..]);
      if l.Cid? {
        assert (|rest| + 59) / 60 == 1 + (|rest| - 60 + 59) / 60;
      } else {
        assert (|rest| + 60) / 61 == 1 + (|rest| - 61 + 60) / 61;
      }
    } else if rest != [] {
      if l.Cid? { assert (|rest| + 59) / 60 == 1; } else { assert (|rest| + 60) / 61 == 1; }
    }
  }

  /** Every frame but the last is full and says that more follows; numbers alternate. */
  lemma {:induction false} SegmentsForm(l: Link, n: Bit, rest: seq<byte>, i: nat)
    requires i < |Segments(l, n, rest)|
    ensures var fs := Segments(l, n, rest);
            var last := i == |fs| - 1;
            && StartsWith(fs[i], l, IPcb(NumberAt(n, i), !last))
            && (!last ==> |fs[i]| == FRAME_MAX)
    decreases |rest|
  {
    hide Segment, Prologue, IPcb, NumberAt, StartsWith;
    var k := ChunkLen(l, |rest|);
    SegmentStarts(l, n, rest);
    NextNumberAt(n, i);
    if i > 0 {
      SegmentsForm(l, Flip(n), rest[k..], i - 1);
      assert Segments(l, n, rest)[i] == Segments(l, Flip(n), rest[k..])[i - 1];
    }
  }

  lemma NextNumberAt(n: Bit, i: nat)
    ensures NumberAt(n, i) == if i == 0 then n else NumberAt(Flip(n), i - 1)
  {
  }

  /** The acknowledgements that ask for count more frames, the first one numbered n. */
  function Acks(l: Link, n: Bit, count: nat): seq<Event>
    decreases count
  {
    if count == 0 then [] else [Received(RAck(l, n))] + Acks(l, Flip(n), count - 1)
  }

  function FrameEach(fs: seq<Frame>): seq<Seen> {
    if fs == [] then [] else [Seen([fs[0]], [], [])] + FrameEach(fs[1..])
  }

  lemma AckStep<E>(g: Engine<E>, s: State<E>, l: Link, n: Bit)
    requires Inv(s) && s.offset != 0 && l == BoundLink(s) && n == Flip(s.picc)
    ensures var rest, o := s.tx[s.offset..], Step(g, s, Received(RAck(l, n)));
            var k := ChunkLen(l, |rest|);
            && Inv(o.state) && Observe(o) == Seen([Segment(l, n, rest)], [], [])
            && o.state.engine == s.engine && o.state.picc == n && BoundLink(o.state) == l
            && (if k < |rest| then o.state.offset == s.offset + k && o.state.tx[o.state.offset..] == rest[k..]
                else o.state.offset == 0)
  {
    hide OnBlock, Segment, IPcb, RAck;
    AckContinues(g, s, l, n);
    StepInv(g, s, Received(RAck(l, n)));
  }

  /** While a response is being sent, one acknowledgement per frame fetches the rest of it. */
  lemma {:induction false} AcksFetch<E>(g: Engine<E>, s: State<E>)
    requires Inv(s) && s.offset != 0
    ensures var l, rest := BoundLink(s), s.tx[s.offset..];
            var fs := Segments(l, Flip(s.picc), rest);
            var t := Run(g, s, Acks(l, Flip(s.picc), |fs|));
            t.seen == FrameEach(fs) && t.state.offset == 0 && t.state.engine == s.engine
    decreases |s.tx| - s.offset
  {
    hide OnBlock, Segment, Step, BoundLink, RAck;
    var l, n, rest := BoundLink(s), Flip(s.picc), s.tx[s.offset..];
    var fs := Segments(l, n, rest);
    var acks := Acks(l, Flip(n), |fs| - 1);
    AckStep(g, s, l, n);
    RunCons(g, s, Received(RAck(l, n)), acks);
    var k := ChunkLen(l, |rest|);
    if k < |rest| {
      AcksFetch(g, Step(g, s, Received(RAck(l, n))).state);
      assert fs[1..] == Segments(l, Flip(n), rest[k..]);
    } else {
      assert fs[1..] == [] && acks == [];
    }
  }

  lemma CompletingBlock<E>(g: Engine<E>, s: State<E>, l: Link, n: Bit, inf: seq<byte>)
    requires Inv(s) && Linked(l, s) && s.expected == n && s.offset == 0 && inf != []
    requires s.command == [] || |s.command + inf| <= WORKER_MAX
    ensures var d := Dispatch(g, l.Size(), s.engine, s.command + inf);
            var k := ChunkLen(l, |d.body|);
            var o := Step(g, s, Received(IBlock(l, n, false, inf)));
            && Observe(o) == Seen([Segment(l, n, d.body)], [s.command + inf], d.calls)
            && Inv(o.state) && BoundLink(o.state) == l && o.state.picc == n && o.state.engine == d.state
            && (k < |d.body| ==> o.state.offset == l.Size() + k && o.state.tx[o.state.offset..] == d.body[k..])
            && (k == |d.body| ==> o.state.offset == 0)
  {
    var d := Dispatch(g, l.Size(), s.engine, s.command + inf);
    TakeExecutes(g, s, l, n, inf);
    StepInv(g, s, Received(IBlock(l, n, false, inf)));
    assert (Prologue(l, IPcb(n, false)) + d.body)[l.Size()..] == d.body;
  }

  /** The block that completes a command, then one acknowledgement per further frame: the
      frames sent are exactly the segments of the engine's response. */
  lemma ResponseRun<E>(g: Engine<E>, s: State<E>, l: Link, n: Bit, inf: seq<byte>)
    requires Inv(s) && Linked(l, s) && s.expected == n && s.offset == 0 && inf != []
    requires s.command == [] || |s.command + inf| <= WORKER_MAX
    ensures var d := Dispatch(g, l.Size(), s.engine, s.command + inf);
            var fs := Segments(l, n, d.body);
            var t := Run(g, s, [Received(IBlock(l, n, false, inf))] + Acks(l, Flip(n), |fs| - 1));
            && t.seen == [Seen([fs[0]], [s.command + inf], d.calls)] + FrameEach(fs[1..])
            && t.state.offset == 0 && t.state.engine == d.state
  {
    hide Step, Segment, Dispatch, IBlock, RAck;
    var body := Dispatch(g, l.Size(), s.engine, s.command + inf).body;
    var fs := Segments(l, n, body);
    var ev := Received(IBlock(l, n, false, inf));
    CompletingBlock(g, s, l, n, inf);
    var acks := Acks(l, Flip(n), |fs| - 1);
    RunCons(g, s, ev, acks);
    var k := ChunkLen(l, |body|);
    if k < |body| {
      assert fs[1..] == Segments(l, Flip(n), body[k..]);
      AcksFetch(g, Step(g, s, ev).state);
    } else {
      assert fs[1..] == [] && acks == [];
    }
  }
}
