/** Whole runs of the listener over arbitrary events: what every history of blocks, halts
    and field losses determines. */
module Runs {
  import opened Bytes
  import opened Limits
  import opened Engine
  import opened IsoDep
  import opened IsoDepLemmas

  /** What can be observed of one step. */
  datatype Seen = Seen(frames: seq<Frame>, apdus: seq<seq<byte>>, calls: seq<Call>)

  function Observe<E>(o: Out<E>): Seen {
    Seen(o.frames, o.apdus, o.calls)
  }

  /** A run: the final state, and what was seen at each event. */
  datatype Trace<E> = Trace(state: State<E>, seen: seq<Seen>)

  function Run<E>(g: Engine<E>, s: State<E>, evs: seq<Event>): (t: Trace<E>)
    requires Inv(s)
    ensures Inv(t.state) && |t.seen| == |evs|
    decreases |evs|
  {
    if evs == [] then Trace(s, [])
    else
      var o := Step(g, s, evs[0]);
      StepInv(g, s, evs[0]);
      var r := Run(g, o.state, evs[1..]);
      Trace(r.state, [Observe(o)] + r.seen)
  }

  lemma RunCons<E>(g: Engine<E>, s: State<E>, ev: Event, evs: seq<Event>)
    requires Inv(s)
    ensures var o := Step(g, s, ev);
            && Inv(o.state)
            && var r := Run(g, o.state, evs);
               Run(g, s, [ev] + evs) == Trace(r.state, [Observe(o)] + r.seen)
  {
    StepInv(g, s, ev);
    assert ([ev] + evs)[1..] == evs;
  }

  lemma {:induction false} RunAppend<E>(g: Engine<E>, s: State<E>, xs: seq<Event>, ys: seq<Event>)
    requires Inv(s)
    ensures var a := Run(g, s, xs);
            var b := Run(g, a.state, ys);
            Run(g, s, xs + ys) == Trace(b.state, a.seen + b.seen)
    decreases |xs|
  {
    hide Step;
    if xs == [] {
      assert xs + ys == ys;
    } else {
      assert (xs + ys)[0] == xs[0] && (xs + ys)[1..] == xs[1..] + ys;
      StepInv(g, s, xs[0]);
      RunAppend(g, Step(g, s, xs[0]).state, xs[1..], ys);
    }
  }

  lemma RunSnoc<E>(g: Engine<E>, s: State<E>, xs: seq<Event>, ev: Event)
    requires Inv(s)
    ensures var a := Run(g, s, xs);
            var o := Step(g, a.state, ev);
            Run(g, s, xs + [ev]) == Trace(o.state, a.seen + [Observe(o)])
  {
    RunAppend(g, s, xs, [ev]);
    assert [ev] + [] == [ev];
    RunCons(g, Run(g, s, xs).state, ev, []);
  }

  /** What a block means to the protocol, told from its form alone and the numbers it must carry. */
  datatype Meaning =
    | Ignored
    | Chunk(inf: seq<byte>)
    | Final(inf: seq<byte>)
    | Overflow
    | Continuation
    | Ended

  predicate Decodable(rx: seq<byte>) {
    rx != [] && PrefixLen(rx[0]) <= |rx|
  }

  function Inf(rx: seq<byte>): seq<byte>
    requires Decodable(rx)
  {
    rx[PrefixLen(rx[0])..]
  }

  function BlockMeaning<E>(s: State<E>, rx: seq<byte>): Meaning {
    if !Decodable(rx) then Ignored
    else
      var l, inf := LinkOf(rx), Inf(rx);
      var more := rx == IBlock(l, s.expected, true, inf);
      if (more || rx == IBlock(l, s.expected, false, inf))
         && (CidMatches(s, l) || (!s.valid && s.command == [])) && s.offset == 0 && inf != []
      then
        if (more || s.command != []) && WORKER_MAX < |s.command| + |inf| then Overflow
        else if more then Chunk(inf) else Final(inf)
      else if rx == RAck(l, Flip(s.picc)) && CidMatches(s, l) && s.offset != 0 then Continuation
      else if rx == Deselect(l) && CidMatches(s, l) then Ended
      else Ignored
  }

  function MeaningOf<E>(s: State<E>, ev: Event): Meaning {
    match ev
    case Received(rx) => BlockMeaning(s, rx)
    case Halted => Ended
    case FieldOff => Ended
  }

  /** Which block number is expected after an event, and what is then collected of a command. */
  function NextNumber(m: Meaning, n: Bit): Bit {
    match m
    case Ended => 0 as Bit
    case Ignored => n
    case Overflow => n
    case _ => Flip(n)
  }

  function NextPending(m: Meaning, pending: seq<byte>): seq<byte> {
    match m
    case Ignored => pending
    case Continuation => pending
    case Chunk(inf) => pending + inf
    case _ => []
  }

  /** The command that an event completes, if it does. */
  function Completes(m: Meaning, pending: seq<byte>): seq<seq<byte>> {
    if m.Final? then [pending + m.inf] else []
  }

  ghost predicate Follows<E>(s: State<E>, m: Meaning, o: Out<E>) {
    && o.state.expected == NextNumber(m, s.expected)
    && o.state.command == NextPending(m, s.command)
    && o.apdus == Completes(m, s.command)
  }

  /** An R-block the listener looks at is one of the two forms. */
  lemma RForm(rx: seq<byte>)
    requires Decodable(rx) && rx[0] & 0xE6 == 0xA2 && |rx| == PrefixLen(rx[0])
    ensures rx == if rx[0] & CHAINING == 0 then RAck(LinkOf(rx), rx[0] & 1) else RNak(LinkOf(rx), rx[0] & 1)
    ensures rx[0] & 0xC0 == 0x80 && rx[0] & 0xF0 != 0xD0
  {
    var pcb := rx[0];
    assert pcb == (if pcb & CHAINING == 0 then 0xA2 else 0xB2) | (pcb & 1) | (pcb & CID_MASK);
    assert pcb & CID_MASK == 0 || pcb & CID_MASK == CID_MASK;
  }

  lemma DeselectForm(rx: seq<byte>)
    requires Decodable(rx)
    ensures rx[0] & 0xF7 == 0xC2 && |rx| == PrefixLen(rx[0]) ==> rx == Deselect(LinkOf(rx))
    ensures rx == Deselect(LinkOf(rx)) ==>
              rx[0] & 0xF7 == 0xC2 && |rx| == PrefixLen(rx[0]) && rx[0] & 0xC0 == 0xC0 && rx[0] & 0xF0 != 0xD0
  {
    var pcb := rx[0];
    assert pcb & 0xF7 == 0xC2 ==> pcb == 0xC2 | (pcb & CID_MASK);
    assert pcb & CID_MASK == 0 || pcb & CID_MASK == CID_MASK;
  }

  lemma IBlockParts(l: Link, n: Bit, more: bool, inf: seq<byte>)
    ensures var rx := IBlock(l, n, more, inf);
            Decodable(rx) && LinkOf(rx) == l && Inf(rx) == inf && rx[0] == Prologue(l, IPcb(n, more))[0]
  {
    IPcbBits(l, n, more);
    var rx := IBlock(l, n, more, inf);
    assert rx[0] == Prologue(l, IPcb(n, more))[0];
  }

  /** The meaning of a well-formed I-block. */
  function IMeaning<E>(s: State<E>, l: Link, n: Bit, more: bool, inf: seq<byte>): Meaning {
    if n == s.expected && (CidMatches(s, l) || (!s.valid && s.command == [])) && s.offset == 0 && inf != [] then
      if (more || s.command != []) && WORKER_MAX < |s.command| + |inf| then Overflow
      else if more then Chunk(inf) else Final(inf)
    else Ignored
  }

  lemma IBlockMeans<E>(s: State<E>, l: Link, n: Bit, more: bool, inf: seq<byte>)
    ensures BlockMeaning(s, IBlock(l, n, more, inf)) == IMeaning(s, l, n, more, inf)
  {
    var rx := IBlock(l, n, more, inf);
    IBlockParts(l, n, more, inf);
    IPcbBits(l, n, more);
    IPcbBits(l, s.expected, true);
    IPcbBits(l, s.expected, false);
    IBlockParts(l, s.expected, true, inf);
    IBlockParts(l, s.expected, false, inf);
    RPcbBits(l, Flip(s.picc));
  }

  lemma TakeFollows<E>(g: Engine<E>, s: State<E>, l: Link, n: Bit, more: bool, inf: seq<byte>)
    requires Inv(s) && (CidMatches(s, l) || (!s.valid && s.command == []))
    requires |Prologue(l, IPcb(n, more))| == PrefixLen(Prologue(l, IPcb(n, more))[0]) && Inv(Settled(s, l))
    ensures Follows(s, IMeaning(s, l, n, more, inf),
                    TakeIBlock(g, Settled(s, l), l, Prologue(l, IPcb(n, more)), inf))
  {
    hide Segment, Dispatch, Prologue, IPcb, Execute;
    IPcbBits(l, n, more);
    if !more {
      ExecuteIsFirstSegment(g, Settled(s, l).(command := []), l, n, s.command + inf);
    }
  }

  lemma IBlockForm(rx: seq<byte>)
    requires Decodable(rx) && rx[0] & 0xE2 == 0x02 && rx[0] & NAD_MASK == 0
    ensures rx == IBlock(LinkOf(rx), rx[0] & 1, rx[0] & CHAINING != 0, Inf(rx))
    ensures rx[..PrefixLen(rx[0])] == Prologue(LinkOf(rx), IPcb(rx[0] & 1, rx[0] & CHAINING != 0))
  {
    IPcbForm(rx);
    assert rx == rx[..PrefixLen(rx[0])] + Inf(rx);
  }

  lemma MalformedMeans<E>(s: State<E>, rx: seq<byte>)
    requires Decodable(rx) && rx[0] & 0xC0 != 0x80 && rx[0] & 0xC0 != 0xC0
    requires rx[0] & 0xE2 != 0x02 || rx[0] & NAD_MASK != 0
    ensures BlockMeaning(s, rx) == Ignored
  {
    var l, inf := LinkOf(rx), Inf(rx);
    RPcbBits(l, Flip(s.picc));
    DeselectForm(rx);
    IPcbBits(l, s.expected, true);
    IPcbBits(l, s.expected, false);
    IBlockParts(l, s.expected, true, inf);
    IBlockParts(l, s.expected, false, inf);
  }

  lemma OnIBlockFollows<E>(g: Engine<E>, s: State<E>, rx: seq<byte>)
    requires Inv(s) && Decodable(rx) && rx[0] & 0xC0 != 0x80 && rx[0] & 0xC0 != 0xC0
    ensures var p := PrefixLen(rx[0]);
            Follows(s, BlockMeaning(s, rx), OnIBlock(g, s, LinkOf(rx), rx[..p], rx[p..]))
  {
    hide TakeIBlock, BlockMeaning, Prologue, IPcb, IBlock;
    var pcb, l, inf := rx[0], LinkOf(rx), Inf(rx);
    if pcb & 0xE2 == 0x02 && pcb & NAD_MASK == 0 {
      IBlockForm(rx);
      IBlockMeans(s, l, pcb & 1, pcb & CHAINING != 0, inf);
      if CidMatches(s, l) || (!s.valid && s.command == []) {
        TakeFollows(g, s, l, pcb & 1, pcb & CHAINING != 0, inf);
      }
    } else {
      MalformedMeans(s, rx);
    }
  }

  lemma NotIBlock<E>(s: State<E>, rx: seq<byte>)
    requires Decodable(rx) && (rx[0] & 0xC0 == 0x80 || rx[0] & 0xC0 == 0xC0)
    ensures var l := LinkOf(rx);
            BlockMeaning(s, rx) == if rx == RAck(l, Flip(s.picc)) && CidMatches(s, l) && s.offset != 0 then Continuation
                                   else if rx == Deselect(l) && CidMatches(s, l) then Ended else Ignored
  {
    var l, inf := LinkOf(rx), Inf(rx);
    IPcbBits(l, s.expected, true);
    IPcbBits(l, s.expected, false);
    IBlockParts(l, s.expected, true, inf);
    IBlockParts(l, s.expected, false, inf);
  }

  /** What an R-block does: continue the response, or nothing but an answer. */
  lemma OnRBlockCases<E>(s: State<E>, rx: seq<byte>)
    requires Inv(s) && Decodable(rx)
    ensures var o := OnRBlock(s, rx[0], LinkOf(rx), |rx| == PrefixLen(rx[0]));
            if s.offset != 0 && CidMatches(s, LinkOf(rx)) && rx == RAck(LinkOf(rx), Flip(s.picc)) then o == Continued(s)
            else o.state == s && o.apdus == []
  {
    hide Continued;
    RPcbBits(LinkOf(rx), Flip(s.picc));
    if rx[0] & 0xE6 == 0xA2 && |rx| == PrefixLen(rx[0]) {
      RForm(rx);
      RPcbBits(LinkOf(rx), rx[0] & 1);
    }
  }

  lemma OnRBlockFollows<E>(g: Engine<E>, s: State<E>, rx: seq<byte>)
    requires Inv(s) && Decodable(rx) && rx[0] & 0xC0 == 0x80
    ensures Follows(s, BlockMeaning(s, rx), OnRBlock(s, rx[0], LinkOf(rx), |rx| == PrefixLen(rx[0])))
  {
    hide BlockMeaning, Continued, OnRBlock, Segment;
    NotIBlock(s, rx);
    DeselectForm(rx);
    OnRBlockCases(s, rx);
    if s.offset != 0 { ContinuedIsNextSegment(s); }
  }

  /** Each step has exactly the effect of the event's meaning. */
  lemma StepFollows<E>(g: Engine<E>, s: State<E>, ev: Event)
    requires Inv(s)
    ensures Follows(s, MeaningOf(s, ev), Step(g, s, ev))
  {
    hide OnIBlock, OnRBlock;
    if ev.Received? && Decodable(ev.block) {
      var rx := ev.block;
      if rx[0] & 0xC0 == 0x80 {
        OnRBlockFollows(g, s, rx);
      } else if rx[0] & 0xC0 == 0xC0 {
        NotIBlock(s, rx);
        DeselectForm(rx);
        RPcbBits(LinkOf(rx), Flip(s.picc));
      } else {
        OnIBlockFollows(g, s, rx);
      }
    }
  }

  /** The meanings of a run's events, each in the state it met. */
  function History<E>(g: Engine<E>, s: State<E>, evs: seq<Event>): (h: seq<Meaning>)
    requires Inv(s)
    ensures |h| == |evs|
    decreases |evs|
  {
    if evs == [] then []
    else
      StepInv(g, s, evs[0]);
      [MeaningOf(s, evs[0])] + History(g, Step(g, s, evs[0]).state, evs[1..])
  }

  lemma {:induction false} HistorySnoc<E>(g: Engine<E>, s: State<E>, xs: seq<Event>, ev: Event)
    requires Inv(s)
    ensures History(g, s, xs + [ev]) == History(g, s, xs) + [MeaningOf(Run(g, s, xs).state, ev)]
    decreases |xs|
  {
    hide Step, MeaningOf;
    if xs == [] {
      assert xs + [ev] == [ev];
    } else {
      assert (xs + [ev])[0] == xs[0] && (xs + [ev])[1..] == xs[1..] + [ev];
      StepInv(g, s, xs[0]);
      HistorySnoc(g, Step(g, s, xs[0]).state, xs[1..], ev);
    }
  }

  /** The block number expected after a history; lemma ParityCounts says what it counts. */
  function Parity(h: seq<Meaning>): Bit {
    if h == [] then 0 as Bit else NextNumber(h[|h| - 1], Parity(h[..|h| - 1]))
  }

  /** How many I-blocks were accepted and response frames fetched since the last reset. */
  function Since(h: seq<Meaning>): nat {
    if h == [] then 0
    else
      match h[|h| - 1]
      case Ended => 0
      case Ignored => Since(h[..|h| - 1])
      case Overflow => Since(h[..|h| - 1])
      case _ => Since(h[..|h| - 1]) + 1
  }

  lemma {:induction false} ParityCounts(h: seq<Meaning>)
    ensures Parity(h) as nat == Since(h) % 2
  {
    if h != [] { ParityCounts(h[..|h| - 1]); }
  }

  /** The information fields accepted since the last hand-off, discard or reset. */
  function Pending(h: seq<Meaning>): seq<byte> {
    if h == [] then [] else NextPending(h[|h| - 1], Pending(h[..|h| - 1]))
  }

  /** The commands completed, each the concatenation of its information fields. */
  function Completed(h: seq<Meaning>): seq<seq<byte>> {
    if h == [] then []
    else
      var front := h[..|h| - 1];
      Completed(front) + Completes(h[|h| - 1], Pending(front))
  }

  function HandedOver(seen: seq<Seen>): seq<seq<byte>> {
    if seen == [] then [] else HandedOver(seen[..|seen| - 1]) + seen[|seen| - 1].apdus
  }

  lemma HistoryStep(h: seq<Meaning>, m: Meaning)
    ensures Parity(h + [m]) == NextNumber(m, Parity(h))
    ensures Pending(h + [m]) == NextPending(m, Pending(h))
    ensures Completed(h + [m]) == Completed(h) + Completes(m, Pending(h))
  {
    assert (h + [m])[..|h|] == h;
  }

  lemma HandedOverSnoc(seen: seq<Seen>, x: Seen)
    ensures HandedOver(seen + [x]) == HandedOver(seen) + x.apdus
  {
    assert (seen + [x])[..|seen + [x]| - 1] == seen;
  }

  /** Over every run from the start of an activation: the expected block number is the
      parity of what was accepted, the stored command is what was collected since the last
      hand-off, discard or reset, and the APDUs that reached the engine are exactly the
      completed commands. */
  lemma {:induction false} RunFollows<E>(g: Engine<E>, e: E, evs: seq<Event>)
    ensures var t := Run(g, Fresh(e), evs);
            var h := History(g, Fresh(e), evs);
            && t.state.expected == Parity(h) && t.state.expected as nat == Since(h) % 2
            && t.state.command == Pending(h)
            && HandedOver(t.seen) == Completed(h)
    decreases |evs|
  {
    hide Step, MeaningOf, Since;
    ParityCounts(History(g, Fresh(e), evs));
    if evs != [] {
      var xs, ev := evs[..|evs| - 1], evs[|evs| - 1];
      assert evs == xs + [ev];
      RunFollows(g, e, xs);
      RunSnoc(g, Fresh(e), xs, ev);
      HistorySnoc(g, Fresh(e), xs, ev);
      var t := Run(g, Fresh(e), xs);
      StepFollows(g, t.state, ev);
      HistoryStep(History(g, Fresh(e), xs), MeaningOf(t.state, ev));
      HandedOverSnoc(t.seen, Observe(Step(g, t.state, ev)));
    }
  }

  /** A completed command of more than one block fits the command store. */
  lemma CompletedFits<E>(g: Engine<E>, e: E, evs: seq<Event>, ev: Event)
    ensures var s := Run(g, Fresh(e), evs).state;
            var m := MeaningOf(s, ev);
            m.Final? && Pending(History(g, Fresh(e), evs)) != [] ==>
              |Pending(History(g, Fresh(e), evs)) + m.inf| <= WORKER_MAX
  {
    RunFollows(g, e, evs);
  }
}
