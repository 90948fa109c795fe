/** After a reset nothing of the old activation can be observed, although the last frame,
    the CID, the command store and the response buffer keep their old contents. */
module ResetTheorems {
  import opened Bytes
  import opened Limits
  import opened Engine
  import opened IsoDep
  import opened IsoDepLemmas
  import opened Runs

  /** Equal up to what is stale: each of these fields is read only behind its flag. */
  ghost predicate Alike<E>(s: State<E>, t: State<E>) {
    && s.valid == t.valid && s.expected == t.expected && s.picc == t.picc
    && s.command == t.command && s.offset == t.offset
    && s.cidValid == t.cidValid && s.engine == t.engine
    && (s.valid ==> s.lastFrame == t.lastFrame)
    && (s.cidValid ==> s.cid == t.cid)
    && (s.offset != 0 ==> s.tx == t.tx)
  }

  ghost predicate AlikeOut<E>(a: Out<E>, b: Out<E>) {
    Alike(a.state, b.state) && Observe(a) == Observe(b)
  }

  lemma AlikeR<E>(s: State<E>, t: State<E>, pcb: byte, l: Link, bare: bool)
    requires Inv(s) && Inv(t) && Alike(s, t)
    ensures AlikeOut(OnRBlock(s, pcb, l, bare), OnRBlock(t, pcb, l, bare))
  {
    hide Segment;
    if s.offset != 0 {
      ContinuedIsNextSegment(s);
      ContinuedIsNextSegment(t);
      assert BoundLink(s) == BoundLink(t);
    }
  }

  lemma AlikeExecute<E>(g: Engine<E>, s: State<E>, t: State<E>, l: Link, n: Bit, apdu: seq<byte>)
    requires Alike(s, t)
    requires |Prologue(l, IPcb(n, false))| == PrefixLen(Prologue(l, IPcb(n, false))[0])
    ensures AlikeOut(Execute(g, s, Prologue(l, IPcb(n, false)), apdu), Execute(g, t, Prologue(l, IPcb(n, false)), apdu))
  {
    ExecuteIsFirstSegment(g, s, l, n, apdu);
    ExecuteIsFirstSegment(g, t, l, n, apdu);
  }

  lemma AlikeInSequence<E>(g: Engine<E>, s: State<E>, t: State<E>, l: Link, n: Bit, more: bool, inf: seq<byte>)
    requires Inv(s) && Inv(t) && Alike(s, t)
    requires |Prologue(l, IPcb(n, more))| == PrefixLen(Prologue(l, IPcb(n, more))[0])
    ensures AlikeOut(InSequence(g, s, l, Prologue(l, IPcb(n, more)), inf), InSequence(g, t, l, Prologue(l, IPcb(n, more)), inf))
  {
    hide Execute, Dispatch;
    IPcbBits(l, n, more);
    if s.offset != 0 || inf == [] {
    } else if (more || s.command != []) && WORKER_MAX - |s.command| < |inf| {
    } else if !more {
      AlikeExecute(g, s.(command := []), t.(command := []), l, n, s.command + inf);
    }
  }

  lemma AlikeTake<E>(g: Engine<E>, s: State<E>, t: State<E>, l: Link, n: Bit, more: bool, inf: seq<byte>)
    requires Inv(s) && Inv(t) && Alike(s, t)
    requires |Prologue(l, IPcb(n, more))| == PrefixLen(Prologue(l, IPcb(n, more))[0])
    ensures AlikeOut(TakeIBlock(g, s, l, Prologue(l, IPcb(n, more)), inf), TakeIBlock(g, t, l, Prologue(l, IPcb(n, more)), inf))
  {
    IPcbBits(l, n, more);
    AlikeInSequence(g, s, t, l, n, more, inf);
  }

  lemma AlikeI<E>(g: Engine<E>, s: State<E>, t: State<E>, rx: seq<byte>)
    requires Inv(s) && Inv(t) && Alike(s, t) && Decodable(rx)
    ensures var l, p := LinkOf(rx), PrefixLen(rx[0]);
            AlikeOut(OnIBlock(g, s, l, rx[..p], rx[p..]), OnIBlock(g, t, l, rx[..p], rx[p..]))
  {
    hide TakeIBlock;
    var pcb, l := rx[0], LinkOf(rx);
    if pcb & 0xE2 == 0x02 && pcb & NAD_MASK == 0 {
      IPcbForm(rx);
      if CidMatches(s, l) || (!s.valid && s.command == []) {
        AlikeTake(g, Settled(s, l), Settled(t, l), l, pcb & 1, pcb & CHAINING != 0, Inf(rx));
      }
    }
  }

  lemma AlikeStep<E>(g: Engine<E>, s: State<E>, t: State<E>, ev: Event)
    requires Inv(s) && Inv(t) && Alike(s, t)
    ensures AlikeOut(Step(g, s, ev), Step(g, t, ev))
  {
    hide OnRBlock, OnIBlock;
    if ev.Received? && Decodable(ev.block) {
      AlikeR(s, t, ev.block[0], LinkOf(ev.block), |ev.block| == PrefixLen(ev.block[0]));
      AlikeI(g, s, t, ev.block);
    }
  }

  lemma {:induction false} AlikeRun<E>(g: Engine<E>, s: State<E>, t: State<E>, evs: seq<Event>)
    requires Inv(s) && Inv(t) && Alike(s, t)
    ensures Run(g, s, evs).seen == Run(g, t, evs).seen
    ensures Alike(Run(g, s, evs).state, Run(g, t, evs).state)
    decreases |evs|
  {
    if evs != [] {
      AlikeStep(g, s, t, evs[0]);
      StepInv(g, s, evs[0]);
      StepInv(g, t, evs[0]);
      AlikeRun(g, Step(g, s, evs[0]).state, Step(g, t, evs[0]).state, evs[1..]);
    }
  }

  /** After a DESELECT that is obeyed, a halt or a loss of field, every later sequence of
      events is answered as by a fresh listener around the reset engine. */
  lemma ResetForgets<E>(g: Engine<E>, s: State<E>, ev: Event, evs: seq<Event>)
    requires Inv(s) && MeaningOf(s, ev) == Ended
    ensures var s1 := Step(g, s, ev).state;
            Inv(s1) && Run(g, s1, evs).seen == Run(g, Fresh(g.reset(s.engine)), evs).seen
  {
    StepInv(g, s, ev);
    if ev.Received? {
      DeselectForm(ev.block);
      RPcbBits(LinkOf(ev.block), Flip(s.picc));
    }
    AlikeRun(g, Step(g, s, ev).state, Fresh(g.reset(s.engine)), evs);
  }
}
