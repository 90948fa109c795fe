/** R(NAK) recovery inside a chained command. The listener does not advance its own block
    number when it accepts a command block, so the number in R(NAK) means the wrong thing
    at every second block. */
module NakRecovery {
  import opened Bytes
  import opened Limits
  import opened Engine
  import opened IsoDep
  import opened IsoDepLemmas
  import opened Server
  import opened Session
  import opened SessionProof
  import opened SessionTheorems
  import opened LostBlocks

  /** The session after the reader asked with R(NAK) and heard the answer, if there is one. */
  function AfterNak<E>(g: Engine<E>, cmds: seq<Command>, l: Link, y: System<E>): (z: System<E>)
    requires AllSendable(cmds) && PcdOk(cmds, y.pcd) && Inv(y.picc) && y.pcd.next < |cmds|
    ensures PcdOk(cmds, z.pcd) && Inv(z.picc)
  {
    var o := OnBlock(g, y.picc, RNak(l, y.pcd.bit));
    StepInv(g, y.picc, Received(RNak(l, y.pcd.bit)));
    System(if o.frames == [] then Recover(cmds, y.pcd, false)
           else HearOk(cmds, l, y.pcd, o.frames[0], false); Hear(cmds, l, y.pcd, o.frames[0], false),
           o.state, y.apdus + o.apdus, y.calls + o.calls)
  }

  ghost predicate CanFinish<E>(g: Engine<E>, l: Link, e: E, cmds: seq<Command>, y: System<E>)
    requires AllSendable(cmds) && PcdOk(cmds, y.pcd) && Inv(y.picc)
  {
    exists more :: Finished(g, l, e, cmds, RunSession(g, cmds, l, y, more))
  }

  /** What a reader can observe: whatever happens from here on, every run is right, and the
      session can still be finished. */
  ghost predicate StaysRight<E>(g: Engine<E>, l: Link, e: E, cmds: seq<Command>, y: System<E>)
    requires AllSendable(cmds) && PcdOk(cmds, y.pcd) && Inv(y.picc)
  {
    forall rounds :: var z := RunSession(g, cmds, l, y, rounds);
                     Right(g, l, e, cmds, z) && CanFinish(g, l, e, cmds, z)
  }

  lemma JointStaysRight<E>(g: Engine<E>, l: Link, e: E, cmds: seq<Command>, y: System<E>)
    requires AllSendable(cmds) && Joint(g, l, e, cmds, y)
    ensures StaysRight(g, l, e, cmds, y)
  {
    hide Joint, Right, Finished, RunSession, Work;
    JointOk(g, l, e, cmds, y);
    forall rounds ensures var z := RunSession(g, cmds, l, y, rounds);
                          Right(g, l, e, cmds, z) && CanFinish(g, l, e, cmds, z) {
      RunKeeps(g, l, e, cmds, y, rounds);
      var z := RunSession(g, cmds, l, y, rounds);
      JointMeaning(g, l, e, cmds, z);
      CleanFinishes(g, l, e, cmds, z);
    }
  }

  lemma JointOk<E>(g: Engine<E>, l: Link, e: E, cmds: seq<Command>, y: System<E>)
    requires Joint(g, l, e, cmds, y)
    ensures PcdOk(cmds, y.pcd) && Inv(y.picc)
  {
  }

  // ----- Where it is right -----

  /** The listener still waits for the outstanding command block: it was lost. */
  predicate Lost<E>(y: System<E>) {
    !y.pcd.receiving && y.picc.expected == y.pcd.bit
  }

  lemma LostIsWaiting<E>(g: Engine<E>, l: Link, e: E, cmds: seq<Command>, y: System<E>)
    requires Joint(g, l, e, cmds, y)
    ensures Lost(y) <==> Waiting(g, l, e, cmds, y)
  {
    hide Responses, StateAfter, CallsFor, Apdus;
  }

  lemma NakDuringCommand<E>(g: Engine<E>, l: Link, e: E, cmds: seq<Command>, y: System<E>)
    requires AllSendable(cmds) && Joint(g, l, e, cmds, y) && y.pcd.next < |cmds|
    requires if Waiting(g, l, e, cmds, y) then NakHarmless(cmds, y.pcd) else Stored(g, l, e, cmds, y)
    ensures Joint(g, l, e, cmds, AfterNak(g, cmds, l, y))
  {
    hide OnBlock, Responses, StateAfter, CallsFor, Apdus, Hear, Recover;
    NakAnswerIs(g, l, e, cmds, y);
    RecoverFalse(cmds, y.pcd);
    assert y.apdus + [] == y.apdus && y.calls + [] == y.calls;
    if !CidMatches(y.picc, l) {
      RecoverKeeps(g, l, e, cmds, y, false);
    } else if NakHarmless(cmds, y.pcd) {
      HearNakAnswer(g, l, e, cmds, y, false);
      RecoverKeeps(g, l, e, cmds, y, false);
    } else {
      HearAck(g, l, e, cmds, y, false);
    }
  }

  lemma RecoverFalse(cmds: seq<Command>, r: Pcd)
    requires r.next < |cmds|
    ensures Recover(cmds, r, false) == r.(nak := false)
  {
  }

  /** While a response is on its way R(NAK) gets the frame that was missed, or, before that
      was sent, an R(ACK) that the reader does not take for one. */
  lemma NakDuringResponse<E>(g: Engine<E>, l: Link, e: E, cmds: seq<Command>, y: System<E>)
    requires AllSendable(cmds) && Joint(g, l, e, cmds, y) && y.pcd.next < |cmds|
    requires Answered(g, l, e, cmds, y) || MoreToCome(g, l, e, cmds, y)
    ensures Joint(g, l, e, cmds, AfterNak(g, cmds, l, y))
  {
    hide Responses, StateAfter, CallsFor, Apdus, Segment, Hear, Recover;
    OnRBlockIs(g, y.picc, l, y.pcd.bit);
    RPcbBits(l, y.pcd.bit);
    assert y.apdus + [] == y.apdus && y.calls + [] == y.calls;
    if Answered(g, l, e, cmds, y) {
      HearAnswerJoint(g, l, e, cmds, y, false);
    } else {
      IgnoresAck(cmds, l, y.pcd);
      RecoverFalse(cmds, y.pcd);
      RecoverKeeps(g, l, e, cmds, y, false);
    }
  }

  lemma IgnoresAck(cmds: seq<Command>, l: Link, r: Pcd)
    requires PcdOk(cmds, r) && r.next < |cmds| && r.receiving
    ensures Hear(cmds, l, r, RAck(l, Flip(r.bit)), false) == Recover(cmds, r, false)
  {
    PcbsDiffer(l, r.bit);
  }

  /** R(NAK) keeps the joint invariant unless the block was lost at a harmful position. */
  lemma NakKeeps<E>(g: Engine<E>, l: Link, e: E, cmds: seq<Command>, y: System<E>)
    requires AllSendable(cmds) && Joint(g, l, e, cmds, y) && y.pcd.next < |cmds|
    requires Lost(y) ==> NakHarmless(cmds, y.pcd)
    ensures Joint(g, l, e, cmds, AfterNak(g, cmds, l, y))
  {
    hide Waiting, Stored, Answered, MoreToCome, AfterNak;
    LostIsWaiting(g, l, e, cmds, y);
    if Waiting(g, l, e, cmds, y) || Stored(g, l, e, cmds, y) {
      NakDuringCommand(g, l, e, cmds, y);
    } else {
      NakDuringResponse(g, l, e, cmds, y);
    }
  }

  // ----- Where it is not -----

  /** After the last block of a later command the reader takes the previous response for this
      command's, which the listener has not run. */
  lemma NakBreaksLast<E>(g: Engine<E>, l: Link, e: E, cmds: seq<Command>, y: System<E>)
    requires AllSendable(cmds) && Joint(g, l, e, cmds, y) && Waiting(g, l, e, cmds, y)
    requires y.pcd.next < |cmds| && !NakHarmless(cmds, y.pcd) && LastChunk(cmds, y.pcd)
    ensures var z := AfterNak(g, cmds, l, y);
            && z.pcd.next == |z.apdus| + 1 && z.apdus == y.apdus
            && z.pcd.responses == y.pcd.responses + [y.picc.lastFrame[l.Size()..]]
            && !Right(g, l, e, cmds, z)
  {
    hide OnBlock, Responses, StateAfter, CallsFor, Apdus;
    NakAnswerIs(g, l, e, cmds, y);
    StaleFrame(y.picc, l, y.pcd.bit);
    var stale := y.picc.lastFrame[l.Size()..];
    assert |y.apdus| == y.pcd.next && [] + stale == stale && y.apdus + [] == y.apdus;
  }

  /** Before the last block of the first command the reader goes on although the listener
      lacks the block. */
  lemma NakBreaksChunk<E>(g: Engine<E>, l: Link, e: E, cmds: seq<Command>, y: System<E>)
    requires AllSendable(cmds) && Joint(g, l, e, cmds, y) && Waiting(g, l, e, cmds, y)
    requires y.pcd.next < |cmds| && !NakHarmless(cmds, y.pcd) && !LastChunk(cmds, y.pcd)
    ensures AfterNak(g, cmds, l, y)
         == y.(pcd := y.pcd.(chunk := y.pcd.chunk + 1, bit := Flip(y.pcd.bit), nak := false))
    ensures Skipped(l, e, cmds, y.pcd.chunk, AfterNak(g, cmds, l, y))
  {
    hide OnBlock, Responses, Segment, StateAfter, CallsFor, Apdus, Prologue, IPcb;
    NakAnswerIs(g, l, e, cmds, y);
    PcbsDiffer(l, y.pcd.bit);
    StoreNext(cmds[y.pcd.next], y.pcd.chunk);
    assert y.apdus + [] == y.apdus && y.calls + [] == y.calls;
    NothingRan(g, l, e, cmds, y);
  }

  lemma NothingRan<E>(g: Engine<E>, l: Link, e: E, cmds: seq<Command>, y: System<E>)
    requires Joint(g, l, e, cmds, y) && Waiting(g, l, e, cmds, y) && y.pcd.next == 0
    ensures y.apdus == [] && y.calls == [] && y.picc.engine == e && y.pcd.responses == []
  {
    assert Apdus(cmds)[..0] == [];
  }

  /** If one block is left, the command never runs and the session never ends. */
  lemma NakSticks<E>(g: Engine<E>, l: Link, e: E, cmds: seq<Command>, y: System<E>, rounds: seq<Round>)
    requires AllSendable(cmds) && Joint(g, l, e, cmds, y) && Waiting(g, l, e, cmds, y)
    requires y.pcd.next < |cmds| && !NakHarmless(cmds, y.pcd) && y.pcd.chunk + 2 == |cmds[y.pcd.next]|
    ensures var z := RunSession(g, cmds, l, AfterNak(g, cmds, l, y), rounds);
            && z.apdus == [] && z.calls == [] && z.pcd.next == 0
            && Right(g, l, e, cmds, z) && !Finished(g, l, e, cmds, z)
  {
    hide RunSession, OnBlock;
    NakBreaksChunk(g, l, e, cmds, y);
    Stuck(g, l, e, cmds, y.pcd.chunk, AfterNak(g, cmds, l, y), rounds);
    StuckIsRight(g, l, e, cmds, y.pcd.chunk, AfterNak(g, cmds, l, y), rounds);
  }

  /** If more are left, the APDU that reaches the engine lacks the lost block and the next
      one: every run is right for the shortened commands, and some run is wrong for the real ones. */
  lemma NakDropsBlocks<E>(g: Engine<E>, l: Link, e: E, cmds: seq<Command>, y: System<E>)
    requires AllSendable(cmds) && Joint(g, l, e, cmds, y) && Waiting(g, l, e, cmds, y)
    requires y.pcd.next < |cmds| && !NakHarmless(cmds, y.pcd) && y.pcd.chunk + 2 < |cmds[y.pcd.next]|
    ensures y.pcd.next == 0
    ensures forall rounds :: Right(g, l, e, Shortened(cmds, y.pcd.chunk),
                                   RunSession(g, cmds, l, AfterNak(g, cmds, l, y), rounds))
    ensures exists rounds :: var z := RunSession(g, cmds, l, AfterNak(g, cmds, l, y), rounds);
                             z.apdus == Apdus(Shortened(cmds, y.pcd.chunk)) && !Right(g, l, e, cmds, z)
  {
    hide RunSession, OnBlock, Right, Joint, Waiting, AfterNak, Skipped;
    JointOk(g, l, e, cmds, y);
    NakBreaksChunk(g, l, e, cmds, y);
    var j, z := y.pcd.chunk, AfterNak(g, cmds, l, y);
    forall rounds ensures Right(g, l, e, Shortened(cmds, j), RunSession(g, cmds, l, z, rounds)) {
      RightForShortened(g, l, e, cmds, j, z, rounds);
    }
    var rounds := WrongCommandRuns(g, l, e, cmds, j, z);
  }

  lemma NakBreaks<E>(g: Engine<E>, l: Link, e: E, cmds: seq<Command>, y: System<E>)
    requires AllSendable(cmds) && Joint(g, l, e, cmds, y) && Waiting(g, l, e, cmds, y)
    requires y.pcd.next < |cmds| && !NakHarmless(cmds, y.pcd)
    ensures !StaysRight(g, l, e, cmds, AfterNak(g, cmds, l, y))
  {
    hide Right, Finished, Joint, Waiting, AfterNak;
    JointOk(g, l, e, cmds, y);
    var z := AfterNak(g, cmds, l, y);
    assert RunSession(g, cmds, l, z, []) == z;
    if LastChunk(cmds, y.pcd) {
      NakBreaksLast(g, l, e, cmds, y);
    } else if y.pcd.chunk + 2 == |cmds[y.pcd.next]| {
      forall more ensures !Finished(g, l, e, cmds, RunSession(g, cmds, l, z, more)) {
        NakSticks(g, l, e, cmds, y, more);
      }
    } else {
      ChunkInside(g, l, e, cmds, y);
      NakDropsBlocks(g, l, e, cmds, y);
    }
  }

  lemma ChunkInside<E>(g: Engine<E>, l: Link, e: E, cmds: seq<Command>, y: System<E>)
    requires Joint(g, l, e, cmds, y) && y.pcd.next < |cmds|
    ensures y.pcd.chunk < |cmds[y.pcd.next]|
  {
  }

  /** R(NAK) for a command block leaves the session right if and only if the block was not
      lost or its position is harmless. */
  lemma NakOnLostBlock<E>(g: Engine<E>, l: Link, e: E, cmds: seq<Command>, y: System<E>)
    requires AllSendable(cmds) && Joint(g, l, e, cmds, y) && y.pcd.next < |cmds|
    ensures StaysRight(g, l, e, cmds, AfterNak(g, cmds, l, y)) <==> (Lost(y) ==> NakHarmless(cmds, y.pcd))
    ensures Joint(g, l, e, cmds, AfterNak(g, cmds, l, y)) <==> (Lost(y) ==> NakHarmless(cmds, y.pcd))
  {
    hide StaysRight, Joint, Waiting, AfterNak, NakHarmless;
    JointOk(g, l, e, cmds, y);
    LostIsWaiting(g, l, e, cmds, y);
    if Lost(y) ==> NakHarmless(cmds, y.pcd) {
      NakKeeps(g, l, e, cmds, y);
      JointStaysRight(g, l, e, cmds, AfterNak(g, cmds, l, y));
    } else {
      NakBreaks(g, l, e, cmds, y);
      if Joint(g, l, e, cmds, AfterNak(g, cmds, l, y)) { JointStaysRight(g, l, e, cmds, AfterNak(g, cmds, l, y)); }
    }
  }

  /** The same for every moment of every session: whatever was lost before, one R(NAK) by a
      reader that uses it anywhere leaves the session right in exactly these cases. */
  lemma NakExactly<E>(g: Engine<E>, l: Link, cmds: seq<Command>, s: State<E>, rounds: seq<Round>)
    requires AllSendable(cmds) && Activated(s)
    ensures var y := RunSession(g, cmds, l, Initial(s), rounds);
            y.pcd.next < |cmds| ==>
              (StaysRight(g, l, s.engine, cmds, AfterNak(g, cmds, l, y)) <==> (Lost(y) ==> NakHarmless(cmds, y.pcd)))
  {
    hide StaysRight, Joint, AfterNak, NakHarmless, RunSession, Lost;
    InitialJoint(g, l, cmds, s);
    RunKeeps(g, l, s.engine, cmds, Initial(s), rounds);
    var y := RunSession(g, cmds, l, Initial(s), rounds);
    if y.pcd.next < |cmds| { NakOnLostBlock(g, l, s.engine, cmds, y); }
  }

  // ----- Three sessions that go wrong -----

  /** A one-block command answered in one frame. */
  lemma FirstCommand<E>(g: Engine<E>, l: Link, cmds: seq<Command>, s: State<E>, a: seq<byte>)
    requires AllSendable(cmds) && Activated(s) && |cmds| > 1 && cmds[0] == [a]
    requires |Dispatch(g, l.Size(), s.engine, a).body| <= FRAME_MAX - l.Size()
    ensures var first := Dispatch(g, l.Size(), s.engine, a).body;
            var y := Exchange(g, cmds, l, Initial(s), CLEAN);
            && y.pcd == Pcd(1, 0, 1, false, false, [], [first]) && y.apdus == [a]
            && Inv(y.picc) && CidMatches(y.picc, l) && y.picc.valid && y.picc.command == [] && y.picc.offset == 0
            && y.picc.expected == 1 && y.picc.picc == 0 && y.picc.lastFrame == Segment(l, 0, first)
  {
    var first := Dispatch(g, l.Size(), s.engine, a).body;
    assert [] + a == a && [] + first == first;
    assert Sendable(cmds[0]) && cmds[0][0] == a;
    TakeExecutes(g, s, l, 0, a);
    HearSegment(cmds, l, Initial(s).pcd, first, false);
    ExchangeOk(g, cmds, l, Initial(s), CLEAN);
  }

  /** The first block of a chained command. */
  lemma FirstBlock<E>(g: Engine<E>, l: Link, cmds: seq<Command>, y: System<E>, b: seq<byte>)
    requires AllSendable(cmds) && PcdOk(cmds, y.pcd) && Inv(y.picc) && CidMatches(y.picc, l)
    requires y.pcd.next == 1 < |cmds| && |cmds[1]| == 2 && cmds[1][0] == b && |b| <= WORKER_MAX
    requires y.pcd.chunk == 0 && y.pcd.bit == 1 && !y.pcd.receiving && !y.pcd.nak
    requires y.picc.expected == 1 && y.picc.command == [] && y.picc.offset == 0
    ensures var z := Exchange(g, cmds, l, y, CLEAN);
            && z.pcd == y.pcd.(chunk := 1, bit := 0) && z.apdus == y.apdus
            && Inv(z.picc) && z.picc == y.picc.(command := b, expected := 0)
  {
    assert [] + b == b && y.apdus + [] == y.apdus;
    TakeStores(g, y.picc, l, 1, b);
    PcbsDiffer(l, 1);
    ExchangeOk(g, cmds, l, y, CLEAN);
  }

  lemma TwoRounds<E>(g: Engine<E>, cmds: seq<Command>, l: Link, y: System<E>, r1: Round, r2: Round)
    requires AllSendable(cmds) && PcdOk(cmds, y.pcd) && Inv(y.picc)
    ensures var y1 := Exchange(g, cmds, l, y, r1);
            PcdOk(cmds, y1.pcd) && Inv(y1.picc)
            && RunSession(g, cmds, l, y, [r1, r2]) == Exchange(g, cmds, l, y1, r2)
  {
    ExchangeOk(g, cmds, l, y, r1);
    var y1 := Exchange(g, cmds, l, y, r1);
    ExchangeOk(g, cmds, l, y1, r2);
    assert [r1, r2][1..] == [r2] && [r2][1..] == [];
    assert RunSession(g, cmds, l, y1, [r2]) == Exchange(g, cmds, l, y1, r2);
  }

  /** A run that ends wrong: a one-block command, answered in one frame, then a two-block
      command whose second block is lost. R(NAK) makes the listener repeat the first response,
      and the reader, which now thinks it is done, records it as the second. */
  lemma StaleResponseRun<E>(g: Engine<E>, l: Link, cmds: seq<Command>, s: State<E>, a: seq<byte>)
    requires AllSendable(cmds) && Activated(s) && |cmds| == 2 && cmds[0] == [a] && |cmds[1]| == 2
    requires |Dispatch(g, l.Size(), s.engine, a).body| <= FRAME_MAX - l.Size()
    ensures var first := Dispatch(g, l.Size(), s.engine, a).body;
            var z := RunSession(g, cmds, l, Initial(s), [CLEAN, CLEAN]);
            && z.apdus == [a] && z.pcd == Pcd(1, 1, 0, false, false, [], [first]) && Inv(z.picc)
            && OnBlock(g, z.picc, RNak(l, 0)) == Answer(z.picc, Segment(l, 0, first))
            && Hear(cmds, l, z.pcd, Segment(l, 0, first), false) == Pcd(2, 0, 1, false, false, [], [first, first])
  {
    var first := Dispatch(g, l.Size(), s.engine, a).body;
    var c := cmds[1];
    StoreNext(c, 0);
    assert Concat(c[..0]) + c[0] == c[0];
    FirstCommand(g, l, cmds, s, a);
    var y := Exchange(g, cmds, l, Initial(s), CLEAN);
    FirstBlock(g, l, cmds, y, c[0]);
    var z := Exchange(g, cmds, l, y, CLEAN);
    TwoRounds(g, cmds, l, Initial(s), CLEAN, CLEAN);
    OnRBlockIs(g, z.picc, l, 0);
    RPcbBits(l, 0);
    assert [] + first == first;
    HearSegment(cmds, l, z.pcd, first, false);
  }

  lemma RunOneRound<E>(g: Engine<E>, cmds: seq<Command>, l: Link, y: System<E>, r: Round)
    requires AllSendable(cmds) && PcdOk(cmds, y.pcd) && Inv(y.picc)
    ensures RunSession(g, cmds, l, y, [r]) == Exchange(g, cmds, l, y, r)
  {
    hide Exchange;
    ExchangeOk(g, cmds, l, y, r);
    assert [r][1..] == [] && RunSession(g, cmds, l, Exchange(g, cmds, l, y, r), []) == Exchange(g, cmds, l, y, r);
  }

  /** The first block of the first command got through, the second is outstanding. */
  lemma SecondBlockOut<E>(g: Engine<E>, l: Link, cmds: seq<Command>, s: State<E>)
    requires AllSendable(cmds) && Activated(s) && cmds != [] && |cmds[0]| > 2
    ensures var y := RunSession(g, cmds, l, Initial(s), [CLEAN]);
            && Joint(g, l, s.engine, cmds, y) && Waiting(g, l, s.engine, cmds, y)
            && y.pcd.next == 0 && y.pcd.chunk == 1 && !NakHarmless(cmds, y.pcd)
  {
    hide Responses, StateAfter, CallsFor, OnBlock, Apdus, Joint, Waiting, Prologue, IPcb, RunSession;
    RunOneRound(g, cmds, l, Initial(s), CLEAN);
    var b, y := cmds[0][0], Exchange(g, cmds, l, Initial(s), CLEAN);
    ExchangeOk(g, cmds, l, Initial(s), CLEAN);
    InitialJoint(g, l, cmds, s);
    RunKeeps(g, l, s.engine, cmds, Initial(s), [CLEAN]);
    StoreNext(cmds[0], 0);
    assert Concat(cmds[0][..0]) + b == b && [] + b == b;
    TakeStores(g, s, l, 0, b);
    PcbsDiffer(l, 0);
    LostIsWaiting(g, l, s.engine, cmds, y);
  }

  /** A first command of three blocks whose second is lost: after R(NAK) nothing ever runs. */
  lemma StuckRun<E>(g: Engine<E>, l: Link, cmds: seq<Command>, s: State<E>, rounds: seq<Round>)
    requires AllSendable(cmds) && Activated(s) && cmds != [] && |cmds[0]| == 3
    ensures var y := RunSession(g, cmds, l, Initial(s), [CLEAN]);
            y.pcd.next == 0 && y.pcd.chunk == 1
            && var z := RunSession(g, cmds, l, AfterNak(g, cmds, l, y), rounds);
               z.apdus == [] && z.pcd.next == 0
  {
    hide RunSession, Joint, Waiting, AfterNak;
    SecondBlockOut(g, l, cmds, s);
    NakSticks(g, l, s.engine, cmds, RunSession(g, cmds, l, Initial(s), [CLEAN]), rounds);
  }

  /** A first command of four blocks whose second is lost: after R(NAK) and two clean
      exchanges the engine has run the first and the last block. */
  lemma DroppedBlocksRun<E>(g: Engine<E>, l: Link, cmds: seq<Command>, s: State<E>)
    requires AllSendable(cmds) && Activated(s) && cmds != [] && |cmds[0]| == 4
    ensures var y := RunSession(g, cmds, l, Initial(s), [CLEAN]);
            y.pcd.next == 0 && y.pcd.chunk == 1
            && RunSession(g, cmds, l, AfterNak(g, cmds, l, y), [CLEAN, CLEAN]).apdus == [cmds[0][0] + cmds[0][3]]
  {
    hide RunSession, Joint, Waiting, Exchange, Skipped, AfterNak, Concat;
    SecondBlockOut(g, l, cmds, s);
    var y := RunSession(g, cmds, l, Initial(s), [CLEAN]);
    NakBreaksChunk(g, l, s.engine, cmds, y);
    var z, c, cs := AfterNak(g, cmds, l, y), cmds[0], Shortened(cmds, 1);
    SkippedExchange(g, l, s.engine, cmds, 1, z, CLEAN);
    PastTheGap(g, l, s.engine, cmds, 1, z);
    var z1 := Exchange(g, cmds, l, z, CLEAN);
    TwoRounds(g, cmds, l, z, CLEAN, CLEAN);
    ShiftExchange(g, l, cmds, 1, z1, CLEAN);
    LastBlockRuns(g, l, s.engine, cs, Shifted(z1));
    assert Without(c, 1) == [c[0], c[3]] && [c[0], c[3]][1..] == [c[3]] && [c[3]][1..] == [];
    PairConcat(c[0], c[3]);
  }

  lemma PairConcat(a: seq<byte>, b: seq<byte>)
    ensures Concat([a, b]) == a + b
  {
    ConcatSnoc([a], b);
    assert [a] + [b] == [a, b] && [a][1..] == [] && a + [] == a;
  }

  lemma LastBlockRuns<E>(g: Engine<E>, l: Link, e: E, cmds: seq<Command>, y: System<E>)
    requires AllSendable(cmds) && Joint(g, l, e, cmds, y) && Waiting(g, l, e, cmds, y)
    requires cmds != [] && y.pcd.next == 0 && LastChunk(cmds, y.pcd) && !y.pcd.nak
    ensures Exchange(g, cmds, l, y, CLEAN).apdus == [Concat(cmds[0])]
  {
    hide OnBlock, Responses, StateAfter, CallsFor, Hear;
    WaitingExecutes(g, l, e, cmds, y);
    assert Apdus(cmds)[..1] == [Concat(cmds[0])];
  }
}
