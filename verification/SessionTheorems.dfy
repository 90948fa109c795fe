/** Whole sessions: exactly-once execution, the right responses, delivery, and the one
    recovery that does not work. */
module SessionTheorems {
  import opened Bytes
  import opened Engine
  import opened IsoDep
  import opened IsoDepLemmas
  import opened Server
  import opened Session
  import opened SessionProof

  lemma HearOk(cmds: seq<Command>, l: Link, r: Pcd, f: seq<byte>, nak: bool)
    requires AllSendable(cmds) && PcdOk(cmds, r) && r.next < |cmds|
    ensures PcdOk(cmds, Hear(cmds, l, r, f, nak))
  {
  }

  lemma ExchangeOk<E>(g: Engine<E>, cmds: seq<Command>, l: Link, y: System<E>, r: Round)
    requires AllSendable(cmds) && PcdOk(cmds, y.pcd) && Inv(y.picc)
    ensures var y1 := Exchange(g, cmds, l, y, r); PcdOk(cmds, y1.pcd) && Inv(y1.picc)
  {
    hide OnBlock, Hear;
    if y.pcd.next < |cmds| {
      StepInv(g, y.picc, Received(Outstanding(cmds, l, y.pcd)));
      var frames := Replies(g, cmds, l, y);
      if frames != [] { HearOk(cmds, l, y.pcd, frames[0], r.nak); }
    }
  }

  /** A session: one exchange after the other. */
  function RunSession<E>(g: Engine<E>, cmds: seq<Command>, l: Link, y: System<E>, rounds: seq<Round>): (z: System<E>)
    requires AllSendable(cmds) && PcdOk(cmds, y.pcd) && Inv(y.picc)
    ensures PcdOk(cmds, z.pcd) && Inv(z.picc)
    decreases |rounds|
  {
    if rounds == [] then y
    else
      ExchangeOk(g, cmds, l, y, rounds[0]);
      RunSession(g, cmds, l, Exchange(g, cmds, l, y, rounds[0]), rounds[1..])
  }

  /** How many frames carry rest bytes of a response. */
  function FrameCount(l: Link, rest: nat): (n: nat)
    ensures n >= 1
  {
    var k := ChunkLen(l, rest);
    if k < rest then 1 + FrameCount(l, rest - k) else 1
  }

  /** How many more times the reader has to move on to finish commands k and later. */
  ghost function WorkFrom<E>(g: Engine<E>, l: Link, e: E, cmds: seq<Command>, k: nat): nat
    requires AllSendable(cmds) && k <= |cmds|
    decreases |cmds| - k
  {
    if k == |cmds| then 0
    else |cmds[k]| - 1 + FrameCount(l, |Body(g, l, e, cmds, k)|) + WorkFrom(g, l, e, cmds, k + 1)
  }

  /** How many more times it has to move on from here; an R(NAK) recovery costs one move. */
  ghost function Work<E>(g: Engine<E>, l: Link, e: E, cmds: seq<Command>, r: Pcd): nat
    requires AllSendable(cmds) && PcdOk(cmds, r)
  {
    if r.next == |cmds| then 0
    else
      (if r.nak then 1 else 0) + (if r.receiving then 0 else |cmds[r.next]| - 1 - r.chunk)
      + FrameCount(l, Left(|Body(g, l, e, cmds, r.next)|, |r.acc|)) + WorkFrom(g, l, e, cmds, r.next + 1)
  }

  function Left(total: nat, done: nat): nat {
    if done <= total then total - done else 0
  }

  /** What one round can add to the work that is left. */
  function Progress(r: Round): int {
    if r.nak then 1 else if r.request && r.reply then -1 else 0
  }

  lemma RecoverKeeps<E>(g: Engine<E>, l: Link, e: E, cmds: seq<Command>, y: System<E>, nak: bool)
    requires PcdOk(cmds, y.pcd) && y.pcd.next < |cmds|
    ensures PcdOk(cmds, Recover(cmds, y.pcd, nak))
    ensures var y1 := y.(pcd := Recover(cmds, y.pcd, nak));
            && (Waiting(g, l, e, cmds, y) ==> Waiting(g, l, e, cmds, y1))
            && (Stored(g, l, e, cmds, y) ==> Stored(g, l, e, cmds, y1))
            && (Answered(g, l, e, cmds, y) ==> Answered(g, l, e, cmds, y1))
            && (MoreToCome(g, l, e, cmds, y) ==> MoreToCome(g, l, e, cmds, y1))
  {
    hide Responses, StateAfter, CallsFor, Apdus, Segment;
  }

  lemma CollectWork<E>(g: Engine<E>, l: Link, e: E, cmds: seq<Command>, r: Pcd, pcd: Pcd)
    requires AllSendable(cmds) && PcdOk(cmds, r) && PcdOk(cmds, pcd) && r.next < |cmds| && !pcd.nak
    requires r.receiving || LastChunk(cmds, r)
    requires var rest := Left(|Body(g, l, e, cmds, r.next)|, |r.acc|);
             var k := ChunkLen(l, rest);
             if k < rest then pcd.next == r.next && pcd.receiving && |pcd.acc| == |r.acc| + k
             else pcd.next == r.next + 1 && pcd.chunk == 0 && !pcd.receiving && pcd.acc == []
    ensures Work(g, l, e, cmds, pcd) < Work(g, l, e, cmds, r)
  {
    hide Responses, StateAfter, CallsFor, Apdus;
  }

  /** Hearing the outstanding block's answer is one move. */
  lemma HearAnswerWork<E>(g: Engine<E>, l: Link, e: E, cmds: seq<Command>, r: Pcd, nak: bool)
    requires AllSendable(cmds) && PcdOk(cmds, r) && r.next < |cmds| && (r.receiving || LastChunk(cmds, r))
    requires |r.acc| <= |Body(g, l, e, cmds, r.next)|
    ensures var pcd := Hear(cmds, l, r, AnswerFrame(g, l, e, cmds, r), nak);
            PcdOk(cmds, pcd) && Work(g, l, e, cmds, pcd) < Work(g, l, e, cmds, r)
  {
    HearSegment(cmds, l, r, Body(g, l, e, cmds, r.next)[|r.acc|..], nak);
    HearOk(cmds, l, r, AnswerFrame(g, l, e, cmds, r), nak);
    CollectWork(g, l, e, cmds, r, Hear(cmds, l, r, AnswerFrame(g, l, e, cmds, r), nak));
  }

  /** The block arrives: only the listener's side moves. */
  lemma ArrivedKeeps<E>(g: Engine<E>, l: Link, e: E, cmds: seq<Command>, y: System<E>)
    requires AllSendable(cmds) && Joint(g, l, e, cmds, y) && y.pcd.next < |cmds|
    ensures Joint(g, l, e, cmds, Arrived(g, cmds, l, y))
  {
    hide OnBlock, Responses, StateAfter, CallsFor, Apdus, Hear, Segment;
    StepInv(g, y.picc, Received(Outstanding(cmds, l, y.pcd)));
    assert y.apdus + [] == y.apdus && y.calls + [] == y.calls;
    if Waiting(g, l, e, cmds, y) {
      if y.pcd.nak { NakAnswerIs(g, l, e, cmds, y); }
      else if LastChunk(cmds, y.pcd) { WaitingExecutes(g, l, e, cmds, y); }
      else { WaitingStores(g, l, e, cmds, y); }
    } else if Stored(g, l, e, cmds, y) {
      if y.pcd.nak { NakAnswerIs(g, l, e, cmds, y); } else { StoredBlock(g, l, e, cmds, y); }
    } else if Answered(g, l, e, cmds, y) {
      AnsweredBlock(g, l, e, cmds, y);
    } else {
      MoreToComeBlock(g, l, e, cmds, y);
    }
  }

  /** The reader's next move after the outstanding block arrived and was answered. */
  ghost predicate MovesOn<E>(g: Engine<E>, l: Link, e: E, cmds: seq<Command>, y: System<E>, f: Frame, nak: bool)
    requires AllSendable(cmds) && Joint(g, l, e, cmds, y) && y.pcd.next < |cmds|
  {
    var pcd := Hear(cmds, l, y.pcd, f, nak);
    && Joint(g, l, e, cmds, y.(pcd := pcd))
    && Work(g, l, e, cmds, pcd) < Work(g, l, e, cmds, y.pcd) + (if nak then 1 else 0)
  }

  /** The answer to R(NAK): the reader drops it and repeats the block, unless it is told to
      ask again. */
  lemma AskedAgain<E>(g: Engine<E>, l: Link, e: E, cmds: seq<Command>, y: System<E>, nak: bool)
    requires AllSendable(cmds) && Joint(g, l, e, cmds, y) && y.pcd.next < |cmds| && y.pcd.nak
    requires (Waiting(g, l, e, cmds, y) || Stored(g, l, e, cmds, y)) && CidMatches(y.picc, l)
    ensures MovesOn(g, l, e, cmds, y, NakAnswer(l, y), nak)
  {
    hide Responses, StateAfter, CallsFor, Apdus, Segment, Hear, Waiting, Stored;
    HearNakAnswer(g, l, e, cmds, y, nak);
    RecoverKeeps(g, l, e, cmds, y, false);
    RecoverKeeps(g, l, e, cmds, y, nak);
  }

  lemma NextChunkWaits<E>(g: Engine<E>, l: Link, e: E, cmds: seq<Command>, y: System<E>)
    requires AllSendable(cmds) && PcdOk(cmds, y.pcd) && Stored(g, l, e, cmds, y)
    ensures var pcd := y.pcd.(chunk := y.pcd.chunk + 1, bit := Flip(y.pcd.bit), nak := false);
            PcdOk(cmds, pcd) && Waiting(g, l, e, cmds, y.(pcd := pcd))
  {
    hide Responses, StateAfter, CallsFor, Apdus;
    assert AnsweredBit(Flip(y.pcd.bit), y.pcd.chunk + 1) == AnsweredBit(y.pcd.bit, y.pcd.chunk);
  }

  /** R(ACK) with the block's number: the reader goes on to the next block of the command. */
  lemma HearAck<E>(g: Engine<E>, l: Link, e: E, cmds: seq<Command>, y: System<E>, nak: bool)
    requires AllSendable(cmds) && Joint(g, l, e, cmds, y) && Stored(g, l, e, cmds, y)
    ensures var pcd := Hear(cmds, l, y.pcd, RAck(l, y.pcd.bit), nak);
            && Joint(g, l, e, cmds, y.(pcd := pcd)) && Work(g, l, e, cmds, pcd) < Work(g, l, e, cmds, y.pcd)
  {
    hide Responses, StateAfter, CallsFor, Apdus;
    PcbsDiffer(l, y.pcd.bit);
    NextChunkWaits(g, l, e, cmds, y);
  }

  lemma HearAnswerJoint<E>(g: Engine<E>, l: Link, e: E, cmds: seq<Command>, y: System<E>, nak: bool)
    requires AllSendable(cmds) && Joint(g, l, e, cmds, y) && Answered(g, l, e, cmds, y)
    ensures Joint(g, l, e, cmds, y.(pcd := Hear(cmds, l, y.pcd, AnswerFrame(g, l, e, cmds, y.pcd), nak)))
  {
    hide Responses, StateAfter, CallsFor, Apdus, Segment, Hear;
    HearAnswer(g, l, e, cmds, y, nak);
    var all := Responses(g, l.Size(), e, Apdus(cmds));
    assert all[..y.pcd.next + 1] == all[..y.pcd.next] + [all[y.pcd.next]];
  }

  lemma HeardDuringCommand<E>(g: Engine<E>, l: Link, e: E, cmds: seq<Command>, y: System<E>, nak: bool)
    requires AllSendable(cmds) && Joint(g, l, e, cmds, y) && y.pcd.next < |cmds|
    requires Waiting(g, l, e, cmds, y) || Stored(g, l, e, cmds, y)
    requires y.pcd.nak || !LastChunk(cmds, y.pcd)
    ensures Joint(g, l, e, cmds, Arrived(g, cmds, l, y))
    ensures var frames := Replies(g, cmds, l, y);
            if frames == [] then y.pcd.nak else MovesOn(g, l, e, cmds, Arrived(g, cmds, l, y), frames[0], nak)
  {
    hide OnBlock, Responses, StateAfter, CallsFor, Apdus, Hear;
    ArrivedKeeps(g, l, e, cmds, y);
    assert y.apdus + [] == y.apdus && y.calls + [] == y.calls;
    if y.pcd.nak {
      NakAnswerIs(g, l, e, cmds, y);
      if CidMatches(y.picc, l) { AskedAgain(g, l, e, cmds, y, nak); }
    } else if Stored(g, l, e, cmds, y) {
      StoredBlock(g, l, e, cmds, y);
      HearAck(g, l, e, cmds, y, nak);
    } else {
      WaitingStores(g, l, e, cmds, y);
      HearAck(g, l, e, cmds, Arrived(g, cmds, l, y), nak);
    }
  }

  lemma HeardResponse<E>(g: Engine<E>, l: Link, e: E, cmds: seq<Command>, y: System<E>, nak: bool)
    requires AllSendable(cmds) && Joint(g, l, e, cmds, y) && y.pcd.next < |cmds|
    requires Waiting(g, l, e, cmds, y) ==> !y.pcd.nak && LastChunk(cmds, y.pcd)
    requires !Stored(g, l, e, cmds, y)
    ensures Joint(g, l, e, cmds, Arrived(g, cmds, l, y))
    ensures var frames := Replies(g, cmds, l, y);
            frames != [] && MovesOn(g, l, e, cmds, Arrived(g, cmds, l, y), frames[0], nak)
  {
    hide OnBlock, Responses, StateAfter, CallsFor, Apdus, Hear, Segment;
    ArrivedKeeps(g, l, e, cmds, y);
    var y1 := Arrived(g, cmds, l, y);
    if Waiting(g, l, e, cmds, y) {
      WaitingExecutes(g, l, e, cmds, y);
    } else if Answered(g, l, e, cmds, y) {
      AnsweredBlock(g, l, e, cmds, y);
      assert y.apdus + [] == y.apdus && y.calls + [] == y.calls;
    } else {
      MoreToComeBlock(g, l, e, cmds, y);
    }
    assert Answered(g, l, e, cmds, y1);
    HearAnswerJoint(g, l, e, cmds, y1, nak);
    HearAnswerWork(g, l, e, cmds, y1.pcd, nak);
  }

  lemma RecoverWork<E>(g: Engine<E>, l: Link, e: E, cmds: seq<Command>, r: Pcd, nak: bool)
    requires AllSendable(cmds) && PcdOk(cmds, r) && r.next < |cmds|
    ensures PcdOk(cmds, Recover(cmds, r, nak))
    ensures Work(g, l, e, cmds, Recover(cmds, r, nak)) + (if r.nak then 1 else 0) <= Work(g, l, e, cmds, r) + (if nak then 1 else 0)
  {
  }

  /** Every exchange keeps the invariant. If nothing is lost and R(NAK) is not asked for, it
      takes a unit of work away; asking for R(NAK) adds at most one. */
  lemma ExchangeKeeps<E>(g: Engine<E>, l: Link, e: E, cmds: seq<Command>, y: System<E>, r: Round)
    requires AllSendable(cmds) && Joint(g, l, e, cmds, y)
    ensures var y1 := Exchange(g, cmds, l, y, r);
            && Joint(g, l, e, cmds, y1)
            && (y.pcd.next < |cmds| ==> Work(g, l, e, cmds, y1.pcd) <= Work(g, l, e, cmds, y.pcd) + Progress(r))
  {
    if y.pcd.next < |cmds| {
      RecoverWork(g, l, e, cmds, y.pcd, r.nak);
      if !r.request {
        RecoverKeeps(g, l, e, cmds, y, r.nak);
      } else {
        RequestArrives(g, l, e, cmds, y, r);
      }
    }
  }

  lemma RequestArrives<E>(g: Engine<E>, l: Link, e: E, cmds: seq<Command>, y: System<E>, r: Round)
    requires AllSendable(cmds) && Joint(g, l, e, cmds, y) && y.pcd.next < |cmds| && r.request
    ensures var y1 := Exchange(g, cmds, l, y, r);
            Joint(g, l, e, cmds, y1) && Work(g, l, e, cmds, y1.pcd) <= Work(g, l, e, cmds, y.pcd) + Progress(r)
  {
    hide OnBlock, Responses, StateAfter, CallsFor, Apdus, Hear, Segment, Answered, MoreToCome;
    RecoverWork(g, l, e, cmds, y.pcd, r.nak);
    ArrivedKeeps(g, l, e, cmds, y);
    var y1 := Arrived(g, cmds, l, y);
    var frames := Replies(g, cmds, l, y);
    if (Waiting(g, l, e, cmds, y) || Stored(g, l, e, cmds, y)) && (y.pcd.nak || !LastChunk(cmds, y.pcd)) {
      HeardDuringCommand(g, l, e, cmds, y, r.nak);
    } else {
      HeardResponse(g, l, e, cmds, y, r.nak);
    }
    if r.reply && frames != [] {
      assert Exchange(g, cmds, l, y, r) == y1.(pcd := Hear(cmds, l, y.pcd, frames[0], r.nak));
    } else {
      RecoverKeeps(g, l, e, cmds, y1, r.nak);
    }
  }

  function Clean(rounds: seq<Round>): nat {
    if rounds == [] then 0
    else (if rounds[0].request && rounds[0].reply && !rounds[0].nak then 1 else 0) + Clean(rounds[1..])
  }

  function Naks(rounds: seq<Round>): nat {
    if rounds == [] then 0 else (if rounds[0].nak then 1 else 0) + Naks(rounds[1..])
  }

  lemma {:induction false} RunKeeps<E>(g: Engine<E>, l: Link, e: E, cmds: seq<Command>, y: System<E>, rounds: seq<Round>)
    requires AllSendable(cmds) && Joint(g, l, e, cmds, y)
    ensures var z := RunSession(g, cmds, l, y, rounds);
            && Joint(g, l, e, cmds, z)
            && (z.pcd.next < |cmds| ==>
                  Work(g, l, e, cmds, z.pcd) + Clean(rounds) <= Work(g, l, e, cmds, y.pcd) + Naks(rounds))
    decreases |rounds|
  {
    hide OnBlock, Responses, StateAfter, CallsFor, Apdus, Hear, Segment, Waiting, Answered, MoreToCome, Stored, Work;
    if rounds != [] {
      var y1 := Exchange(g, cmds, l, y, rounds[0]);
      ExchangeKeeps(g, l, e, cmds, y, rounds[0]);
      RunKeeps(g, l, e, cmds, y1, rounds[1..]);
      if y.pcd.next == |cmds| { Idle(g, cmds, l, y, rounds[1..]); }
    }
  }

  lemma {:induction false} Idle<E>(g: Engine<E>, cmds: seq<Command>, l: Link, y: System<E>, rounds: seq<Round>)
    requires AllSendable(cmds) && PcdOk(cmds, y.pcd) && Inv(y.picc) && y.pcd.next == |cmds|
    ensures RunSession(g, cmds, l, y, rounds) == y
    decreases |rounds|
  {
    if rounds != [] { Idle(g, cmds, l, y, rounds[1..]); }
  }

  /** A listener on which no response has been sent and no command is pending, at the
      start of an activation. */
  ghost predicate Activated<E>(s: State<E>) {
    Inv(s) && !s.valid && s.expected == 0 && s.picc == 1 && s.command == [] && s.offset == 0 && !s.cidValid
  }

  lemma InitialJoint<E>(g: Engine<E>, l: Link, cmds: seq<Command>, s: State<E>)
    requires AllSendable(cmds) && Activated(s)
    ensures Joint(g, l, s.engine, cmds, Initial(s))
  {
    assert Waiting(g, l, s.engine, cmds, Initial(s)) by {
      assert Apdus(cmds)[..0] == [];
      if cmds != [] { assert cmds[0][..0] == []; }
    }
  }

  /** A session in which nothing went wrong: the listener ran a prefix of the reader's
      commands, each one once and with its exact bytes, at most one command ahead of the
      reader; the responses the reader holds are the engine's responses, in order; and what it
      holds of the response in progress is the start of that response. */
  ghost predicate Right<E>(g: Engine<E>, l: Link, e: E, cmds: seq<Command>, z: System<E>) {
    && |z.apdus| <= |cmds| && z.pcd.next <= |z.apdus| <= z.pcd.next + 1
    && (forall k | 0 <= k < |z.apdus| :: z.apdus[k] == Concat(cmds[k]))
    && z.calls == CallsFor(g, l.Size(), e, z.apdus)
    && z.picc.engine == StateAfter(g, l.Size(), e, z.apdus)
    && z.pcd.responses == Responses(g, l.Size(), e, z.apdus)[..z.pcd.next]
    && (z.pcd.acc != [] ==>
          z.pcd.next < |z.apdus| && z.pcd.acc <= Responses(g, l.Size(), e, z.apdus)[z.pcd.next])
  }

  /** Every command has run and every response has arrived. */
  ghost predicate Finished<E>(g: Engine<E>, l: Link, e: E, cmds: seq<Command>, z: System<E>) {
    z.apdus == Apdus(cmds) && z.pcd.responses == Responses(g, l.Size(), e, Apdus(cmds))
  }

  /** Exactly once, whatever is lost: every run of a session is right. */
  lemma ExactlyOnce<E>(g: Engine<E>, l: Link, cmds: seq<Command>, s: State<E>, rounds: seq<Round>)
    requires AllSendable(cmds) && Activated(s)
    ensures Right(g, l, s.engine, cmds, RunSession(g, cmds, l, Initial(s), rounds))
  {
    hide Right, RunSession;
    InitialJoint(g, l, cmds, s);
    RunKeeps(g, l, s.engine, cmds, Initial(s), rounds);
    JointMeaning(g, l, s.engine, cmds, RunSession(g, cmds, l, Initial(s), rounds));
  }

  lemma RanMeaning<E>(g: Engine<E>, l: Link, e: E, cmds: seq<Command>, z: System<E>, k: nat)
    requires z.pcd.next <= k <= |cmds| && Ran(g, l.Size(), e, cmds, z, k)
    requires z.pcd.responses == Responses(g, l.Size(), e, Apdus(cmds))[..z.pcd.next]
    ensures |z.apdus| == k && z.apdus == Apdus(cmds)[..k]
    ensures z.calls == CallsFor(g, l.Size(), e, z.apdus) && z.picc.engine == StateAfter(g, l.Size(), e, z.apdus)
    ensures z.pcd.responses == Responses(g, l.Size(), e, z.apdus)[..z.pcd.next]
    ensures forall i | 0 <= i < k :: Responses(g, l.Size(), e, z.apdus)[i] == Responses(g, l.Size(), e, Apdus(cmds))[i]
  {
    ResponsesPrefix(g, l.Size(), e, Apdus(cmds), k);
    var all := Responses(g, l.Size(), e, Apdus(cmds));
    assert all[..k][..z.pcd.next] == all[..z.pcd.next];
  }

  lemma JointMeaning<E>(g: Engine<E>, l: Link, e: E, cmds: seq<Command>, z: System<E>)
    requires AllSendable(cmds) && Joint(g, l, e, cmds, z)
    ensures Right(g, l, e, cmds, z)
    ensures z.pcd.next == |cmds| ==> Finished(g, l, e, cmds, z)
  {
    hide Responses, StateAfter, CallsFor;
    if Waiting(g, l, e, cmds, z) || Stored(g, l, e, cmds, z) {
      RanMeaning(g, l, e, cmds, z, z.pcd.next);
    } else {
      RanMeaning(g, l, e, cmds, z, z.pcd.next + 1);
    }
    assert Apdus(cmds)[..|cmds|] == Apdus(cmds);
  }

  /** Delivery: once the clean exchanges outnumber the R(NAK) recoveries by the number of
      blocks the session needs, every command has run and every response has arrived. */
  lemma Delivery<E>(g: Engine<E>, l: Link, cmds: seq<Command>, s: State<E>, rounds: seq<Round>)
    requires AllSendable(cmds) && Activated(s)
    requires Clean(rounds) >= WorkFrom(g, l, s.engine, cmds, 0) + Naks(rounds)
    ensures Finished(g, l, s.engine, cmds, RunSession(g, cmds, l, Initial(s), rounds))
  {
    hide Right, Finished, RunSession;
    InitialJoint(g, l, cmds, s);
    RunKeeps(g, l, s.engine, cmds, Initial(s), rounds);
    var z := RunSession(g, cmds, l, Initial(s), rounds);
    assert Work(g, l, s.engine, cmds, Initial(s).pcd) == WorkFrom(g, l, s.engine, cmds, 0);
    JointMeaning(g, l, s.engine, cmds, z);
  }
}
