/** What becomes of a session in which the reader took a block of the first command for
    received that the listener never got. The listener refuses the block after it with what the
    reader believes to be its acknowledgement, so that both are lost. */
module LostBlocks {
  import opened Bytes
  import opened Limits
  import opened Engine
  import opened IsoDep
  import opened IsoDepLemmas
  import opened Server
  import opened Session
  import opened SessionProof
  import opened SessionTheorems

  /** An exchange in which nothing is lost. */
  const CLEAN := Round(true, true, false)

  /** The reader is one block past block j of its first command, for which the listener waits. */
  ghost predicate Skipped<E>(l: Link, e: E, cmds: seq<Command>, j: nat, y: System<E>) {
    var r, s := y.pcd, y.picc;
    && cmds != [] && PcdOk(cmds, r) && Inv(s) && j % 2 == 1
    && r.next == 0 && r.chunk == j + 1 && !r.receiving && r.acc == [] && r.responses == []
    && !s.valid && s.expected == Flip(r.bit) && s.picc == Flip(r.bit) && s.offset == 0
    && s.command == Concat(cmds[0][..j]) && s.command != [] && CidMatches(s, l)
    && y.apdus == [] && y.calls == [] && s.engine == e
  }

  lemma SkippedBlock<E>(g: Engine<E>, l: Link, e: E, cmds: seq<Command>, j: nat, y: System<E>)
    requires Skipped(l, e, cmds, j, y)
    ensures OnBlock(g, y.picc, Outstanding(cmds, l, y.pcd))
         == Answer(y.picc, RAck(l, if y.pcd.nak then Flip(y.pcd.bit) else y.pcd.bit))
  {
    var r := y.pcd;
    if r.nak {
      OnRBlockIs(g, y.picc, l, r.bit);
      RPcbBits(l, r.bit);
    } else {
      OnIBlockIs(g, y.picc, l, r.bit, !LastChunk(cmds, r), cmds[0][r.chunk]);
      IPcbBits(l, r.bit, !LastChunk(cmds, r));
    }
  }

  /** The reader moves on to the block after the next, unless it is at its last block: then
      nothing happens any more. */
  lemma SkippedExchange<E>(g: Engine<E>, l: Link, e: E, cmds: seq<Command>, j: nat, y: System<E>, r: Round)
    requires AllSendable(cmds) && Skipped(l, e, cmds, j, y)
    ensures var y1 := Exchange(g, cmds, l, y, r);
            || (y1 == y.(pcd := y.pcd.(nak := y1.pcd.nak)) && Skipped(l, e, cmds, j, y1))
            || (!LastChunk(cmds, y.pcd)
                && y1 == y.(pcd := y.pcd.(chunk := j + 2, bit := Flip(y.pcd.bit), nak := false)))
    ensures !LastChunk(cmds, y.pcd) && !y.pcd.nak && r == CLEAN ==> Exchange(g, cmds, l, y, r).pcd.chunk == j + 2
  {
    hide OnBlock;
    SkippedBlock(g, l, e, cmds, j, y);
    PcbsDiffer(l, y.pcd.bit);
    assert y.apdus + [] == y.apdus && y.calls + [] == y.calls;
    ExchangeOk(g, cmds, l, y, r);
  }

  /** With one block left the first command never completes, whatever happens. */
  lemma {:induction false} Stuck<E>(g: Engine<E>, l: Link, e: E, cmds: seq<Command>, j: nat, y: System<E>, rounds: seq<Round>)
    requires AllSendable(cmds) && Skipped(l, e, cmds, j, y) && LastChunk(cmds, y.pcd)
    ensures var z := RunSession(g, cmds, l, y, rounds);
            z == y.(pcd := y.pcd.(nak := z.pcd.nak))
    decreases |rounds|
  {
    hide Exchange;
    if rounds != [] {
      SkippedExchange(g, l, e, cmds, j, y, rounds[0]);
      Stuck(g, l, e, cmds, j, Exchange(g, cmds, l, y, rounds[0]), rounds[1..]);
    }
  }

  lemma StuckIsRight<E>(g: Engine<E>, l: Link, e: E, cmds: seq<Command>, j: nat, y: System<E>, rounds: seq<Round>)
    requires AllSendable(cmds) && Skipped(l, e, cmds, j, y) && LastChunk(cmds, y.pcd)
    ensures Right(g, l, e, cmds, RunSession(g, cmds, l, y, rounds))
    ensures !Finished(g, l, e, cmds, RunSession(g, cmds, l, y, rounds))
  {
    hide RunSession;
    Stuck(g, l, e, cmds, j, y, rounds);
  }

  // ----- With more blocks left the session goes on, with another command -----

  /** A command without blocks j and j + 1. */
  function Without(c: Command, j: nat): Command
    requires j + 2 <= |c|
  {
    c[..j] + c[j + 2..]
  }

  function Shortened(cmds: seq<Command>, j: nat): seq<Command>
    requires cmds != [] && j + 2 <= |cmds[0]|
  {
    cmds[0 := Without(cmds[0], j)]
  }

  lemma WithoutIsShorter(c: Command, j: nat)
    requires Sendable(c) && 0 < j && j + 2 <= |c|
    ensures Sendable(Without(c, j)) && |Concat(Without(c, j))| < |Concat(c)|
  {
    var gap := c[j..j + 2];
    assert c == c[..j] + gap + c[j + 2..];
    ConcatAppend(c[..j], gap);
    ConcatAppend(c[..j] + gap, c[j + 2..]);
    ConcatAppend(c[..j], c[j + 2..]);
    assert gap[0] == c[j] && Concat(gap) == gap[0] + Concat(gap[1..]);
  }

  lemma ShortenedSendable(cmds: seq<Command>, j: nat)
    requires cmds != [] && AllSendable(cmds) && 0 < j && j + 2 <= |cmds[0]|
    ensures AllSendable(Shortened(cmds, j))
    ensures Concat(Shortened(cmds, j)[0]) != Concat(cmds[0])
  {
    WithoutIsShorter(cmds[0], j);
  }

  /** The same place in the shortened first command. */
  function Back(r: Pcd): Pcd {
    if r.next == 0 && r.chunk >= 2 then r.(chunk := r.chunk - 2) else r
  }

  function Shifted<E>(y: System<E>): System<E> {
    y.(pcd := Back(y.pcd))
  }

  ghost predicate Beyond(cmds: seq<Command>, j: nat, r: Pcd) {
    && cmds != [] && 0 < j && j + 2 < |cmds[0]| && PcdOk(cmds, r) && (r.next == 0 ==> r.chunk >= j + 2)
  }

  lemma BackIs(cmds: seq<Command>, l: Link, j: nat, r: Pcd)
    requires Beyond(cmds, j, r)
    ensures var cs, r1 := Shortened(cmds, j), Back(r);
            && PcdOk(cs, r1) && r1.next == r.next && |cs| == |cmds|
            && (r.next < |cmds| ==>
                  && LastChunk(cs, r1) == LastChunk(cmds, r) && NakHarmless(cs, r1) == NakHarmless(cmds, r)
                  && Outstanding(cs, l, r1) == Outstanding(cmds, l, r))
  {
    hide IBlock, RAck, RNak;
  }

  lemma BackRecover(cmds: seq<Command>, l: Link, j: nat, r: Pcd, nak: bool)
    requires Beyond(cmds, j, r) && r.next < |cmds|
    ensures Recover(Shortened(cmds, j), Back(r), nak) == Back(Recover(cmds, r, nak))
    ensures Beyond(cmds, j, Recover(cmds, r, nak))
  {
    hide Outstanding;
    BackIs(cmds, l, j, r);
  }

  lemma BackCollect(cmds: seq<Command>, l: Link, j: nat, r: Pcd, f: seq<byte>, more: bool)
    requires Beyond(cmds, j, r) && l.Size() <= |f|
    ensures Collect(l, Back(r), f, more) == Back(Collect(l, r, f, more))
  {
  }

  lemma HearBeyond(cmds: seq<Command>, l: Link, j: nat, r: Pcd, f: seq<byte>, nak: bool)
    requires AllSendable(cmds) && Beyond(cmds, j, r) && r.next < |cmds|
    ensures Beyond(cmds, j, Hear(cmds, l, r, f, nak))
  {
    hide IPcb, RAck, Prologue, PcdOk, NakHarmless;
    HearOk(cmds, l, r, f, nak);
  }

  lemma BackHear(cmds: seq<Command>, l: Link, j: nat, r: Pcd, f: seq<byte>, nak: bool)
    requires AllSendable(cmds) && Beyond(cmds, j, r) && r.next < |cmds|
    ensures PcdOk(Shortened(cmds, j), Back(r))
    ensures Hear(Shortened(cmds, j), l, Back(r), f, nak) == Back(Hear(cmds, l, r, f, nak))
  {
    hide Outstanding, IPcb, RAck, Prologue, Collect, Recover, PcdOk, NakHarmless;
    BackIs(cmds, l, j, r);
    BackRecover(cmds, l, j, r, nak);
    if l.Size() <= |f| {
      BackCollect(cmds, l, j, r, f, true);
      BackCollect(cmds, l, j, r, f, false);
    }
  }

  /** Past the gap a session behaves as a session of the shortened commands. */
  lemma ShiftExchange<E>(g: Engine<E>, l: Link, cmds: seq<Command>, j: nat, y: System<E>, r: Round)
    requires AllSendable(cmds) && Beyond(cmds, j, y.pcd) && Inv(y.picc)
    ensures PcdOk(Shortened(cmds, j), Back(y.pcd))
    ensures Exchange(g, Shortened(cmds, j), l, Shifted(y), r) == Shifted(Exchange(g, cmds, l, y, r))
    ensures Beyond(cmds, j, Exchange(g, cmds, l, y, r).pcd)
  {
    hide OnBlock, Hear, Recover, Outstanding;
    BackIs(cmds, l, j, y.pcd);
    if y.pcd.next < |cmds| {
      BackRecover(cmds, l, j, y.pcd, r.nak);
      var frames := Replies(g, cmds, l, y);
      if frames != [] {
        BackHear(cmds, l, j, y.pcd, frames[0], r.nak);
        HearBeyond(cmds, l, j, y.pcd, frames[0], r.nak);
      }
    }
  }

  lemma {:induction false} ShiftRun<E>(g: Engine<E>, l: Link, cmds: seq<Command>, j: nat, y: System<E>, rounds: seq<Round>)
    requires AllSendable(cmds) && Beyond(cmds, j, y.pcd) && AllSendable(Shortened(cmds, j)) && Inv(y.picc)
    ensures PcdOk(Shortened(cmds, j), Back(y.pcd))
    ensures RunSession(g, Shortened(cmds, j), l, Shifted(y), rounds) == Shifted(RunSession(g, cmds, l, y, rounds))
    decreases |rounds|
  {
    hide Exchange, Shifted;
    ShiftedIs(y);
    BackIs(cmds, l, j, y.pcd);
    if rounds != [] {
      ShiftExchange(g, l, cmds, j, y, rounds[0]);
      ExchangeOk(g, cmds, l, y, rounds[0]);
      ShiftRun(g, l, cmds, j, Exchange(g, cmds, l, y, rounds[0]), rounds[1..]);
    }
  }

  lemma ShiftedIs<E>(y: System<E>)
    ensures Shifted(y).pcd == Back(y.pcd) && Shifted(y).picc == y.picc
  {
  }

  /** Once past the gap, listener and reader agree again, on the shortened commands. */
  lemma PastTheGap<E>(g: Engine<E>, l: Link, e: E, cmds: seq<Command>, j: nat, y: System<E>)
    requires AllSendable(cmds) && Skipped(l, e, cmds, j, y) && !LastChunk(cmds, y.pcd)
    ensures var y1 := y.(pcd := y.pcd.(chunk := j + 2, bit := Flip(y.pcd.bit), nak := false));
            && AllSendable(Shortened(cmds, j)) && Beyond(cmds, j, y1.pcd)
            && PcdOk(Shortened(cmds, j), Back(y1.pcd)) && Waiting(g, l, e, Shortened(cmds, j), Shifted(y1))
            && Joint(g, l, e, Shortened(cmds, j), Shifted(y1))
  {
    var y1 := y.(pcd := y.pcd.(chunk := j + 2, bit := Flip(y.pcd.bit), nak := false));
    var cs := Shortened(cmds, j);
    ShortenedSendable(cmds, j);
    BackIs(cmds, l, j, y1.pcd);
    assert cs[0][..j] == cmds[0][..j];
    assert Apdus(cs)[..0] == [];
    assert Waiting(g, l, e, cs, Shifted(y1));
  }

  /** Whatever happens, from there on every run is right, but for the shortened commands: the
      APDU that reaches the engine lacks the lost block and the one after it. */
  lemma {:induction false} RightForShortened<E>(g: Engine<E>, l: Link, e: E, cmds: seq<Command>, j: nat, y: System<E>,
                                                rounds: seq<Round>)
    requires AllSendable(cmds) && Skipped(l, e, cmds, j, y) && !LastChunk(cmds, y.pcd)
    ensures Right(g, l, e, Shortened(cmds, j), RunSession(g, cmds, l, y, rounds))
    decreases |rounds|
  {
    hide Exchange, Skipped, LastChunk, Shortened, Waiting, Joint;
    SkippedFields(l, e, cmds, j, y);
    PastTheGap(g, l, e, cmds, j, y);
    if rounds == [] {
      RightNow(g, l, e, Shortened(cmds, j), y);
    } else {
      SkippedExchange(g, l, e, cmds, j, y, rounds[0]);
      var y1 := Exchange(g, cmds, l, y, rounds[0]);
      ExchangeOk(g, cmds, l, y, rounds[0]);
      if y1.pcd.chunk == j + 2 {
        RightBeyond(g, l, e, cmds, j, y1, rounds[1..]);
      } else {
        SameChunk(cmds, y.pcd, y1.pcd);
        RightForShortened(g, l, e, cmds, j, y1, rounds[1..]);
      }
    }
  }

  lemma SkippedFields<E>(l: Link, e: E, cmds: seq<Command>, j: nat, y: System<E>)
    requires Skipped(l, e, cmds, j, y)
    ensures cmds != [] && PcdOk(cmds, y.pcd) && Inv(y.picc) && y.pcd.next == 0 && y.pcd.chunk == j + 1
    ensures y.pcd.acc == [] && y.pcd.responses == [] && y.apdus == [] && y.calls == [] && y.picc.engine == e
  {
  }

  lemma SameChunk(cmds: seq<Command>, r: Pcd, r1: Pcd)
    requires cmds != [] && r.next == 0 && r1 == r.(nak := r1.nak)
    ensures LastChunk(cmds, r) == LastChunk(cmds, r1)
  {
  }

  lemma RightNow<E>(g: Engine<E>, l: Link, e: E, cmds: seq<Command>, y: System<E>)
    requires y.pcd.next == 0 && y.pcd.acc == [] && y.pcd.responses == []
    requires y.apdus == [] && y.calls == [] && y.picc.engine == e
    ensures Right(g, l, e, cmds, y)
  {
  }

  lemma RightBeyond<E>(g: Engine<E>, l: Link, e: E, cmds: seq<Command>, j: nat, y: System<E>, rounds: seq<Round>)
    requires AllSendable(cmds) && Beyond(cmds, j, y.pcd) && Inv(y.picc) && AllSendable(Shortened(cmds, j))
    requires PcdOk(Shortened(cmds, j), Back(y.pcd)) && Joint(g, l, e, Shortened(cmds, j), Shifted(y))
    ensures Right(g, l, e, Shortened(cmds, j), RunSession(g, cmds, l, y, rounds))
  {
    hide Joint, RunSession, Shortened;
    var cs := Shortened(cmds, j);
    ShiftRun(g, l, cmds, j, y, rounds);
    RunKeeps(g, l, e, cs, Shifted(y), rounds);
    JointMeaning(g, l, e, cs, RunSession(g, cs, l, Shifted(y), rounds));
  }

  // ----- Clean rounds finish a session -----

  function CleanRounds(n: nat): (rounds: seq<Round>)
    ensures |rounds| == n
  {
    if n == 0 then [] else [CLEAN] + CleanRounds(n - 1)
  }

  lemma {:induction false} CountClean(n: nat)
    ensures Clean(CleanRounds(n)) == n && Naks(CleanRounds(n)) == 0
  {
    if n > 0 { CountClean(n - 1); }
  }

  lemma CleanFinishes<E>(g: Engine<E>, l: Link, e: E, cmds: seq<Command>, y: System<E>)
    requires AllSendable(cmds) && Joint(g, l, e, cmds, y)
    ensures Finished(g, l, e, cmds, RunSession(g, cmds, l, y, CleanRounds(Work(g, l, e, cmds, y.pcd))))
  {
    hide Finished, Right, RunSession, Waiting, Stored, Answered, MoreToCome, WorkFrom, Body, Responses;
    var n := Work(g, l, e, cmds, y.pcd);
    CountClean(n);
    RunKeeps(g, l, e, cmds, y, CleanRounds(n));
    JointMeaning(g, l, e, cmds, RunSession(g, cmds, l, y, CleanRounds(n)));
  }

  /** And it does reach the engine, once enough gets through. */
  lemma WrongCommandRuns<E>(g: Engine<E>, l: Link, e: E, cmds: seq<Command>, j: nat, y: System<E>) returns (rounds: seq<Round>)
    requires AllSendable(cmds) && Skipped(l, e, cmds, j, y) && !LastChunk(cmds, y.pcd) && !y.pcd.nak
    ensures var z := RunSession(g, cmds, l, y, rounds);
            z.apdus == Apdus(Shortened(cmds, j)) && !Right(g, l, e, cmds, z)
  {
    hide Exchange, LastChunk, Waiting, Joint, Work;
    SkippedFields(l, e, cmds, j, y);
    SkippedExchange(g, l, e, cmds, j, y, CLEAN);
    PastTheGap(g, l, e, cmds, j, y);
    var y1, cs := Exchange(g, cmds, l, y, CLEAN), Shortened(cmds, j);
    ExchangeOk(g, cmds, l, y, CLEAN);
    var more := CleanRounds(Work(g, l, e, cs, Back(y1.pcd)));
    rounds := [CLEAN] + more;
    assert rounds[1..] == more;
    CleanFinishes(g, l, e, cs, Shifted(y1));
    ShiftRun(g, l, cmds, j, y1, more);
    ShortenedSendable(cmds, j);
    assert Apdus(cs)[0] == Concat(cs[0]);
  }
}
