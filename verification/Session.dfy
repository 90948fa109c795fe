/** A reader and the listener over a link that may lose any block in either direction. */
module Session {
  import opened Bytes
  import opened Limits
  import opened Engine
  import opened IsoDep
  import opened IsoDepLemmas
  import opened Server

  /** A command as the reader sends it: the information fields of its blocks. */
  type Command = seq<seq<byte>>

  /** Nonempty blocks, and a chained command that the listener can store. */
  predicate Sendable(c: Command) {
    && c != [] && (forall i | 0 <= i < |c| :: c[i] != [])
    && (|c| == 1 || |Concat(c)| <= WORKER_MAX)
  }

  predicate AllSendable(cmds: seq<Command>) {
    forall k | 0 <= k < |cmds| :: Sendable(cmds[k])
  }

  function Apdus(cmds: seq<Command>): (r: seq<seq<byte>>)
    ensures |r| == |cmds|
  {
    seq(|cmds|, k requires 0 <= k < |cmds| => Concat(cmds[k]))
  }

  /** The reader: which block of which command is outstanding under which number, whether
      it is collecting a response or recovering with R(NAK), and what it has received. */
  datatype Pcd = Pcd(
    next: nat,
    chunk: nat,
    bit: Bit,
    receiving: bool,
    nak: bool,
    acc: seq<byte>,
    responses: seq<seq<byte>>)

  predicate PcdOk(cmds: seq<Command>, r: Pcd) {
    && r.next <= |cmds|
    && (r.next < |cmds| ==> r.chunk < |cmds[r.next]|)
    && (r.next == |cmds| ==> !r.receiving)
    && (r.nak ==> r.next < |cmds| && !r.receiving && NakHarmless(cmds, r))
  }

  predicate LastChunk(cmds: seq<Command>, r: Pcd)
    requires r.next < |cmds|
  {
    r.chunk == |cmds[r.next]| - 1
  }

  /** The positions at which R(NAK) for a lost block does no harm: the even ones, single-block
      commands included; and, for want of a reader that would believe the answer, the odd ones
      that are last in the first command or not last in a later one. */
  predicate NakHarmless(cmds: seq<Command>, r: Pcd)
    requires r.next < |cmds|
  {
    r.chunk % 2 == 0 || (r.next > 0 <==> !LastChunk(cmds, r))
  }

  /** The block the reader sends next. */
  function Outstanding(cmds: seq<Command>, l: Link, r: Pcd): seq<byte>
    requires PcdOk(cmds, r) && r.next < |cmds|
  {
    if r.receiving then RAck(l, r.bit)
    else if r.nak then RNak(l, r.bit)
    else IBlock(l, r.bit, !LastChunk(cmds, r), cmds[r.next][r.chunk])
  }

  /** No usable answer: repeat the outstanding block, or ask with R(NAK) wherever that does no
      harm; lemma NakRecovery.NakExactly says why not elsewhere. */
  function Recover(cmds: seq<Command>, r: Pcd, nak: bool): Pcd
    requires r.next < |cmds|
  {
    r.(nak := nak && !r.receiving && NakHarmless(cmds, r))
  }

  /** A response block arrived. */
  function Collect(l: Link, r: Pcd, f: seq<byte>, more: bool): Pcd
    requires l.Size() <= |f|
  {
    var acc := r.acc + f[l.Size()..];
    if more then r.(acc := acc, bit := Flip(r.bit), receiving := true, nak := false)
    else Pcd(r.next + 1, 0, Flip(r.bit), false, false, [], r.responses + [acc])
  }

  /** The reader's reaction to a block. */
  function Hear(cmds: seq<Command>, l: Link, r: Pcd, f: seq<byte>, nak: bool): Pcd
    requires PcdOk(cmds, r) && r.next < |cmds|
  {
    var answering := r.receiving || LastChunk(cmds, r);
    if answering && StartsWith(f, l, IPcb(r.bit, false)) then Collect(l, r, f, false)
    else if answering && StartsWith(f, l, IPcb(r.bit, true)) then Collect(l, r, f, true)
    else if !answering && f == RAck(l, r.bit) then r.(chunk := r.chunk + 1, bit := Flip(r.bit), nak := false)
    else if !r.receiving && f == RAck(l, Flip(r.bit)) then r.(nak := false)
    else Recover(cmds, r, nak)
  }

  /** One exchange: does the reader's block arrive, does the answer arrive, and how would
      the reader recover if it hears nothing. */
  datatype Round = Round(request: bool, reply: bool, nak: bool)

  datatype System<E> = System(pcd: Pcd, picc: State<E>, apdus: seq<seq<byte>>, calls: seq<Call>)

  function Initial<E>(s: State<E>): System<E> {
    System(Pcd(0, 0, 0, false, false, [], []), s, [], [])
  }

  /** The outstanding block arrived; the reader has not heard anything yet. */
  function Arrived<E>(g: Engine<E>, cmds: seq<Command>, l: Link, y: System<E>): System<E>
    requires PcdOk(cmds, y.pcd) && Inv(y.picc) && y.pcd.next < |cmds|
  {
    var o := OnBlock(g, y.picc, Outstanding(cmds, l, y.pcd));
    System(y.pcd, o.state, y.apdus + o.apdus, y.calls + o.calls)
  }

  function Replies<E>(g: Engine<E>, cmds: seq<Command>, l: Link, y: System<E>): seq<Frame>
    requires PcdOk(cmds, y.pcd) && Inv(y.picc) && y.pcd.next < |cmds|
  {
    OnBlock(g, y.picc, Outstanding(cmds, l, y.pcd)).frames
  }

  function Exchange<E>(g: Engine<E>, cmds: seq<Command>, l: Link, y: System<E>, r: Round): System<E>
    requires PcdOk(cmds, y.pcd) && Inv(y.picc)
  {
    if y.pcd.next == |cmds| then y
    else if !r.request then y.(pcd := Recover(cmds, y.pcd, r.nak))
    else
      var frames := Replies(g, cmds, l, y);
      Arrived(g, cmds, l, y).(pcd := if r.reply && frames != [] then Hear(cmds, l, y.pcd, frames[0], r.nak)
                                     else Recover(cmds, y.pcd, r.nak))
  }

  /** The number of the last response frame, given the number of a command block and its position. */
  function AnsweredBit(bit: Bit, chunk: nat): Bit {
    if chunk % 2 == 0 then Flip(bit) else bit
  }

  ghost predicate Linked<E>(l: Link, s: State<E>) {
    CidMatches(s, l) || (!s.valid && s.command == [])
  }

  /** k commands were handed over and run. */
  ghost predicate Ran<E>(g: Engine<E>, p: nat, e: E, cmds: seq<Command>, y: System<E>, k: nat)
    requires k <= |cmds|
  {
    && y.apdus == Apdus(cmds)[..k]
    && y.calls == CallsFor(g, p, e, Apdus(cmds)[..k])
    && y.picc.engine == StateAfter(g, p, e, Apdus(cmds)[..k])
  }

  /** The listener is still waiting for the outstanding command block. */
  ghost predicate Waiting<E>(g: Engine<E>, l: Link, e: E, cmds: seq<Command>, y: System<E>)
    requires PcdOk(cmds, y.pcd)
  {
    var r, s := y.pcd, y.picc;
    && !r.receiving && r.acc == [] && s.expected == r.bit && s.offset == 0 && s.picc == AnsweredBit(r.bit, r.chunk)
    && Linked(l, s) && (s.command != [] || s.valid ==> CidMatches(s, l))
    && Ran(g, l.Size(), e, cmds, y, r.next) && (s.valid <==> r.next > 0)
    && (if r.next < |cmds| then s.command == Concat(cmds[r.next][..r.chunk]) else s.command == [] && r.chunk == 0)
  }

  /** The listener has the outstanding block of a chained command, and it is not the last. */
  ghost predicate Stored<E>(g: Engine<E>, l: Link, e: E, cmds: seq<Command>, y: System<E>)
    requires PcdOk(cmds, y.pcd)
  {
    var r, s := y.pcd, y.picc;
    && r.next < |cmds| && !LastChunk(cmds, r)
    && !r.receiving && r.acc == [] && s.expected == Flip(r.bit) && s.offset == 0
    && s.picc == AnsweredBit(r.bit, r.chunk) && CidMatches(s, l)
    && Ran(g, l.Size(), e, cmds, y, r.next) && (s.valid <==> r.next > 0)
    && s.command == Concat(cmds[r.next][..r.chunk + 1])
  }

  /** The engine's response to command k of the session. */
  function Body<E>(g: Engine<E>, l: Link, e: E, cmds: seq<Command>, k: nat): seq<byte>
    requires k < |cmds|
  {
    Responses(g, l.Size(), e, Apdus(cmds))[k]
  }

  /** Common to the two phases of a response: the reader has a part of it. */
  ghost predicate Responding<E>(g: Engine<E>, l: Link, e: E, cmds: seq<Command>, y: System<E>)
    requires PcdOk(cmds, y.pcd)
  {
    var r, s := y.pcd, y.picc;
    && r.next < |cmds| && LastChunk(cmds, r)
    && s.valid && s.command == [] && CidMatches(s, l)
    && Ran(g, l.Size(), e, cmds, y, r.next + 1)
    && |r.acc| <= |Body(g, l, e, cmds, r.next)| && r.acc == Body(g, l, e, cmds, r.next)[..|r.acc|]
    && (r.receiving <==> r.acc != [])
    && (s.offset != 0 ==> l.Size() <= |s.tx| && s.tx[l.Size()..] == Body(g, l, e, cmds, r.next))
  }

  /** The listener's last frame answers the outstanding block. */
  ghost predicate Answered<E>(g: Engine<E>, l: Link, e: E, cmds: seq<Command>, y: System<E>)
    requires PcdOk(cmds, y.pcd)
  {
    var r, s := y.pcd, y.picc;
    && Responding(g, l, e, cmds, y)
    && s.picc == r.bit && s.expected == Flip(r.bit)
    && var rest := Body(g, l, e, cmds, r.next)[|r.acc|..];
       var k := ChunkLen(l, |rest|);
       && s.lastFrame == Segment(l, r.bit, rest)
       && s.offset == if k < |rest| then l.Size() + |r.acc| + k else 0
  }

  /** The listener waits for R(ACK) to send the next part of the response. */
  ghost predicate MoreToCome<E>(g: Engine<E>, l: Link, e: E, cmds: seq<Command>, y: System<E>)
    requires PcdOk(cmds, y.pcd)
  {
    var r, s := y.pcd, y.picc;
    && Responding(g, l, e, cmds, y)
    && r.receiving && s.picc == Flip(r.bit) && s.expected == r.bit && s.offset == l.Size() + |r.acc|
  }

  /** What every exchange keeps. */
  ghost predicate Joint<E>(g: Engine<E>, l: Link, e: E, cmds: seq<Command>, y: System<E>) {
    && PcdOk(cmds, y.pcd) && Inv(y.picc)
    && y.pcd.responses == Responses(g, l.Size(), e, Apdus(cmds))[..y.pcd.next]
    && (|| Waiting(g, l, e, cmds, y) || Stored(g, l, e, cmds, y)
        || Answered(g, l, e, cmds, y) || MoreToCome(g, l, e, cmds, y))
  }
}
