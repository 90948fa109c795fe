/** Every exchange keeps the joint invariant of reader and listener. */
module SessionProof {
  import opened Bytes
  import opened Limits
  import opened Engine
  import opened IsoDep
  import opened IsoDepLemmas
  import opened Server
  import opened Session

  lemma OnIBlockIs<E>(g: Engine<E>, s: State<E>, l: Link, n: Bit, more: bool, inf: seq<byte>)
    requires Inv(s) && Linked(l, s)
    ensures var pro := Prologue(l, IPcb(n, more));
            var s1 := Settled(s, l);
            && |pro| == PrefixLen(pro[0]) && Inv(s1)
            && OnBlock(g, s, IBlock(l, n, more, inf)) == TakeIBlock(g, s1, l, pro, inf)
  {
    hide TakeIBlock;
    var pro := Prologue(l, IPcb(n, more));
    var rx := IBlock(l, n, more, inf);
    IPcbBits(l, n, more);
    assert rx[0] == pro[0] && rx[..|pro|] == pro && rx[|pro|..] == inf;
    assert LinkOf(rx) == l;
  }

  lemma OnRBlockIs<E>(g: Engine<E>, s: State<E>, l: Link, n: Bit)
    requires Inv(s)
    ensures OnBlock(g, s, RAck(l, n)) == OnRBlock(s, RAck(l, n)[0], l, true)
    ensures OnBlock(g, s, RNak(l, n)) == OnRBlock(s, RNak(l, n)[0], l, true)
  {
    RPcbBits(l, n);
    assert LinkOf(RAck(l, n)) == l && LinkOf(RNak(l, n)) == l;
  }

  /** The frame that answers the outstanding block while a response is being sent. */
  ghost function AnswerFrame<E>(g: Engine<E>, l: Link, e: E, cmds: seq<Command>, r: Pcd): Frame
    requires r.next < |cmds| && |r.acc| <= |Body(g, l, e, cmds, r.next)|
  {
    Segment(l, r.bit, Body(g, l, e, cmds, r.next)[|r.acc|..])
  }

  lemma {:induction false} ConcatBound(c: Command, j: nat)
    requires j <= |c|
    ensures |Concat(c[..j])| <= |Concat(c)|
  {
    ConcatAppend(c[..j], c[j..]);
    assert c[..j] + c[j..] == c;
  }

  lemma StoreNext(c: Command, j: nat)
    requires Sendable(c) && j < |c|
    ensures Concat(c[..j + 1]) == Concat(c[..j]) + c[j]
    ensures j + 1 == |c| ==> Concat(c[..j]) + c[j] == Concat(c)
    ensures |c| > 1 ==> |Concat(c[..j]) + c[j]| <= WORKER_MAX
    ensures j == 0 <==> Concat(c[..j]) == []
  {
    assert c[..j + 1] == c[..j] + [c[j]];
    ConcatSnoc(c[..j], c[j]);
    ConcatBound(c, j + 1);
    if j + 1 == |c| { assert c[..j + 1] == c; }
    if j > 0 { assert Concat(c[..j]) == c[0] + Concat(c[..j][1..]); }
  }

  lemma TakeStores<E>(g: Engine<E>, s: State<E>, l: Link, n: Bit, inf: seq<byte>)
    requires Inv(s) && Linked(l, s) && s.expected == n && s.offset == 0 && inf != []
    requires |s.command + inf| <= WORKER_MAX
    ensures var s1 := Settled(s, l);
            OnBlock(g, s, IBlock(l, n, true, inf))
            == Answer(s1.(command := s.command + inf, expected := Flip(n)), RAck(l, n))
  {
    OnIBlockIs(g, s, l, n, true, inf);
    IPcbBits(l, n, true);
  }

  lemma TakeExecutes<E>(g: Engine<E>, s: State<E>, l: Link, n: Bit, inf: seq<byte>)
    requires Inv(s) && Linked(l, s) && s.expected == n && s.offset == 0 && inf != []
    requires s.command == [] || |s.command + inf| <= WORKER_MAX
    ensures var s1 := Settled(s, l);
            var d := Dispatch(g, l.Size(), s.engine, s.command + inf);
            var k := ChunkLen(l, |d.body|);
            var f := Segment(l, n, d.body);
            OnBlock(g, s, IBlock(l, n, false, inf))
            == Out(s1.(command := [], tx := Prologue(l, IPcb(n, false)) + d.body, engine := d.state, picc := n,
                       expected := Flip(n), lastFrame := f, valid := true,
                       offset := if k < |d.body| then l.Size() + k else 0),
                   [f], [s.command + inf], d.calls)
  {
    hide Dispatch, Segment;
    OnIBlockIs(g, s, l, n, false, inf);
    IPcbBits(l, n, false);
    var s1 := Settled(s, l);
    ExecuteIsFirstSegment(g, s1.(command := []), l, n, s.command + inf);
  }

  lemma BecomesStored<E>(g: Engine<E>, l: Link, e: E, cmds: seq<Command>, y: System<E>, y1: System<E>)
    requires PcdOk(cmds, y.pcd) && Waiting(g, l, e, cmds, y) && y.pcd.next < |cmds| && !LastChunk(cmds, y.pcd)
    requires var r := y.pcd;
             y1 == y.(picc := Settled(y.picc, l).(command := Concat(cmds[r.next][..r.chunk + 1]), expected := Flip(r.bit)))
    ensures Stored(g, l, e, cmds, y1)
  {
  }

  lemma WaitingStores<E>(g: Engine<E>, l: Link, e: E, cmds: seq<Command>, y: System<E>)
    requires AllSendable(cmds) && PcdOk(cmds, y.pcd) && Inv(y.picc) && Waiting(g, l, e, cmds, y)
    requires y.pcd.next < |cmds| && !y.pcd.nak && !LastChunk(cmds, y.pcd)
    ensures Stored(g, l, e, cmds, Arrived(g, cmds, l, y))
    ensures Replies(g, cmds, l, y) == [RAck(l, y.pcd.bit)]
  {
    hide OnBlock, Responses, StateAfter, CallsFor;
    var r := y.pcd;
    var c := cmds[r.next];
    StoreNext(c, r.chunk);
    TakeStores(g, y.picc, l, r.bit, c[r.chunk]);
    BecomesStored(g, l, e, cmds, y, Arrived(g, cmds, l, y));
  }

  /** Running the next command is what the server does next. */
  lemma RunNext<E>(g: Engine<E>, p: nat, e: E, cmds: seq<Command>, y: System<E>, y1: System<E>, k: nat)
    requires k < |cmds| && Ran(g, p, e, cmds, y, k)
    requires var d := Dispatch(g, p, y.picc.engine, Concat(cmds[k]));
             && y1.apdus == y.apdus + [Concat(cmds[k])] && y1.calls == y.calls + d.calls
             && y1.picc.engine == d.state
    ensures Ran(g, p, e, cmds, y1, k + 1)
    ensures Responses(g, p, e, Apdus(cmds))[k] == Dispatch(g, p, y.picc.engine, Concat(cmds[k])).body
  {
    ServeNext(g, p, e, Apdus(cmds), k);
    ResponsesPrefix(g, p, e, Apdus(cmds), k + 1);
    assert Responses(g, p, e, Apdus(cmds))[k] == Responses(g, p, e, Apdus(cmds)[..k + 1])[k];
  }

  lemma BecomesAnswered<E>(g: Engine<E>, l: Link, e: E, cmds: seq<Command>, y: System<E>, y1: System<E>)
    requires AllSendable(cmds) && PcdOk(cmds, y.pcd) && Waiting(g, l, e, cmds, y)
    requires y.pcd.next < |cmds| && LastChunk(cmds, y.pcd)
    requires var r := y.pcd;
             var d := Dispatch(g, l.Size(), y.picc.engine, Concat(cmds[r.next]));
             var k := ChunkLen(l, |d.body|);
             && y1.pcd == r && y1.apdus == y.apdus + [Concat(cmds[r.next])] && y1.calls == y.calls + d.calls
             && y1.picc == Settled(y.picc, l).(command := [], tx := Prologue(l, IPcb(r.bit, false)) + d.body,
                                               engine := d.state, picc := r.bit, expected := Flip(r.bit),
                                               lastFrame := Segment(l, r.bit, d.body), valid := true,
                                               offset := if k < |d.body| then l.Size() + k else 0)
    ensures Answered(g, l, e, cmds, y1)
    ensures AnswerFrame(g, l, e, cmds, y.pcd) == y1.picc.lastFrame
  {
    hide Dispatch, Segment, Responses, StateAfter, CallsFor, Prologue, IPcb, Apdus;
    var r := y.pcd;
    RunNext(g, l.Size(), e, cmds, y, y1, r.next);
    AnswersWith(g, l, e, cmds, y1);
  }

  lemma AnswersWith<E>(g: Engine<E>, l: Link, e: E, cmds: seq<Command>, y: System<E>)
    requires PcdOk(cmds, y.pcd) && y.pcd.next < |cmds| && LastChunk(cmds, y.pcd)
    requires !y.pcd.receiving && y.pcd.acc == [] && Ran(g, l.Size(), e, cmds, y, y.pcd.next + 1)
    requires var r, s := y.pcd, y.picc;
             var body := Body(g, l, e, cmds, r.next);
             var k := ChunkLen(l, |body|);
             && s.valid && s.command == [] && CidMatches(s, l) && s.tx == Prologue(l, IPcb(r.bit, false)) + body
             && s.picc == r.bit && s.expected == Flip(r.bit) && s.lastFrame == Segment(l, r.bit, body)
             && s.offset == if k < |body| then l.Size() + k else 0
    ensures Answered(g, l, e, cmds, y) && AnswerFrame(g, l, e, cmds, y.pcd) == y.picc.lastFrame
  {
    hide Dispatch, Segment, Responses, StateAfter, CallsFor, IPcb, Apdus;
    var body := Body(g, l, e, cmds, y.pcd.next);
    assert body[0..] == body && body[..0] == [];
  }

  lemma WaitingExecutes<E>(g: Engine<E>, l: Link, e: E, cmds: seq<Command>, y: System<E>)
    requires AllSendable(cmds) && PcdOk(cmds, y.pcd) && Inv(y.picc) && Waiting(g, l, e, cmds, y)
    requires y.pcd.next < |cmds| && !y.pcd.nak && LastChunk(cmds, y.pcd)
    ensures Answered(g, l, e, cmds, Arrived(g, cmds, l, y))
    ensures Replies(g, cmds, l, y) == [AnswerFrame(g, l, e, cmds, y.pcd)]
  {
    hide OnBlock, Dispatch, Responses, StateAfter, CallsFor, Segment;
    var r := y.pcd;
    var c := cmds[r.next];
    StoreNext(c, r.chunk);
    TakeExecutes(g, y.picc, l, r.bit, c[r.chunk]);
    BecomesAnswered(g, l, e, cmds, y, Arrived(g, cmds, l, y));
  }

  /** The answer to R(NAK) while a command block is outstanding and no response to it was
      started: the listener compares the number with that of its last response. */
  function NakAnswer<E>(l: Link, y: System<E>): Frame {
    if y.pcd.chunk % 2 == 0 then RAck(l, Flip(y.pcd.bit))
    else if y.picc.valid then y.picc.lastFrame
    else RAck(l, y.pcd.bit)
  }

  /** Before a CID is bound R(NAK) is not answered; it never changes anything. */
  lemma NakAnswerIs<E>(g: Engine<E>, l: Link, e: E, cmds: seq<Command>, y: System<E>)
    requires PcdOk(cmds, y.pcd) && Inv(y.picc) && (Waiting(g, l, e, cmds, y) || Stored(g, l, e, cmds, y))
    ensures OnBlock(g, y.picc, RNak(l, y.pcd.bit))
         == if CidMatches(y.picc, l) then Answer(y.picc, NakAnswer(l, y)) else Silent(y.picc)
  {
    hide Responses, StateAfter, CallsFor, Apdus;
    OnRBlockIs(g, y.picc, l, y.pcd.bit);
    RPcbBits(l, y.pcd.bit);
  }

  /** The last frame of the previous response, which the reader can only mistake for an answer
      to the last block of a command. */
  lemma StaleFrame<E>(s: State<E>, l: Link, n: Bit)
    requires Inv(s) && s.valid && s.offset == 0 && CidMatches(s, l) && s.picc == n
    ensures StartsWith(s.lastFrame, l, IPcb(n, false)) && !StartsWith(s.lastFrame, l, IPcb(n, true))
    ensures s.lastFrame != RAck(l, n) && s.lastFrame != RAck(l, Flip(n))
  {
    assert BoundLink(s) == l;
    PcbsDiffer(l, n);
  }

  /** At a harmless position the reader only learns that it has to repeat the block. */
  lemma HearNakAnswer<E>(g: Engine<E>, l: Link, e: E, cmds: seq<Command>, y: System<E>, nak: bool)
    requires PcdOk(cmds, y.pcd) && Inv(y.picc) && (Waiting(g, l, e, cmds, y) || Stored(g, l, e, cmds, y))
    requires y.pcd.next < |cmds| && CidMatches(y.picc, l) && NakHarmless(cmds, y.pcd)
    ensures Hear(cmds, l, y.pcd, NakAnswer(l, y), nak)
         == if y.pcd.chunk % 2 == 0 then y.pcd.(nak := false) else Recover(cmds, y.pcd, nak)
  {
    hide Responses, StateAfter, CallsFor, Apdus;
    PcbsDiffer(l, y.pcd.bit);
    if y.pcd.chunk % 2 != 0 && y.picc.valid { StaleFrame(y.picc, l, y.pcd.bit); }
  }

  lemma StoredBlock<E>(g: Engine<E>, l: Link, e: E, cmds: seq<Command>, y: System<E>)
    requires AllSendable(cmds) && PcdOk(cmds, y.pcd) && Inv(y.picc) && Stored(g, l, e, cmds, y) && !y.pcd.nak
    ensures OnBlock(g, y.picc, Outstanding(cmds, l, y.pcd)) == Answer(y.picc, RAck(l, y.pcd.bit))
  {
    var r := y.pcd;
    StoreNext(cmds[r.next], r.chunk);
    OnIBlockIs(g, y.picc, l, r.bit, true, cmds[r.next][r.chunk]);
    IPcbBits(l, r.bit, true);
  }

  lemma AnsweredBlock<E>(g: Engine<E>, l: Link, e: E, cmds: seq<Command>, y: System<E>)
    requires PcdOk(cmds, y.pcd) && Inv(y.picc) && Answered(g, l, e, cmds, y)
    ensures OnBlock(g, y.picc, Outstanding(cmds, l, y.pcd)) == Answer(y.picc, AnswerFrame(g, l, e, cmds, y.pcd))
  {
    var r := y.pcd;
    if r.receiving || r.nak {
      OnRBlockIs(g, y.picc, l, r.bit);
      RPcbBits(l, r.bit);
    } else {
      OnIBlockIs(g, y.picc, l, r.bit, false, cmds[r.next][r.chunk]);
      IPcbBits(l, r.bit, false);
    }
  }

  lemma AckContinues<E>(g: Engine<E>, s: State<E>, l: Link, n: Bit)
    requires Inv(s) && s.offset != 0 && CidMatches(s, l) && s.picc == Flip(n)
    ensures var rest := s.tx[s.offset..];
            var k := ChunkLen(l, |rest|);
            var f := Segment(l, n, rest);
            OnBlock(g, s, RAck(l, n))
            == Answer(s.(picc := n, expected := s.picc, lastFrame := f,
                         offset := if k < |rest| then s.offset + k else 0), f)
  {
    OnRBlockIs(g, s, l, n);
    RPcbBits(l, n);
    ContinuedIsNextSegment(s);
    assert BoundLink(s) == l;
  }

  lemma ContinuesAnswered<E>(g: Engine<E>, l: Link, e: E, cmds: seq<Command>, y: System<E>, s1: State<E>)
    requires PcdOk(cmds, y.pcd) && MoreToCome(g, l, e, cmds, y) && y.picc.offset <= |y.picc.tx|
    requires var r, s := y.pcd, y.picc;
             var rest := s.tx[s.offset..];
             var k := ChunkLen(l, |rest|);
             s1 == s.(picc := r.bit, expected := s.picc, lastFrame := Segment(l, r.bit, rest),
                      offset := if k < |rest| then s.offset + k else 0)
    ensures Answered(g, l, e, cmds, y.(picc := s1))
    ensures AnswerFrame(g, l, e, cmds, y.pcd) == s1.lastFrame
  {
    hide Responses, StateAfter, CallsFor, Apdus, Segment;
    var r, s := y.pcd, y.picc;
    assert s.tx[l.Size()..][|r.acc|..] == s.tx[s.offset..];
  }

  lemma MoreToComeBlock<E>(g: Engine<E>, l: Link, e: E, cmds: seq<Command>, y: System<E>)
    requires PcdOk(cmds, y.pcd) && Inv(y.picc) && MoreToCome(g, l, e, cmds, y)
    ensures Answered(g, l, e, cmds, Arrived(g, cmds, l, y))
    ensures Replies(g, cmds, l, y) == [AnswerFrame(g, l, e, cmds, y.pcd)]
  {
    hide OnBlock, Responses, StateAfter, CallsFor, Apdus, Segment;
    var r, s := y.pcd, y.picc;
    AckContinues(g, s, l, r.bit);
    var s1 := OnBlock(g, s, RAck(l, r.bit)).state;
    ContinuesAnswered(g, l, e, cmds, y, s1);
    assert Arrived(g, cmds, l, y) == y.(picc := s1);
  }

  lemma PcbsDiffer(l: Link, n: Bit)
    ensures Prologue(l, IPcb(n, true)) != Prologue(l, IPcb(n, false))
    ensures RAck(l, n) != RAck(l, Flip(n))
    ensures forall m: Bit, more: bool, f: seq<byte> {:trigger StartsWith(f, l, IPcb(n, more)), RAck(l, m)} ::
              StartsWith(f, l, IPcb(n, more)) ==> f != RAck(l, m)
  {
    IPcbBits(l, n, true);
    IPcbBits(l, n, false);
    RPcbBits(l, n);
    RPcbBits(l, Flip(n));
  }

  lemma HearSegment(cmds: seq<Command>, l: Link, r: Pcd, rest: seq<byte>, nak: bool)
    requires PcdOk(cmds, r) && r.next < |cmds| && (r.receiving || LastChunk(cmds, r))
    ensures var k := ChunkLen(l, |rest|);
            Hear(cmds, l, r, Segment(l, r.bit, rest), nak)
            == if k < |rest| then r.(acc := r.acc + rest[..k], bit := Flip(r.bit), receiving := true, nak := false)
               else Pcd(r.next + 1, 0, Flip(r.bit), false, false, [], r.responses + [r.acc + rest])
  {
    var k := ChunkLen(l, |rest|);
    var f := Segment(l, r.bit, rest);
    SegmentStarts(l, r.bit, rest);
    PcbsDiffer(l, r.bit);
    assert f[l.Size()..] == rest[..k];
    assert rest[..|rest|] == rest;
  }

  lemma HeardPart<E>(g: Engine<E>, l: Link, e: E, cmds: seq<Command>, y: System<E>, pcd: Pcd)
    requires PcdOk(cmds, y.pcd) && Answered(g, l, e, cmds, y)
    requires var r := y.pcd;
             var rest := Body(g, l, e, cmds, r.next)[|r.acc|..];
             var k := ChunkLen(l, |rest|);
             && k < |rest|
             && pcd == r.(acc := r.acc + rest[..k], bit := Flip(r.bit), receiving := true, nak := false)
    ensures PcdOk(cmds, pcd) && MoreToCome(g, l, e, cmds, y.(pcd := pcd)) && |y.pcd.acc| < |pcd.acc|
  {
    hide Responses, StateAfter, CallsFor, Apdus, Segment;
    assert pcd.acc == Body(g, l, e, cmds, pcd.next)[..|pcd.acc|];
  }

  lemma HeardAll<E>(g: Engine<E>, l: Link, e: E, cmds: seq<Command>, y: System<E>, pcd: Pcd)
    requires AllSendable(cmds) && PcdOk(cmds, y.pcd) && Answered(g, l, e, cmds, y)
    requires var r := y.pcd;
             var rest := Body(g, l, e, cmds, r.next)[|r.acc|..];
             && ChunkLen(l, |rest|) == |rest|
             && pcd == Pcd(r.next + 1, 0, Flip(r.bit), false, false, [], r.responses + [r.acc + rest])
    ensures PcdOk(cmds, pcd) && Waiting(g, l, e, cmds, y.(pcd := pcd))
    ensures pcd.responses == y.pcd.responses + [Body(g, l, e, cmds, y.pcd.next)]
  {
    hide Responses, StateAfter, CallsFor, Apdus, Segment;
    var body := Body(g, l, e, cmds, y.pcd.next);
    assert body[..|y.pcd.acc|] + body[|y.pcd.acc|..] == body;
    if y.pcd.next + 1 < |cmds| {
      assert Concat(cmds[y.pcd.next + 1][..0]) == [];
    }
  }

  /** The reader hears the answer to the outstanding block, and moves on. */
  lemma HearAnswer<E>(g: Engine<E>, l: Link, e: E, cmds: seq<Command>, y: System<E>, nak: bool)
    requires AllSendable(cmds) && PcdOk(cmds, y.pcd) && Answered(g, l, e, cmds, y)
    ensures var r := y.pcd;
            var pcd := Hear(cmds, l, r, AnswerFrame(g, l, e, cmds, r), nak);
            && PcdOk(cmds, pcd) && !pcd.nak
            && (pcd.receiving ==>
                  && MoreToCome(g, l, e, cmds, y.(pcd := pcd))
                  && pcd.next == r.next && pcd.responses == r.responses && |r.acc| < |pcd.acc|)
            && (!pcd.receiving ==>
                  && Waiting(g, l, e, cmds, y.(pcd := pcd))
                  && pcd.next == r.next + 1 && pcd.responses == r.responses + [Body(g, l, e, cmds, r.next)])
  {
    var r := y.pcd;
    var rest := Body(g, l, e, cmds, r.next)[|r.acc|..];
    HearSegment(cmds, l, r, rest, nak);
    var pcd := Hear(cmds, l, r, AnswerFrame(g, l, e, cmds, r), nak);
    if pcd.receiving {
      HeardPart(g, l, e, cmds, y, pcd);
    } else {
      HeardAll(g, l, e, cmds, y, pcd);
    }
  }
}
