/** Facts about single steps: the bit patterns, and the invariant. */
module IsoDepLemmas {
  import opened Bytes
  import opened Limits
  import opened Engine
  import opened IsoDep

  lemma IPcbBits(l: Link, n: Bit, more: bool)
    ensures var pcb := Prologue(l, IPcb(n, more))[0];
            && pcb & 1 == n && (pcb & CHAINING != 0) == more && (pcb & CID_MASK != 0) == l.Cid?
            && pcb & 0xE2 == 0x02 && pcb & NAD_MASK == 0 && pcb & 0xC0 == 0 && pcb & 0xF0 != 0xD0
  {
  }

  lemma RPcbBits(l: Link, n: Bit)
    ensures var pcb := RAck(l, n)[0];
            && pcb & 1 == n && pcb & CHAINING == 0 && (pcb & CID_MASK != 0) == l.Cid?
            && pcb & 0xE6 == 0xA2 && pcb & 0xC0 == 0x80 && pcb & 0xF0 != 0xD0
    ensures var pcb := RNak(l, n)[0];
            && pcb & 1 == n && pcb & CHAINING != 0 && (pcb & CID_MASK != 0) == l.Cid?
            && pcb & 0xE6 == 0xA2 && pcb & 0xC0 == 0x80 && pcb & 0xF0 != 0xD0
  {
  }

  /** An accepted control byte is exactly the I-block control byte of its own fields. */
  lemma IPcbForm(block: seq<byte>)
    requires block != [] && PrefixLen(block[0]) <= |block|
    requires block[0] & 0xE2 == 0x02 && block[0] & NAD_MASK == 0
    ensures StartsWith(block, LinkOf(block), IPcb(block[0] & 1, block[0] & CHAINING != 0))
  {
    var pcb := block[0];
    assert pcb == IPcb(pcb & 1, pcb & CHAINING != 0) | (pcb & CID_MASK);
    assert pcb & CID_MASK == 0 || pcb & CID_MASK == CID_MASK;
  }

  /** How much of a response the next frame carries when rest of it is left. */
  function ChunkLen(l: Link, rest: nat): nat {
    if FRAME_MAX - l.Size() < rest then FRAME_MAX - l.Size() else rest
  }

  /** The frame that carries the head of rest. */
  function Segment(l: Link, n: Bit, rest: seq<byte>): (f: Frame) {
    var k := ChunkLen(l, |rest|);
    IBlock(l, n, k < |rest|, rest[..k])
  }

  lemma MaskedPcb(l: Link, m: Bit, n: Bit, more: bool)
    ensures Renumbered(Prologue(l, IPcb(m, false))[0], n, more) == Prologue(l, IPcb(n, more))[0]
  {
  }

  lemma NextResponseIsSegment<E>(s: State<E>, l: Link, n: Bit)
    requires StartsWith(s.tx, l, IPcb(n, false)) && l.Size() <= s.offset <= |s.tx|
    ensures PrefixLen(s.tx[0]) == l.Size()
    ensures var rest := s.tx[s.offset..];
            var k := ChunkLen(l, |rest|);
            NextResponse(s) == Answer(s.(lastFrame := Segment(l, s.picc, rest), valid := true,
                                         offset := if k < |rest| then s.offset + k else 0),
                                      Segment(l, s.picc, rest))
  {
    IPcbBits(l, n, false);
    assert s.tx[0] == Prologue(l, IPcb(n, false))[0] by { assert s.tx[..l.Size()][0] == s.tx[0]; }
    var rest := s.tx[s.offset..];
    var k := ChunkLen(l, |rest|);
    var more := k < |rest|;
    MaskedPcb(l, n, s.picc, more);
    assert [Renumbered(s.tx[0], s.picc, more)] + s.tx[1..l.Size()] == Prologue(l, IPcb(s.picc, more)) by {
      if l.Cid? { assert s.tx[1] == s.tx[..2][1]; }
    }
    assert s.tx[s.offset..s.offset + k] == rest[..k];
  }

  lemma SegmentStarts(l: Link, n: Bit, rest: seq<byte>)
    ensures StartsWith(Segment(l, n, rest), l, IPcb(n, ChunkLen(l, |rest|) < |rest|))
    ensures |Segment(l, n, rest)| == l.Size() + ChunkLen(l, |rest|)
  {
  }

  /** A completed command is answered with the first segment of its response, numbered
      like the block that completed it. */
  lemma ExecuteIsFirstSegment<E>(g: Engine<E>, s: State<E>, l: Link, n: Bit, apdu: seq<byte>)
    requires |Prologue(l, IPcb(n, false))| == PrefixLen(Prologue(l, IPcb(n, false))[0])
    ensures var r := Dispatch(g, l.Size(), s.engine, apdu);
            var k := ChunkLen(l, |r.body|);
            var f := Segment(l, s.expected, r.body);
            Execute(g, s, Prologue(l, IPcb(n, false)), apdu)
            == Out(s.(tx := Prologue(l, IPcb(n, false)) + r.body, engine := r.state, picc := s.expected,
                      expected := Flip(s.expected), lastFrame := f, valid := true,
                      offset := if k < |r.body| then l.Size() + k else 0),
                   [f], [apdu], r.calls)
  {
    var pro := Prologue(l, IPcb(n, false));
    var r := Dispatch(g, l.Size(), s.engine, apdu);
    var s1 := s.(tx := pro + r.body, engine := r.state);
    IPcbBits(l, n, false);
    assert (pro + r.body)[..l.Size()] == pro;
    assert (pro + r.body)[l.Size()..] == r.body;
    NextResponseIsSegment(s1.(picc := s.expected, expected := Flip(s.expected), offset := l.Size()), l, n);
  }

  lemma ExecuteInv<E>(g: Engine<E>, s: State<E>, n: Bit, apdu: seq<byte>)
    requires Inv(s) && s.command == []
    requires |Prologue(BoundLink(s), IPcb(n, false))| == PrefixLen(Prologue(BoundLink(s), IPcb(n, false))[0])
    ensures Inv(Execute(g, s, Prologue(BoundLink(s), IPcb(n, false)), apdu).state)
  {
    var l := BoundLink(s);
    var r := Dispatch(g, l.Size(), s.engine, apdu);
    ExecuteIsFirstSegment(g, s, l, n, apdu);
    SegmentStarts(l, s.expected, r.body);
    var o := Execute(g, s, Prologue(l, IPcb(n, false)), apdu);
    assert StartsWith(o.state.tx, l, IPcb(n, false));
  }

  lemma TakeIBlockInv<E>(g: Engine<E>, s: State<E>, n: Bit, more: bool, inf: seq<byte>)
    requires Inv(s) && |Prologue(BoundLink(s), IPcb(n, more))| == PrefixLen(Prologue(BoundLink(s), IPcb(n, more))[0])
    ensures var o := TakeIBlock(g, s, BoundLink(s), Prologue(BoundLink(s), IPcb(n, more)), inf);
            Inv(o.state) && |o.frames| <= 1 && |o.apdus| <= 1
  {
    hide Execute, Dispatch, Segment;
    var l := BoundLink(s);
    IPcbBits(l, n, more);
    if !more {
      var s1 := s.(command := []);
      assert Inv(s1);
      ExecuteInv(g, s1, n, s.command + inf);
      ExecuteIsFirstSegment(g, s1, l, n, s.command + inf);
    }
  }

  lemma ContinuedIsNextSegment<E>(s: State<E>)
    requires Inv(s) && s.offset != 0
    ensures var rest := s.tx[s.offset..];
            var k := ChunkLen(BoundLink(s), |rest|);
            var f := Segment(BoundLink(s), Flip(s.picc), rest);
            Continued(s) == Answer(s.(picc := Flip(s.picc), expected := s.picc, lastFrame := f,
                                      offset := if k < |rest| then s.offset + k else 0), f)
    ensures Inv(Continued(s).state)
  {
    var l := BoundLink(s);
    var n: Bit :| StartsWith(s.tx, l, IPcb(n, false));
    NextResponseIsSegment(s.(picc := Flip(s.picc)), l, n);
    SegmentStarts(l, Flip(s.picc), s.tx[s.offset..]);
  }

  lemma RBlockInv<E>(s: State<E>, pcb: byte, l: Link, bare: bool)
    requires Inv(s)
    ensures var o := OnRBlock(s, pcb, l, bare);
            Inv(o.state) && |o.frames| <= 1 && o.apdus == [] && o.calls == []
  {
    if s.offset != 0 { ContinuedIsNextSegment(s); }
  }

  lemma IBlockInv<E>(g: Engine<E>, s: State<E>, block: seq<byte>)
    requires Inv(s) && block != [] && PrefixLen(block[0]) <= |block|
    ensures var p := PrefixLen(block[0]);
            var o := OnIBlock(g, s, LinkOf(block), block[..p], block[p..]);
            Inv(o.state) && |o.frames| <= 1 && |o.apdus| <= 1
  {
    hide TakeIBlock;
    var pcb, l := block[0], LinkOf(block);
    if pcb & 0xE2 == 0x02 && pcb & NAD_MASK == 0 {
      IPcbForm(block);
      var prologue, inf := block[..PrefixLen(pcb)], block[PrefixLen(pcb)..];
      var s1 := Settled(s, l);
      if s1 == s || (!s.valid && s.command == []) {
        assert BoundLink(s1) == l;
        TakeIBlockInv(g, s1, pcb & 1, pcb & CHAINING != 0, inf);
      }
    }
  }

  /** Every step keeps the invariant, sends at most one frame and completes at most one APDU. */
  lemma StepInv<E>(g: Engine<E>, s: State<E>, ev: Event)
    requires Inv(s)
    ensures var o := Step(g, s, ev); Inv(o.state) && |o.frames| <= 1 && |o.apdus| <= 1
  {
    hide OnRBlock, OnIBlock;
    if ev.Received? && ev.block != [] && PrefixLen(ev.block[0]) <= |ev.block| {
      assert Inv(Reset(g, s));
      RBlockInv(s, ev.block[0], LinkOf(ev.block), |ev.block| == PrefixLen(ev.block[0]));
      IBlockInv(g, s, ev.block);
    }
  }
}
