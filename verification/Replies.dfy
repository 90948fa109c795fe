/** The listener's answer to every block, told from the blocks a reader can build: what is
    sent, and every field of the state after it. */
module Replies {
  import opened Bytes
  import opened Limits
  import opened Engine
  import opened IsoDep
  import opened IsoDepLemmas
  import opened Runs
  import opened Session
  import opened SessionProof

  /** The blocks, octet by octet (section 7.1 of ISO/IEC 14443-4). */
  lemma BlockForms(n: Bit, more: bool, c: byte, inf: seq<byte>)
    ensures IBlock(NoCid, n, more, inf) == [(if more then 0x12 else 0x02) | n] + inf
    ensures IBlock(Cid(c), n, more, inf) == [(if more then 0x1A else 0x0A) | n, c] + inf
    ensures RAck(NoCid, n) == [0xA2 | n] && RAck(Cid(c), n) == [0xAA | n, c]
    ensures RNak(NoCid, n) == [0xB2 | n] && RNak(Cid(c), n) == [0xBA | n, c]
    ensures Deselect(NoCid) == [0xC2] && Deselect(Cid(c)) == [0xCA, c]
    ensures NoCid.Size() == 1 && Cid(c).Size() == 2 && Flip(0) == 1 && Flip(1) == 0
  {
    assert n == 0 || n == 1;
  }

  /** A block under another CID is only taken before the first response or stored block, and
      then its CID is the bound one. */
  lemma ReplyToI<E>(g: Engine<E>, s: State<E>, l: Link, n: Bit, more: bool, inf: seq<byte>)
    requires Inv(s)
    ensures var o := OnBlock(g, s, IBlock(l, n, more, inf));
            var same := s.cidValid == l.Cid? && (l.Cid? ==> s.cid == l.cid);
            var b := if same then s else s.(cidValid := l.Cid?, cid := if l.Cid? then l.cid else 0);
            if !same && (s.valid || s.command != []) then o == Out(s, [], [], [])
            else if n != s.expected then
              o == Out(b, [if s.command != [] then RAck(l, n) else if s.valid then s.lastFrame else RNak(l, s.expected)],
                       [], [])
            else if s.offset != 0 || inf == [] then o == Out(b, [RNak(l, n)], [], [])
            else if (more || s.command != []) && |s.command| + |inf| > WORKER_MAX then
              o == Out(b.(command := []), [RNak(l, n)], [], [])
            else if more then
              o == Out(b.(command := s.command + inf, expected := Flip(n)), [RAck(l, n)], [], [])
            else
              var d := Dispatch(g, l.Size(), s.engine, s.command + inf);
              && o.frames == [Segment(l, n, d.body)] && o.apdus == [s.command + inf] && o.calls == d.calls
              && o.state == b.(command := [], engine := d.state, valid := true, picc := n, expected := Flip(n),
                               lastFrame := Segment(l, n, d.body), tx := Prologue(l, IPcb(n, false)) + d.body,
                               offset := if l.Size() + |d.body| > 62 then 62 else 0)
  {
    hide Execute, Dispatch, Segment, RAck, RNak;
    if Linked(l, s) {
      OnIBlockIs(g, s, l, n, more, inf);
      IPcbBits(l, n, more);
      if n == s.expected && s.offset == 0 && inf != [] && !more && (s.command == [] || |s.command + inf| <= WORKER_MAX) {
        TakeExecutes(g, s, l, n, inf);
      }
    } else {
      IBlockParts(l, n, more, inf);
      IPcbBits(l, n, more);
    }
  }

  /** R(ACK) and R(NAK): the last frame again, the next one, an acknowledgement, or nothing. */
  lemma ReplyToR<E>(g: Engine<E>, s: State<E>, l: Link, n: Bit, nak: bool)
    requires Inv(s)
    ensures var o := OnBlock(g, s, if nak then RNak(l, n) else RAck(l, n));
            if s.cidValid != l.Cid? || (l.Cid? && s.cid != l.cid) then o == Out(s, [], [], [])
            else if s.valid && n == s.picc then o == Out(s, [s.lastFrame], [], [])
            else if s.offset != 0 && !nak then
              && s.offset <= |s.tx|
              && var rest := s.tx[s.offset..];
                 && o.frames == [Segment(l, n, rest)] && o.apdus == [] && o.calls == []
                 && o.state == s.(picc := n, expected := Flip(n), lastFrame := Segment(l, n, rest),
                                  offset := if l.Size() + |rest| > 62 then s.offset + 62 - l.Size() else 0)
            else o == Out(s, if nak then [RAck(l, s.picc)] else [], [], [])
  {
    hide Segment;
    OnRBlockIs(g, s, l, n);
    RPcbBits(l, n);
    if s.offset != 0 {
      ContinuedIsNextSegment(s);
    }
  }

  /** DESELECT under the bound CID is echoed and ends the activation. */
  lemma ReplyToDeselect<E>(g: Engine<E>, s: State<E>, l: Link)
    requires Inv(s)
    ensures OnBlock(g, s, Deselect(l))
         == if s.cidValid != l.Cid? || (l.Cid? && s.cid != l.cid) then Out(s, [], [], [])
            else Out(s.(engine := g.reset(s.engine), valid := false, expected := 0, picc := 1, command := [], offset := 0,
                        cidValid := false), [Deselect(l)], [], [])
  {
    hide OnIBlock, OnRBlock;
    var rx := Deselect(l);
    assert rx[0] == 0xC2 || rx[0] == 0xCA;
    assert LinkOf(rx) == l;
  }

  /** The two PPS blocks that keep 106 kbit/s are answered with their first octet. */
  lemma ReplyToPps<E>(g: Engine<E>, s: State<E>, rx: seq<byte>)
    requires Inv(s) && rx != [] && rx[0] & 0xF0 == 0xD0
    ensures OnBlock(g, s, rx)
         == Out(s, if rx[1..] == [0x01] || rx[1..] == [0x11, 0x00] then [[rx[0]]] else [], [], [])
  {
    hide OnIBlock, OnRBlock;
    assert |rx| == 2 ==> rx[1..] == [rx[1]];
    assert |rx| == 3 ==> rx[1..] == [rx[1], rx[2]];
  }

  ghost predicate Known(rx: seq<byte>) {
    || (exists l, n, more, inf :: rx == IBlock(l, n, more, inf))
    || (exists l, n :: rx == RAck(l, n)) || (exists l, n :: rx == RNak(l, n))
    || (exists l :: rx == Deselect(l))
    || (rx != [] && rx[0] & 0xF0 == 0xD0)
  }

  /** Anything else is ignored. */
  lemma OthersIgnored<E>(g: Engine<E>, s: State<E>, rx: seq<byte>)
    requires Inv(s) && !Known(rx)
    ensures OnBlock(g, s, rx) == Out(s, [], [], [])
  {
    hide TakeIBlock, IBlock, RAck, RNak, Deselect;
    if Decodable(rx) {
      var pcb := rx[0];
      if pcb & 0xE6 == 0xA2 && |rx| == PrefixLen(pcb) {
        RForm(rx);
      }
      DeselectForm(rx);
      if pcb & 0xE2 == 0x02 && pcb & NAD_MASK == 0 {
        IBlockForm(rx);
      }
    }
  }

  /** A halt and a loss of field send nothing, reset the engine and leave nothing but the old
      CID and response behind, both out of use. */
  lemma ReplyToReset<E>(g: Engine<E>, s: State<E>, ev: Event)
    requires Inv(s) && !ev.Received?
    ensures Step(g, s, ev)
         == Out(State(false, 0, 1, [], [], 0, false, s.cid, s.tx, g.reset(s.engine)), [], [], [])
  {
  }

  /** Whatever block ends an activation is sent back as it came. */
  lemma EndIsEchoed<E>(g: Engine<E>, s: State<E>, rx: seq<byte>)
    requires Inv(s) && BlockMeaning(s, rx) == Ended
    ensures OnBlock(g, s, rx).frames == [rx]
  {
    hide OnBlock, IBlock, RAck;
    ReplyToDeselect(g, s, LinkOf(rx));
  }
}
