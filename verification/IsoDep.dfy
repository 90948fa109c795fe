/** The PICC side of the half-duplex block protocol of ISO/IEC 14443-4, as a step
    function on values. The listener class refines it. */
module IsoDep {
  import opened Bytes
  import opened Limits
  import opened Engine

  const CID_MASK: byte := 0x08
  const NAD_MASK: byte := 0x04
  const CHAINING: byte := 0x10

  type Frame = f: seq<byte> | |f| <= FRAME_MAX witness []

  /** Which card identifier a block carries, if any. */
  datatype Link = NoCid | Cid(cid: byte) {
    function Size(): nat {
      if Cid? then 2 else 1
    }
  }

  function MakeLink(useCid: bool, cid: byte): Link {
    if useCid then Cid(cid) else NoCid
  }

  /** The start of a block: control byte, then the CID when one is used. */
  function Prologue(l: Link, pcb: byte): (f: Frame)
    ensures |f| == l.Size()
  {
    if l.Cid? then [pcb | CID_MASK, l.cid] else [pcb]
  }

  function IPcb(n: Bit, more: bool): byte {
    0x02 | n | (if more then CHAINING else 0)
  }

  function IBlock(l: Link, n: Bit, more: bool, inf: seq<byte>): seq<byte> {
    Prologue(l, IPcb(n, more)) + inf
  }

  function RAck(l: Link, n: Bit): Frame {
    Prologue(l, 0xA2 | n)
  }

  function RNak(l: Link, n: Bit): Frame {
    Prologue(l, 0xB2 | n)
  }

  function Deselect(l: Link): Frame {
    Prologue(l, 0xC2)
  }

  /** The state the listener keeps between blocks. */
  datatype State<E> = State(
    valid: bool,
    expected: Bit,
    picc: Bit,
    lastFrame: Frame,
    command: seq<byte>,
    offset: nat,
    cidValid: bool,
    cid: byte,
    tx: seq<byte>,
    engine: E)

  /** One step: the next state, what was sent, which APDUs were completed, and the engine calls. */
  datatype Out<E> = Out(state: State<E>, frames: seq<Frame>, apdus: seq<seq<byte>>, calls: seq<Call>)

  function Silent<E>(s: State<E>): Out<E> {
    Out(s, [], [], [])
  }

  function Answer<E>(s: State<E>, f: Frame): Out<E> {
    Out(s, [f], [], [])
  }

  function Fresh<E>(e: E): State<E> {
    State(false, 0, 1, [], [], 0, false, 0, [], e)
  }

  predicate CidMatches<E>(s: State<E>, l: Link) {
    s.cidValid == l.Cid? && (l.Cid? ==> l.cid == s.cid)
  }

  /** The link the bound CID describes. */
  function BoundLink<E>(s: State<E>): Link {
    MakeLink(s.cidValid, s.cid)
  }

  /** The first block of an activation settles the CID. */
  function Bind<E>(s: State<E>, l: Link): State<E> {
    s.(cidValid := l.Cid?, cid := if l.Cid? then l.cid else 0)
  }

  function Settled<E>(s: State<E>, l: Link): State<E> {
    if CidMatches(s, l) then s else Bind(s, l)
  }

  function PrefixLen(pcb: byte): nat {
    if pcb & CID_MASK != 0 then 2 else 1
  }

  function LinkOf(block: seq<byte>): Link
    requires block != [] && PrefixLen(block[0]) <= |block|
  {
    if block[0] & CID_MASK != 0 then Cid(block[1]) else NoCid
  }

  ghost predicate Inv<E>(s: State<E>) {
    && |s.command| <= WORKER_MAX
    && |s.tx| <= BYTEBUF_MAX
    && (!s.valid ==> s.picc == 1)
    && (s.valid ==> StartsWith(s.lastFrame, BoundLink(s), IPcb(s.picc, s.offset != 0)))
    && (s.offset != 0 ==>
          && s.valid && s.command == [] && s.expected == Flip(s.picc)
          && BoundLink(s).Size() < s.offset < |s.tx|
          && exists n: Bit :: StartsWith(s.tx, BoundLink(s), IPcb(n, false)))
  }

  predicate StartsWith(f: seq<byte>, l: Link, pcb: byte) {
    l.Size() <= |f| && f[..l.Size()] == Prologue(l, pcb)
  }

  /** A control byte with its number and chaining bits replaced. */
  function Renumbered(pcb: byte, n: Bit, more: bool): byte {
    (pcb & 0xEE) | n | (if more then CHAINING else 0)
  }

  /** A frame with the prologue of a response and chunk bytes of it. */
  function FrameOf(tx: seq<byte>, p: nat, offset: nat, chunk: nat, n: Bit, more: bool): (f: Frame)
    requires 1 <= p <= |tx| && offset + chunk <= |tx| && p + chunk <= FRAME_MAX
    ensures |f| == p + chunk
  {
    [Renumbered(tx[0], n, more)] + tx[1..p] + tx[offset..offset + chunk]
  }

  /** The next frame of the response in tx, from the offset on. */
  function NextResponse<E>(s: State<E>): Out<E>
    requires s.tx != []
    requires PrefixLen(s.tx[0]) <= |s.tx| ==> s.offset <= |s.tx|
  {
    var p := PrefixLen(s.tx[0]);
    if |s.tx| < p then Silent(s)
    else
      var remaining := |s.tx| - s.offset;
      var chunk := if FRAME_MAX - p < remaining then FRAME_MAX - p else remaining;
      var more := chunk < remaining;
      var frame := FrameOf(s.tx, p, s.offset, chunk, s.picc, more);
      Answer(s.(lastFrame := frame, offset := if more then s.offset + chunk else 0, valid := true), frame)
  }

  /** Start sending the response in tx. */
  function StartResponse<E>(s: State<E>): Out<E>
    requires s.tx != [] ==> PrefixLen(s.tx[0]) <= |s.tx|
  {
    if s.tx == [] then Silent(s)
    else NextResponse(s.(picc := s.expected, expected := Flip(s.expected), offset := PrefixLen(s.tx[0])))
  }

  function OnPps<E>(s: State<E>, rx: seq<byte>): Out<E>
    requires rx != []
  {
    if (|rx| == 2 && rx[1] == 0x01) || (|rx| == 3 && rx[1] == 0x11 && rx[2] == 0x00)
    then Answer(s, [rx[0]]) else Silent(s)
  }

  /** The next frame of a response that is still being sent, under the next number. */
  function Continued<E>(s: State<E>): Out<E>
    requires Inv(s) && s.offset != 0
  {
    var o := NextResponse(s.(picc := Flip(s.picc)));
    o.(state := o.state.(expected := Flip(o.state.picc)))
  }

  function OnRBlock<E>(s: State<E>, pcb: byte, l: Link, bare: bool): Out<E>
    requires Inv(s)
  {
    if pcb & 0xE6 != 0xA2 || !bare then Silent(s)
    else if !CidMatches(s, l) then Silent(s)
    else if s.valid && pcb & 1 == s.picc then Answer(s, s.lastFrame)
    else if s.offset != 0 && pcb & CHAINING == 0 then
      Continued(s)
    else if pcb & CHAINING != 0 then Answer(s, RAck(l, s.picc))
    else Silent(s)
  }

  /** The activation ends: everything but the stale frame, CID and response is reset. */
  function Reset<E>(g: Engine<E>, s: State<E>): State<E> {
    s.(engine := g.reset(s.engine), valid := false, expected := 0, picc := 1, command := [], offset := 0,
       cidValid := false)
  }

  function OnSBlock<E>(g: Engine<E>, s: State<E>, rx: Frame, pcb: byte, l: Link, bare: bool): Out<E> {
    if pcb & 0xF7 == 0xC2 && bare && CidMatches(s, l) then Answer(Reset(g, s), rx) else Silent(s)
  }

  /** A complete command: run it and start its response. */
  function Execute<E>(g: Engine<E>, s: State<E>, prologue: seq<byte>, apdu: seq<byte>): Out<E>
    requires prologue != [] && |prologue| == PrefixLen(prologue[0])
  {
    var r := Dispatch(g, |prologue|, s.engine, apdu);
    var o := StartResponse(s.(tx := prologue + r.body, engine := r.state));
    Out(o.state, o.frames, [apdu], r.calls)
  }

  /** An I-block that is not numbered as expected. */
  function OutOfSequence<E>(s: State<E>, l: Link, n: Bit): Out<E> {
    if s.valid && s.command == [] then Answer(s, s.lastFrame)
    else Answer(s, if s.command != [] then RAck(l, n) else RNak(l, s.expected))
  }

  /** An I-block that is numbered as expected. */
  function InSequence<E>(g: Engine<E>, s: State<E>, l: Link, prologue: seq<byte>, inf: seq<byte>): Out<E>
    requires Inv(s) && prologue != [] && |prologue| == PrefixLen(prologue[0])
  {
    var more := prologue[0] & CHAINING != 0;
    if s.offset != 0 || inf == [] then Answer(s, RNak(l, s.expected))
    else if (more || s.command != []) && WORKER_MAX - |s.command| < |inf| then
      Answer(s.(command := []), RNak(l, s.expected))
    else if more then
      Answer(s.(command := s.command + inf, expected := Flip(s.expected)), RAck(l, prologue[0] & 1))
    else Execute(g, s.(command := []), prologue, s.command + inf)
  }

  /** An I-block whose CID has been settled. */
  function TakeIBlock<E>(g: Engine<E>, s: State<E>, l: Link, prologue: seq<byte>, inf: seq<byte>): Out<E>
    requires Inv(s) && prologue != [] && |prologue| == PrefixLen(prologue[0])
  {
    if prologue[0] & 1 != s.expected then OutOfSequence(s, l, prologue[0] & 1)
    else InSequence(g, s, l, prologue, inf)
  }

  function OnIBlock<E>(g: Engine<E>, s: State<E>, l: Link, prologue: seq<byte>, inf: seq<byte>): Out<E>
    requires Inv(s) && prologue != [] && |prologue| == PrefixLen(prologue[0])
  {
    if prologue[0] & 0xE2 != 0x02 || prologue[0] & NAD_MASK != 0 then Silent(s)
    else if !CidMatches(s, l) && (s.valid || s.command != []) then Silent(s)
    else TakeIBlock(g, Settled(s, l), l, prologue, inf)
  }

  function OnBlock<E>(g: Engine<E>, s: State<E>, rx: seq<byte>): Out<E>
    requires Inv(s)
  {
    if rx == [] then Silent(s)
    else
      var pcb := rx[0];
      var p := PrefixLen(pcb);
      if |rx| < p then Silent(s)
      else
        var l := LinkOf(rx);
        if pcb & 0xF0 == 0xD0 then OnPps(s, rx)
        else if pcb & 0xC0 == 0x80 then OnRBlock(s, pcb, l, |rx| == p)
        else if pcb & 0xC0 == 0xC0 then
          if |rx| == p then OnSBlock(g, s, rx, pcb, l, true) else Silent(s)
        else OnIBlock(g, s, l, rx[..p], rx[p..])
  }

  /** What reaches the listener callback. */
  datatype Event = Received(block: seq<byte>) | Halted | FieldOff

  function Step<E>(g: Engine<E>, s: State<E>, ev: Event): Out<E>
    requires Inv(s)
  {
    match ev
    case Received(rx) => OnBlock(g, s, rx)
    case Halted => Silent(Reset(g, s).(lastFrame := []))
    case FieldOff => Silent(Reset(g, s).(lastFrame := []))
  }
}
