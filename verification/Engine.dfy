/** The card engine as the listener sees it, and the ISO 7816 unwrapping around it.
    The engine itself is arbitrary: four total functions over a state type E. It writes
    a response only by appending to the response buffer, so an answer is a list of appends. */
module Engine {
  import opened Bytes
  import opened Limits

  const CLA_STANDARD: byte := 0x00
  const CLA_WRAPPER: byte := 0x90
  const STATUS_LENGTH_ERROR: byte := 0x7E

  datatype SelectReply<E> = SelectReply(handled: bool, state: E, appends: seq<seq<byte>>)

  datatype CommandReply<E> = CommandReply(state: E, appends: seq<seq<byte>>)

  datatype Engine<!E> = Engine(
    select: (E, seq<byte>) -> SelectReply<E>,
    command: (E, seq<byte>) -> CommandReply<E>,
    wrap: seq<byte> -> Option<seq<byte>>,
    reset: E -> E)

  datatype Call = SelectCall(apdu: seq<byte>) | NativeCall(command: seq<byte>)

  /** The engine's answer to one APDU: its next state, the response after the block
      prologue, and the calls that were made on it. */
  datatype Reply<E> = Reply(state: E, body: seq<byte>, calls: seq<Call>)

  /** One append to a response that already holds p prologue bytes; an append that does
      not fit is dropped whole. */
  function Appended(p: nat, body: seq<byte>, bytes: seq<byte>): (r: seq<byte>)
    ensures p + |body| <= BYTEBUF_MAX ==> p + |r| <= BYTEBUF_MAX
  {
    if p + |body| + |bytes| <= BYTEBUF_MAX then body + bytes else body
  }

  function AppendedAll(p: nat, body: seq<byte>, appends: seq<seq<byte>>): (r: seq<byte>)
    ensures p + |body| <= BYTEBUF_MAX ==> p + |r| <= BYTEBUF_MAX
    decreases |appends|
  {
    if appends == [] then body else AppendedAll(p, Appended(p, body, appends[0]), appends[1..])
  }

  function LengthError(p: nat, body: seq<byte>): seq<byte> {
    Appended(p, Appended(p, body, [0x91]), [STATUS_LENGTH_ERROR])
  }

  /** The wrapped form of a native response, when there is one and it fits the scratch buffer. */
  function Wrapped<E>(g: Engine<E>, p: nat, body: seq<byte>): (r: seq<byte>)
    ensures p + |body| <= BYTEBUF_MAX ==> p + |r| <= BYTEBUF_MAX
  {
    if body == [] then body
    else
      match g.wrap(body)
      case Some(w) => if p + |w| <= WORKER_MAX then w else body
      case None => body
  }

  predicate IsWrapped(apdu: seq<byte>) {
    5 <= |apdu| && apdu[0] == CLA_WRAPPER
  }

  /** What follows the SELECT attempt: unwrap if wrapped, call the engine, wrap its answer. */
  function RunNative<E>(g: Engine<E>, p: nat, e: E, body: seq<byte>, apdu: seq<byte>): (r: Reply<E>)
    ensures p + |body| <= BYTEBUF_MAX ==> p + |r.body| <= BYTEBUF_MAX
  {
    if IsWrapped(apdu) then
      var lc := apdu[4] as nat;
      if WORKER_MAX - 1 < lc || |apdu| < 5 + lc then Reply(e, LengthError(p, body), [])
      else
        var native := [apdu[1]] + apdu[5..5 + lc];
        var c := g.command(e, native);
        Reply(c.state, Wrapped(g, p, AppendedAll(p, body, c.appends)), [NativeCall(native)])
    else
      var c := g.command(e, apdu);
      Reply(c.state, AppendedAll(p, body, c.appends), [NativeCall(apdu)])
  }

  /** Everything that happens to one complete APDU behind a prologue of p bytes. */
  function Dispatch<E>(g: Engine<E>, p: nat, e: E, apdu: seq<byte>): (r: Reply<E>)
    ensures p <= 2 ==> p + |r.body| <= BYTEBUF_MAX
  {
    if WORKER_MAX < |apdu| then Reply(e, LengthError(p, []), [])
    else if 4 <= |apdu| && apdu[0] == CLA_STANDARD then
      var s := g.select(e, apdu);
      var body := AppendedAll(p, [], s.appends);
      if s.handled then Reply(s.state, body, [SelectCall(apdu)])
      else
        var r := RunNative(g, p, s.state, body, apdu);
        r.(calls := [SelectCall(apdu)] + r.calls)
    else RunNative(g, p, e, [], apdu)
  }

  /** The wrapped command APDU a reader builds: class, instruction, two zero parameters,
      the data with its length, and the optional expected-length byte. */
  function WrappedApdu(ins: byte, lc: byte, data: seq<byte>, le: bool): seq<byte>
    requires lc as nat == |data|
  {
    var tail: seq<byte> := if le then [0] else [];
    if data == [] then [CLA_WRAPPER, ins, 0, 0] + tail else [CLA_WRAPPER, ins, 0, 0, lc] + data + tail
  }

  lemma WrappedShape(ins: byte, lc: byte, data: seq<byte>, le: bool)
    requires lc as nat == |data| && (le || data != [])
    ensures var apdu := WrappedApdu(ins, lc, data, le);
            && IsWrapped(apdu) && apdu[1] == ins && apdu[4] as nat == |data|
            && 5 + |data| <= |apdu| && apdu[5..5 + |data|] == data
  {
    var tail: seq<byte> := if le then [0] else [];
    assert data != [] ==> ([CLA_WRAPPER, ins, 0, 0, lc] + data + tail)[5..5 + |data|] == data;
  }

  /** Appends that fit together are all there, in order. */
  lemma {:induction false} AllFitWhole(p: nat, body: seq<byte>, appends: seq<seq<byte>>)
    ensures p + |body| + |Concat(appends)| <= BYTEBUF_MAX ==> AppendedAll(p, body, appends) == body + Concat(appends)
    decreases |appends|
  {
    if appends == [] {
      assert body + [] == body;
    } else {
      assert body + appends[0] + Concat(appends[1..]) == body + (appends[0] + Concat(appends[1..]));
      AllFitWhole(p, body + appends[0], appends[1..]);
    }
  }

  /** A wrapped command that fits reaches the engine as instruction followed by data,
      once and with nothing else, unless both the data and the length byte are absent:
      those four bytes are too short to count as wrapped and reach the engine raw. */
  lemma WrappedRoundTrip<E>(g: Engine<E>, p: nat, e: E, ins: byte, lc: byte, data: seq<byte>, le: bool)
    requires lc as nat == |data| < WORKER_MAX && |WrappedApdu(ins, lc, data, le)| <= WORKER_MAX
    ensures var r := Dispatch(g, p, e, WrappedApdu(ins, lc, data, le));
            && r.calls == [NativeCall(if le || data != [] then [ins] + data else [CLA_WRAPPER, ins, 0, 0])]
            && (le || data != [] ==>
                  var c := g.command(e, [ins] + data);
                  var native := Concat(c.appends);
                  && r.state == c.state
                  && r.body == Wrapped(g, p, AppendedAll(p, [], c.appends))
                  && (p + |native| <= BYTEBUF_MAX ==>
                        r.body == if native != [] && g.wrap(native).Some? && p + |g.wrap(native).value| <= WORKER_MAX
                                  then g.wrap(native).value else native))
  {
    var appends := g.command(e, [ins] + data).appends;
    AllFitWhole(p, [], appends);
    assert [] + Concat(appends) == Concat(appends);
    if le || data != [] {
      WrappedShape(ins, lc, data, le);
    } else {
      assert WrappedApdu(ins, lc, data, le) == [CLA_WRAPPER, ins, 0, 0];
    }
  }

  /** A length byte that overruns its APDU is answered without reaching the engine. */
  lemma WrappedOverrun<E>(g: Engine<E>, p: nat, e: E, apdu: seq<byte>)
    requires p <= 2 && IsWrapped(apdu) && |apdu| <= WORKER_MAX
    ensures var r := Dispatch(g, p, e, apdu);
            r.calls == [] <==> |apdu| < 5 + apdu[4] as nat || WORKER_MAX <= apdu[4] as nat
    ensures var r := Dispatch(g, p, e, apdu);
            r.calls == [] ==> r.state == e && r.body == [0x91, STATUS_LENGTH_ERROR]
  {
  }
}
