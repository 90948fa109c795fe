/** Wrapped commands end to end: split into blocks, sent over a lossy link, unwrapped. */
module WrappedSession {
  import opened Bytes
  import opened Limits
  import opened Engine
  import opened IsoDep
  import opened Server
  import opened Session
  import opened SessionTheorems

  /** A native command as a reader wraps it. */
  datatype Native = Native(ins: byte, lc: byte, data: seq<byte>, le: bool)

  ghost predicate Wrappable(c: Native) {
    && c.lc as nat == |c.data| < WORKER_MAX && (c.le || c.data != [])
    && |WrappedApdu(c.ins, c.lc, c.data, c.le)| <= WORKER_MAX
  }

  ghost predicate WrapOf(apdu: seq<byte>, c: Native) {
    Wrappable(c) && apdu == WrappedApdu(c.ins, c.lc, c.data, c.le)
  }

  /** The commands carry these natives, each cut into blocks in any way. */
  ghost predicate CutFrom(cmds: seq<Command>, natives: seq<Native>) {
    |natives| == |cmds| && forall k | 0 <= k < |cmds| :: WrapOf(Concat(cmds[k]), natives[k])
  }

  function ToCall(c: Native): Call {
    NativeCall([c.ins] + c.data)
  }

  function NativeCalls(natives: seq<Native>): seq<Call> {
    if natives == [] then []
    else NativeCalls(natives[..|natives| - 1]) + [ToCall(natives[|natives| - 1])]
  }

  lemma WrappedOne<E>(g: Engine<E>, p: nat, e: E, apdu: seq<byte>, c: Native)
    requires WrapOf(apdu, c)
    ensures Dispatch(g, p, e, apdu).calls == [ToCall(c)]
  {
    WrappedRoundTrip(g, p, e, c.ins, c.lc, c.data, c.le);
  }

  lemma {:induction false} WrappedCalls<E>(g: Engine<E>, p: nat, e: E, apdus: seq<seq<byte>>, natives: seq<Native>)
    requires |apdus| == |natives| && forall k | 0 <= k < |apdus| :: WrapOf(apdus[k], natives[k])
    ensures CallsFor(g, p, e, apdus) == NativeCalls(natives)
    decreases |apdus|
  {
    if apdus != [] {
      var n := |apdus| - 1;
      WrappedCalls(g, p, e, apdus[..n], natives[..n]);
      WrappedOne(g, p, StateAfter(g, p, e, apdus[..n]), apdus[n], natives[n]);
    }
  }

  /** Whatever is lost, the engine is called with a prefix of the native commands, each once
      and as instruction followed by data; and with all of them once enough gets through. */
  lemma WrappedDelivery<E>(g: Engine<E>, l: Link, cmds: seq<Command>, natives: seq<Native>, s: State<E>,
                           rounds: seq<Round>)
    requires AllSendable(cmds) && CutFrom(cmds, natives) && Activated(s)
    ensures var z := RunSession(g, cmds, l, Initial(s), rounds);
            && |z.apdus| <= |natives| && z.calls == NativeCalls(natives[..|z.apdus|])
            && (Clean(rounds) >= WorkFrom(g, l, s.engine, cmds, 0) + Naks(rounds) ==> |z.apdus| == |natives|)
  {
    var z := RunSession(g, cmds, l, Initial(s), rounds);
    ExactlyOnce(g, l, cmds, s, rounds);
    forall k | 0 <= k < |z.apdus| ensures WrapOf(z.apdus[k], natives[..|z.apdus|][k]) {
      assert z.apdus[k] == Concat(cmds[k]);
    }
    WrappedCalls(g, l.Size(), s.engine, z.apdus, natives[..|z.apdus|]);
    if Clean(rounds) >= WorkFrom(g, l, s.engine, cmds, 0) + Naks(rounds) {
      Delivery(g, l, cmds, s, rounds);
    }
  }
}
