/** What a session means, with the block protocol abstracted away: commands run one after
    the other, each answered by the engine. */
module Server {
  import opened Bytes
  import opened Engine

  /** The engine's state after running the commands. */
  function StateAfter<E>(g: Engine<E>, p: nat, e: E, apdus: seq<seq<byte>>): E {
    if apdus == [] then e
    else Dispatch(g, p, StateAfter(g, p, e, apdus[..|apdus| - 1]), apdus[|apdus| - 1]).state
  }

  /** Its responses, in order. */
  function Responses<E>(g: Engine<E>, p: nat, e: E, apdus: seq<seq<byte>>): (r: seq<seq<byte>>)
    ensures |r| == |apdus|
  {
    if apdus == [] then []
    else
      var front := apdus[..|apdus| - 1];
      Responses(g, p, e, front) + [Dispatch(g, p, StateAfter(g, p, e, front), apdus[|apdus| - 1]).body]
  }

  /** The calls made on it, in order. */
  function CallsFor<E>(g: Engine<E>, p: nat, e: E, apdus: seq<seq<byte>>): seq<Call> {
    if apdus == [] then []
    else
      var front := apdus[..|apdus| - 1];
      CallsFor(g, p, e, front) + Dispatch(g, p, StateAfter(g, p, e, front), apdus[|apdus| - 1]).calls
  }

  lemma ServeNext<E>(g: Engine<E>, p: nat, e: E, apdus: seq<seq<byte>>, k: nat)
    requires k < |apdus|
    ensures var r := Dispatch(g, p, StateAfter(g, p, e, apdus[..k]), apdus[k]);
            && apdus[..k + 1] == apdus[..k] + [apdus[k]]
            && StateAfter(g, p, e, apdus[..k + 1]) == r.state
            && Responses(g, p, e, apdus[..k + 1]) == Responses(g, p, e, apdus[..k]) + [r.body]
            && CallsFor(g, p, e, apdus[..k + 1]) == CallsFor(g, p, e, apdus[..k]) + r.calls
  {
    assert apdus[..k + 1][..k] == apdus[..k];
  }

  /** A prefix of the commands gives a prefix of the responses. */
  lemma {:induction false} ResponsesPrefix<E>(g: Engine<E>, p: nat, e: E, apdus: seq<seq<byte>>, k: nat)
    requires k <= |apdus|
    ensures Responses(g, p, e, apdus[..k]) == Responses(g, p, e, apdus)[..k]
    decreases |apdus| - k
  {
    if k == |apdus| {
      assert apdus[..k] == apdus && Responses(g, p, e, apdus)[..k] == Responses(g, p, e, apdus);
    } else {
      ResponsesPrefix(g, p, e, apdus, k + 1);
      ServeNext(g, p, e, apdus, k);
    }
  }
}
