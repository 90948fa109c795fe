/** Octets and block numbers. */
module Bytes {

  type byte = bv8

  /** A block number: the lowest bit of a protocol control byte. */
  type Bit = b: byte | b <= 1

  datatype Option<+T> = None | Some(value: T)

  function Flip(n: Bit): Bit {
    n ^ 1
  }

  function Concat<T>(parts: seq<seq<T>>): seq<T> {
    if parts == [] then [] else parts[0] + Concat(parts[1..])
  }

  lemma {:induction false} ConcatAppend<T>(xs: seq<seq<T>>, ys: seq<seq<T>>)
    ensures Concat(xs + ys) == Concat(xs) + Concat(ys)
  {
    if xs == [] {
      assert xs + ys == ys;
    } else {
      assert (xs + ys)[1..] == xs[1..] + ys;
      ConcatAppend(xs[1..], ys);
    }
  }

  lemma ConcatSnoc<T>(xs: seq<seq<T>>, y: seq<T>)
    ensures Concat(xs + [y]) == Concat(xs) + y
  {
    ConcatAppend(xs, [y]);
    assert Concat([y]) == y + Concat([]);
  }
}

/** Capacities, which headers of lib/core such as dfc_bytebuf.h define. Only the bounds in
    the two subset types are assumed about them. */
module Limits {

  type WorkerSize = n: nat | 64 <= n witness 64

  /** DFC_WORKER_MAX_BUFFER_SIZE: the chained-command store and the scratch buffer. */
  const WORKER_MAX: WorkerSize

  type BufferSize = n: nat | WORKER_MAX <= n witness WORKER_MAX

  /** DFC_BYTEBUF_MAX: the response buffer. */
  const BYTEBUF_MAX: BufferSize

  /** ISO_DEP_FRAME_MAX: a 64-byte frame without its CRC. */
  const FRAME_MAX := 62
}
