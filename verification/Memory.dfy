/** The heap discipline of a credential load: at most one buffer is held at a time, and none
    is allocated while the text codec is open. */
module Memory {
  import opened Bytes

  datatype Event = Malloc(block: array<byte>) | Free(block: array<byte>) | Open | Close

  /** The buffer that is held, and whether the codec is open. */
  datatype Holding = Holding(block: Option<array<byte>>, open: bool)

  const IDLE := Holding(None, false)

  /** What is held after an event, if the discipline allows it. */
  function After(h: Holding, e: Event): Option<Holding> {
    match e
    case Malloc(b) => if h == IDLE then Some(Holding(Some(b), false)) else None
    case Free(b) => if h.block == Some(b) then Some(Holding(None, h.open)) else None
    case Open => if h.open then None else Some(Holding(h.block, true))
    case Close => if h.open then Some(Holding(h.block, false)) else None
  }

  function AfterAll(h: Holding, log: seq<Event>): Option<Holding>
    decreases |log|
  {
    if log == [] then Some(h)
    else match After(h, log[0])
      case None => None
      case Some(next) => AfterAll(next, log[1..])
  }

  lemma {:induction false} AfterSnoc(h: Holding, log: seq<Event>, e: Event)
    ensures AfterAll(h, log + [e])
         == match AfterAll(h, log) case None => None case Some(next) => After(next, e)
    decreases |log|
  {
    if log == [] {
      assert [] + [e] == [e] && [e][1..] == [];
    } else if After(h, log[0]).Some? {
      assert (log + [e])[1..] == log[1..] + [e];
      AfterSnoc(After(h, log[0]).value, log[1..], e);
    }
  }

  /** In a run that ends idle every buffer is freed, and until then nothing else is
      allocated or freed. */
  lemma {:induction false} FreedOnce(h: Holding, log: seq<Event>, i: nat)
    requires AfterAll(h, log) == Some(IDLE) && i < |log| && log[i].Malloc?
    ensures exists j :: i < j < |log| && log[j] == Free(log[i].block)
                        && forall k | i < k < j :: log[k].Open? || log[k].Close?
    decreases |log|
  {
    var next := After(h, log[0]).value;
    if i == 0 {
      var j := FirstFree(next, log[1..]);
      assert log[j + 1] == log[1..][j];
      forall k | 0 < k < j + 1 ensures log[k].Open? || log[k].Close? {
        assert log[k] == log[1..][k - 1];
      }
    } else {
      var rest := log[1..];
      FreedOnce(next, rest, i - 1);
      var j :| i - 1 < j < |rest| && rest[j] == Free(rest[i - 1].block)
               && forall k | i - 1 < k < j :: rest[k].Open? || rest[k].Close?;
      assert log[j + 1] == rest[j];
      forall k | i < k < j + 1 ensures log[k].Open? || log[k].Close? {
        assert log[k] == rest[k - 1];
      }
    }
  }

  lemma {:induction false} FirstFree(h: Holding, log: seq<Event>) returns (j: nat)
    requires h.block.Some? && AfterAll(h, log) == Some(IDLE)
    ensures j < |log| && log[j] == Free(h.block.value)
    ensures forall k | 0 <= k < j :: log[k].Open? || log[k].Close?
    decreases |log|
  {
    if log[0].Free? {
      j := 0;
    } else {
      var i := FirstFree(After(h, log[0]).value, log[1..]);
      j := i + 1;
      forall k | 0 <= k < j ensures log[k].Open? || log[k].Close? {
        if k > 0 { assert log[k] == log[1..][k - 1]; }
      }
    }
  }

  function Count(log: seq<Event>, e: Event): nat {
    if log == [] then 0 else (if log[0] == e then 1 else 0) + Count(log[1..], e)
  }

  /** Over such a run no buffer is leaked and none is freed twice. */
  lemma {:induction false} FreedAsOften(h: Holding, log: seq<Event>, b: array<byte>)
    requires AfterAll(h, log) == Some(IDLE)
    ensures Count(log, Free(b)) == Count(log, Malloc(b)) + if h.block == Some(b) then 1 else 0
    decreases |log|
  {
    if log != [] {
      FreedAsOften(After(h, log[0]).value, log[1..], b);
    }
  }

  /** What is held before an allocation: no buffer, and the codec has been closed as often as
      it was opened. */
  lemma {:induction false} AllocatesIdle(h: Holding, log: seq<Event>, i: nat)
    requires AfterAll(h, log).Some? && i < |log| && log[i].Malloc?
    ensures AfterAll(h, log[..i]) == Some(IDLE)
    ensures Count(log[..i], Open) + (if h.open then 1 else 0) == Count(log[..i], Close)
    ensures forall b :: Count(log[..i], Free(b)) == Count(log[..i], Malloc(b)) + if h.block == Some(b) then 1 else 0
    decreases |log|
  {
    if i > 0 {
      var next := After(h, log[0]).value;
      assert log[..i][1..] == log[1..][..i - 1];
      AllocatesIdle(next, log[1..], i - 1);
    }
  }

  /** The heap and the plugin loader, seen from the load. Misuse of a buffer is excluded by
      the preconditions, and peak is the largest amount held at any time. */
  class Memory {
    var log: seq<Event>
    var held: Holding
    var peak: nat

    ghost predicate Valid()
      reads this
    {
      AfterAll(IDLE, log) == Some(held)
    }

    constructor ()
      ensures Valid() && held == IDLE && log == [] && peak == 0
    {
      log, held, peak := [], IDLE, 0;
    }

    /** A request that is not granted yields no buffer. */
    method Malloc(size: nat, granted: bool) returns (block: array?<byte>)
      requires Valid() && held == IDLE
      modifies this
      ensures Valid() && old(log) <= log
      ensures !granted ==> block == null && held == IDLE && peak == old(peak)
      ensures granted ==> block != null && fresh(block) && block.Length == size && held == Holding(Some(block), false)
                          && peak == if size > old(peak) then size else old(peak)
    {
      block := null;
      if granted {
        var b := new byte[size];
        AfterSnoc(IDLE, log, Event.Malloc(b));
        log, held := log + [Event.Malloc(b)], Holding(Some(b), false);
        if size > peak {
          peak := size;
        }
        block := b;
      }
    }

    method Free(block: array<byte>)
      requires Valid() && held.block == Some(block)
      modifies this
      ensures Valid() && old(log) <= log && held == Holding(None, old(held.open)) && peak == old(peak)
    {
      AfterSnoc(IDLE, log, Event.Free(block));
      log, held := log + [Event.Free(block)], Holding(None, held.open);
    }

    method Open()
      requires Valid() && !held.open
      modifies this
      ensures Valid() && old(log) <= log && held == Holding(old(held.block), true) && peak == old(peak)
    {
      AfterSnoc(IDLE, log, Event.Open);
      log, held := log + [Event.Open], Holding(held.block, true);
    }

    method Close()
      requires Valid() && held.open
      modifies this
      ensures Valid() && old(log) <= log && held == Holding(old(held.block), false) && peak == old(peak)
    {
      AfterSnoc(IDLE, log, Event.Close);
      log, held := log + [Event.Close], Holding(held.block, false);
    }

    /** Only the buffer that is held may be read. */
    function Read(block: array<byte>, n: nat): seq<byte>
      requires held.block == Some(block) && n <= block.Length
      reads this, block
    {
      block[..n]
    }

    method Write(block: array<byte>, bytes: seq<byte>)
      requires held.block == Some(block) && |bytes| <= block.Length
      modifies block
      ensures block[..|bytes|] == bytes
    {
      forall i | 0 <= i < |bytes| {
        block[i] := bytes[i];
      }
    }
  }
}
