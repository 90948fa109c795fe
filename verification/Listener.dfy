/** The radio listener: the object whose fields the protocol callback updates, refining
    the step function of module IsoDep. */
module Listener {
  import opened Bytes
  import opened Limits
  import opened Engine
  import opened ByteBuf
  import opened IsoDep
  import opened IsoDepLemmas

  class Listener<E> {
    const g: Engine<E>
    var engine: E
    var lastResponseValid: bool
    var expectedPcdBlock: Bit
    var piccBlock: Bit
    const lastFrame: array<byte>
    var lastFrameLen: nat
    const command: array<byte>
    var commandLen: nat
    var responseOffset: nat
    var cidValid: bool
    var cid: byte
    const tx: Buffer

    /** What the radio sent, and what reached the engine. */
    var sent: seq<seq<byte>>
    ghost var apdus: seq<seq<byte>>
    ghost var calls: seq<Call>

    ghost predicate Shape()
      reads this, tx
    {
      && lastFrame.Length == FRAME_MAX && lastFrameLen <= FRAME_MAX
      && command.Length == WORKER_MAX && commandLen <= WORKER_MAX
      && tx.Valid()
      && lastFrame != command && command != tx.data && tx.data != lastFrame
    }

    function FrameBytes(): Frame
      requires lastFrameLen <= lastFrame.Length == FRAME_MAX
      reads this`lastFrameLen, lastFrame
    {
      lastFrame[..lastFrameLen]
    }

    function CommandBytes(): seq<byte>
      requires commandLen <= command.Length
      reads this`commandLen, command
    {
      command[..commandLen]
    }

    /** The protocol state the fields stand for. */
    ghost function State(): State<E>
      requires Shape()
      reads this, lastFrame, command, tx, tx.data
    {
      IsoDep.State(lastResponseValid, expectedPcdBlock, piccBlock, FrameBytes(), CommandBytes(), responseOffset,
                   cidValid, cid, tx.Contents(), engine)
    }

    ghost predicate Valid()
      reads this, lastFrame, command, tx, tx.data
    {
      Shape() && Inv(State())
    }

    /** The whole effect of a call is the given step. */
    twostate predicate Performed(o: Out<E>)
      reads this, lastFrame, command, tx, tx.data
    {
      && Shape() && State() == o.state
      && sent == old(sent) + o.frames && apdus == old(apdus) + o.apdus && calls == old(calls) + o.calls
    }

    constructor (g: Engine<E>, engine: E)
      ensures Valid() && State() == Fresh(engine) && this.g == g
      ensures !lastResponseValid && expectedPcdBlock == 0 && piccBlock == 1 && lastFrameLen == 0 && commandLen == 0
      ensures responseOffset == 0 && !cidValid && cid == 0
      ensures sent == [] && apdus == [] && calls == []
      ensures fresh(lastFrame) && fresh(command) && fresh(tx) && fresh(tx.data)
    {
      this.g, this.engine := g, engine;
      lastResponseValid, expectedPcdBlock, piccBlock := false, 0, 1;
      lastFrame, lastFrameLen := new byte[FRAME_MAX], 0;
      command, commandLen := new byte[WORKER_MAX], 0;
      responseOffset, cidValid, cid := 0, false, 0;
      tx := new Buffer();
      sent, apdus, calls := [], [], [];
    }

    method SendFrame(data: seq<byte>)
      modifies this`sent
      ensures sent == if |data| <= BYTEBUF_MAX then old(sent) + [data] else old(sent)
    {
      if |data| > BYTEBUF_MAX {
        return;
      }
      sent := sent + [data];
    }

    method SendControl(pcb: byte, useCid: bool, cid: byte)
      modifies this`sent
      ensures sent == old(sent) + [Prologue(MakeLink(useCid, cid), pcb)]
    {
      if useCid {
        SendFrame([pcb | CID_MASK, cid]);
      } else {
        SendFrame([pcb]);
      }
    }

    /** Prologue with the block number and chaining bit set, then the next chunk. */
    method FillFrame(data: seq<byte>, prefixLen: nat, chunkLen: nat, more: bool)
      requires lastFrame.Length == FRAME_MAX && 1 <= prefixLen <= |data| && prefixLen + chunkLen <= FRAME_MAX
      requires responseOffset + chunkLen <= |data|
      modifies lastFrame
      ensures lastFrame[..prefixLen + chunkLen] == FrameOf(data, prefixLen, responseOffset, chunkLen, piccBlock, more)
    {
      Copy(lastFrame, 0, data[..prefixLen]);
      assert lastFrame[..prefixLen] == data[..prefixLen];
      lastFrame[0] := Renumbered(lastFrame[0], piccBlock, more);
      assert lastFrame[..prefixLen] == [Renumbered(data[0], piccBlock, more)] + data[1..prefixLen];
      Copy(lastFrame, prefixLen, data[responseOffset..responseOffset + chunkLen]);
    }

    /** Load the next frame and move the offset past what it carries. */
    method LoadNextFrame(data: seq<byte>, prefixLen: nat)
      requires lastFrame.Length == FRAME_MAX && data != [] && prefixLen == PrefixLen(data[0])
      requires prefixLen <= |data| && responseOffset <= |data|
      modifies this`lastFrameLen, this`responseOffset, this`lastResponseValid, lastFrame
      ensures lastResponseValid && lastFrameLen <= FRAME_MAX
      ensures var rest := |data| - old(responseOffset);
              var k := if FRAME_MAX - prefixLen < rest then FRAME_MAX - prefixLen else rest;
              && FrameBytes() == FrameOf(data, prefixLen, old(responseOffset), k, piccBlock, k < rest)
              && responseOffset == if k < rest then old(responseOffset) + k else 0
    {
      var remaining := |data| - responseOffset;
      var chunkLen := FRAME_MAX - prefixLen;
      if chunkLen > remaining {
        chunkLen := remaining;
      }
      var more := chunkLen < remaining;
      FillFrame(data, prefixLen, chunkLen, more);
      lastFrameLen := prefixLen + chunkLen;
      responseOffset := responseOffset + chunkLen;
      if !more {
        responseOffset := 0;
      }
      lastResponseValid := true;
    }

    method SendNextIResponse()
      requires Shape() && tx.Contents() != []
      requires PrefixLen(tx.Contents()[0]) <= tx.size ==> responseOffset <= tx.size
      modifies this`sent, this`lastFrameLen, this`responseOffset, this`lastResponseValid, lastFrame
      ensures Performed(NextResponse(old(State())))
    {
      hide FrameOf, PrefixLen;
      var data := tx.Contents();
      var prefixLen := PrefixLen(data[0]);
      if |data| < prefixLen {
        return;
      }
      LoadNextFrame(data, prefixLen);
      SendFrame(FrameBytes());
    }

    method SendIResponse()
      requires Shape() && (tx.Contents() != [] ==> PrefixLen(tx.Contents()[0]) <= tx.size)
      modifies this`sent, this`lastFrameLen, this`responseOffset, this`lastResponseValid, this`piccBlock,
               this`expectedPcdBlock, lastFrame
      ensures Performed(StartResponse(old(State())))
    {
      if tx.size == 0 {
        return;
      }
      piccBlock := expectedPcdBlock;
      expectedPcdBlock := Flip(expectedPcdBlock);
      responseOffset := PrefixLen(tx.data[0]);
      label started:
      assert State() == old(State()).(picc := old(expectedPcdBlock), expected := Flip(old(expectedPcdBlock)),
                                      offset := PrefixLen(old(State()).tx[0]));
      SendNextIResponse();
    }

    method AppendLengthError(ghost prologue: seq<byte>, ghost body: seq<byte>)
      requires tx.Valid() && tx.Contents() == prologue + body
      modifies tx, tx.data
      ensures tx.Valid() && tx.Contents() == prologue + LengthError(|prologue|, body)
    {
      tx.AppendByte(0x91);
      assert tx.Contents() == prologue + Appended(|prologue|, body, [0x91]);
      tx.AppendByte(STATUS_LENGTH_ERROR);
    }

    /** Call the engine on a bare command; its appends land after what the buffer holds. */
    method HandleCommand(native: seq<byte>, ghost prologue: seq<byte>, ghost body: seq<byte>)
      requires tx.Valid() && tx.Contents() == prologue + body
      modifies this`engine, this`calls, tx, tx.data
      ensures var c := g.command(old(engine), native);
              && engine == c.state && tx.Valid()
              && tx.Contents() == prologue + AppendedAll(|prologue|, body, c.appends)
      ensures calls == old(calls) + [NativeCall(native)]
    {
      var c := g.command(engine, native);
      engine := c.state;
      calls := calls + [NativeCall(native)];
      tx.AppendEach(c.appends, prologue, body);
    }

    /** Replace a native response by its wrapped form, if the scratch buffer can hold it. */
    method WrapResponse(offset: nat, ghost prologue: seq<byte>, ghost body: seq<byte>)
      requires tx.Valid() && tx.Contents() == prologue + body && offset == |prologue|
      modifies tx, tx.data
      ensures tx.Valid() && tx.Contents() == prologue + Wrapped(g, |prologue|, body)
      ensures tx.Contents() == prologue + if body != [] && g.wrap(body).Some? && |prologue + g.wrap(body).value| <= WORKER_MAX
                                          then g.wrap(body).value else body
    {
      if tx.size > offset {
        var response := tx.Contents();
        assert response[..offset] == prologue && response[offset..] == body;
        match g.wrap(response[offset..]) {
          case Some(w) =>
            if offset + |w| <= WORKER_MAX {
              tx.Reset();
              tx.AppendBytes(response[..offset] + w);
            }
          case None =>
        }
      }
    }

    /** Instruction and data of a wrapped APDU, put together in a buffer of their own. */
    method Unwrap(apdu: seq<byte>, lc: nat) returns (native: seq<byte>)
      requires 5 + lc <= |apdu| && lc < WORKER_MAX
      ensures native == [apdu[1]] + apdu[5..5 + lc]
    {
      var scratch := new byte[WORKER_MAX];
      scratch[0] := apdu[1];
      Copy(scratch, 1, apdu[5..5 + lc]);
      native := scratch[..1 + lc];
    }

    method RunNativeCommand(offset: nat, apdu: seq<byte>, ghost prologue: seq<byte>, ghost body: seq<byte>)
      requires tx.Valid() && tx.Contents() == prologue + body && offset == |prologue|
      modifies this`engine, this`calls, tx, tx.data
      ensures var r := RunNative(g, |prologue|, old(engine), body, apdu);
              engine == r.state && tx.Valid() && tx.Contents() == prologue + r.body && calls == old(calls) + r.calls
    {
      if |apdu| >= 5 && apdu[0] == CLA_WRAPPER {
        var lc := apdu[4] as nat;
        if lc > WORKER_MAX - 1 || |apdu| < 5 + lc {
          AppendLengthError(prologue, body);
        } else {
          var native := Unwrap(apdu, lc);
          ghost var appends := g.command(engine, native).appends;
          HandleCommand(native, prologue, body);
          WrapResponse(offset, prologue, AppendedAll(|prologue|, body, appends));
        }
      } else {
        HandleCommand(apdu, prologue, body);
      }
    }

    /** Everything between a complete APDU and its response. */
    method RunApdu(prologue: seq<byte>, apdu: seq<byte>)
      requires tx.Valid() && |prologue| <= 2
      modifies this`engine, this`calls, tx, tx.data
      ensures var r := Dispatch(g, |prologue|, old(engine), apdu);
              engine == r.state && tx.Valid() && tx.Contents() == prologue + r.body && calls == old(calls) + r.calls
    {
      hide RunNative, AppendedAll, Wrapped;
      tx.Reset();
      tx.AppendBytes(prologue);
      assert tx.Contents() == prologue + [];
      if |apdu| > WORKER_MAX {
        AppendLengthError(prologue, []);
        return;
      }
      ghost var body: seq<byte> := [];
      if |apdu| >= 4 && apdu[0] == CLA_STANDARD {
        var select := g.select(engine, apdu);
        engine := select.state;
        calls := calls + [SelectCall(apdu)];
        tx.AppendEach(select.appends, prologue, body);
        body := AppendedAll(|prologue|, [], select.appends);
        if select.handled {
          return;
        }
      }
      RunNativeCommand(|prologue|, apdu, prologue, body);
    }

    method Execute(prologue: seq<byte>, apdu: seq<byte>)
      requires Shape() && prologue != [] && |prologue| == PrefixLen(prologue[0])
      modifies this, lastFrame, tx, tx.data
      ensures Performed(IsoDep.Execute(g, old(State()), prologue, apdu))
    {
      ghost var s := State();
      RunApdu(prologue, apdu);
      apdus := apdus + [apdu];
      assert State() == s.(tx := tx.Contents(), engine := engine);
      SendIResponse();
    }

    method OnPps(rx: seq<byte>)
      requires Shape() && rx != []
      modifies this`sent
      ensures Performed(IsoDep.OnPps(old(State()), rx))
    {
      if (|rx| == 2 && rx[1] == 0x01) || (|rx| == 3 && rx[1] == 0x11 && rx[2] == 0x00) {
        SendControl(rx[0], false, 0);
      }
    }

    method ContinueResponse()
      requires Valid() && responseOffset != 0
      modifies this, lastFrame
      ensures Performed(Continued(old(State())))
    {
      ghost var s := State();
      piccBlock := Flip(piccBlock);
      assert State() == s.(picc := Flip(s.picc));
      SendNextIResponse();
      expectedPcdBlock := Flip(piccBlock);
    }

    method OnRBlock(pcb: byte, useCid: bool, cid: byte, bare: bool)
      requires Valid()
      modifies this, lastFrame
      ensures Performed(IsoDep.OnRBlock(old(State()), pcb, MakeLink(useCid, cid), bare))
    {
      if pcb & 0xE6 != 0xA2 || !bare {
        return;
      }
      if cidValid != useCid || (useCid && cid != this.cid) {
        return;
      }
      if lastResponseValid && pcb & 1 == piccBlock {
        SendFrame(FrameBytes());
      } else if responseOffset != 0 && pcb & CHAINING == 0 {
        ContinueResponse();
      } else if pcb & CHAINING != 0 {
        SendControl(0xA2 | piccBlock, useCid, cid);
      }
    }

    /** The seven assignments that end an activation. */
    method ResetActivation()
      requires Shape()
      modifies this`engine, this`lastResponseValid, this`expectedPcdBlock, this`piccBlock, this`commandLen,
               this`responseOffset, this`cidValid
      ensures Shape() && State() == Reset(g, old(State()))
    {
      hide Prologue;
      engine := g.reset(engine);
      lastResponseValid, expectedPcdBlock, piccBlock := false, 0, 1;
      commandLen, responseOffset, cidValid := 0, 0, false;
    }

    method OnSBlock(rx: seq<byte>, pcb: byte, useCid: bool, cid: byte)
      requires Shape() && |rx| <= 2
      modifies this
      ensures Performed(IsoDep.OnSBlock(g, old(State()), rx, pcb, MakeLink(useCid, cid), true))
      ensures sent == old(sent) + if pcb | 0x08 == 0xCA && old(cidValid) == useCid && (useCid ==> cid == old(this.cid))
                                  then [rx] else []
    {
      if pcb & 0xF7 == 0xC2 && cidValid == useCid && (!useCid || cid == this.cid) {
        SendFrame(rx);
        ResetActivation();
      }
    }

    method Collect(inf: seq<byte>)
      requires Shape() && |inf| <= WORKER_MAX - commandLen
      modifies this`commandLen, command
      ensures Shape() && State() == old(State()).(command := old(CommandBytes()) + inf)
    {
      Copy(command, commandLen, inf);
      commandLen := commandLen + |inf|;
      assert CommandBytes() == old(CommandBytes()) + inf;
    }

    method OutOfSequence(n: Bit, useCid: bool, cid: byte)
      requires Shape()
      modifies this`sent
      ensures Performed(IsoDep.OutOfSequence(old(State()), MakeLink(useCid, cid), n))
    {
      if lastResponseValid && commandLen == 0 {
        SendFrame(FrameBytes());
      } else {
        SendControl(if commandLen != 0 then 0xA2 | n else 0xB2 | expectedPcdBlock, useCid, cid);
      }
    }

    method RefuseBlock(useCid: bool, cid: byte)
      requires Shape()
      modifies this`sent
      ensures Performed(Answer(old(State()), RNak(MakeLink(useCid, cid), old(expectedPcdBlock))))
    {
      SendControl(0xB2 | expectedPcdBlock, useCid, cid);
    }

    method AcknowledgeChunk(n: Bit, useCid: bool, cid: byte)
      requires Shape()
      modifies this`sent, this`expectedPcdBlock
      ensures Performed(Answer(old(State()).(expected := Flip(old(expectedPcdBlock))), RAck(MakeLink(useCid, cid), n)))
    {
      expectedPcdBlock := Flip(expectedPcdBlock);
      SendControl(0xA2 | n, useCid, cid);
    }

    /** The last block of a command: a single frame is executed where it lies, anything
        longer from the command store. */
    method CompleteCommand(prologue: seq<byte>, inf: seq<byte>)
      requires Shape() && prologue != [] && |prologue| == PrefixLen(prologue[0])
      requires commandLen != 0 ==> |inf| <= WORKER_MAX - commandLen
      modifies this, lastFrame, command, tx, tx.data
      ensures Performed(IsoDep.Execute(g, old(State()).(command := []), prologue, old(CommandBytes()) + inf))
    {
      ghost var s := State();
      var apdu := inf;
      if commandLen != 0 {
        Collect(inf);
        apdu := CommandBytes();
        commandLen := 0;
      }
      assert apdu == s.command + inf && State() == s.(command := []);
      Execute(prologue, apdu);
    }

    method InSequence(prologue: seq<byte>, inf: seq<byte>, useCid: bool, cid: byte)
      requires Valid() && prologue != [] && |prologue| == PrefixLen(prologue[0])
      modifies this, lastFrame, command, tx, tx.data
      ensures Performed(IsoDep.InSequence(g, old(State()), MakeLink(useCid, cid), prologue, inf))
    {
      hide IsoDep.Execute, Dispatch;
      var more := prologue[0] & CHAINING != 0;
      if responseOffset != 0 || inf == [] {
        RefuseBlock(useCid, cid);
      } else if (more || commandLen != 0) && |inf| > WORKER_MAX - commandLen {
        commandLen := 0;
        RefuseBlock(useCid, cid);
      } else if more {
        Collect(inf);
        AcknowledgeChunk(prologue[0] & 1, useCid, cid);
      } else {
        CompleteCommand(prologue, inf);
      }
    }

    method TakeIBlock(prologue: seq<byte>, inf: seq<byte>, useCid: bool, cid: byte)
      requires Valid() && prologue != [] && |prologue| == PrefixLen(prologue[0])
      modifies this, lastFrame, command, tx, tx.data
      ensures Performed(IsoDep.TakeIBlock(g, old(State()), MakeLink(useCid, cid), prologue, inf))
    {
      if prologue[0] & 1 != expectedPcdBlock {
        OutOfSequence(prologue[0] & 1, useCid, cid);
      } else {
        InSequence(prologue, inf, useCid, cid);
      }
    }

    method OnIBlock(prologue: seq<byte>, inf: seq<byte>, useCid: bool, cid: byte)
      requires Valid() && (!useCid ==> cid == 0) && prologue != [] && |prologue| == PrefixLen(prologue[0])
      modifies this, lastFrame, command, tx, tx.data
      ensures Performed(IsoDep.OnIBlock(g, old(State()), MakeLink(useCid, cid), prologue, inf))
    {
      hide IsoDep.TakeIBlock;
      ghost var s := State();
      if prologue[0] & 0xE2 != 0x02 || prologue[0] & NAD_MASK != 0 {
        return;
      }
      if cidValid != useCid || (useCid && cid != this.cid) {
        if lastResponseValid || commandLen != 0 {
          return;
        }
        cidValid := useCid;
        this.cid := cid;
        assert State() == Bind(s, MakeLink(useCid, cid));
      }
      TakeIBlock(prologue, inf, useCid, cid);
    }

    /** One received block. */
    method OnReceived(rx: seq<byte>)
      requires Valid()
      modifies this, lastFrame, command, tx, tx.data
      ensures Valid() && Performed(Step(g, old(State()), Received(rx)))
    {
      hide IsoDep.OnRBlock, IsoDep.OnIBlock, IsoDep.OnSBlock, IsoDep.OnPps;
      StepInv(g, State(), Received(rx));
      if |rx| == 0 {
        return;
      }
      var pcb := rx[0];
      var useCid := pcb & CID_MASK != 0;
      var offset := if useCid then 2 else 1;
      if |rx| < offset {
        return;
      }
      var cid := if useCid then rx[1] else 0;
      if pcb & 0xF0 == 0xD0 {
        OnPps(rx);
      } else if pcb & 0xC0 == 0x80 {
        OnRBlock(pcb, useCid, cid, |rx| == offset);
      } else if pcb & 0xC0 == 0xC0 {
        if |rx| == offset {
          OnSBlock(rx, pcb, useCid, cid);
        }
      } else {
        OnIBlock(rx[..offset], rx[offset..], useCid, cid);
      }
    }

    method OnHalted()
      requires Valid()
      modifies this
      ensures Valid() && Performed(Step(g, old(State()), Halted))
    {
      ResetActivation();
      lastFrameLen := 0;
    }

    method OnFieldOff()
      requires Valid()
      modifies this
      ensures Valid() && Performed(Step(g, old(State()), FieldOff))
    {
      ResetActivation();
      lastFrameLen := 0;
    }

    /** The callback the radio stack invokes. */
    method Callback(ev: Event)
      requires Valid()
      modifies this, lastFrame, command, tx, tx.data
      ensures Valid() && Performed(Step(g, old(State()), ev))
    {
      match ev
      case Received(rx) => OnReceived(rx);
      case Halted => OnHalted();
      case FieldOff => OnFieldOff();
    }
  }
}
