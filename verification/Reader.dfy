/** The reader as the object whose buffers and session the poller callback changes. */
module Reader {
  import opened Bytes
  import opened ByteBuf
  import opened Cbc
  import opened CardVisit

  /** The card in the field: what was sent, and how it answers. */
  class Poller {
    const card: Card
    var sent: Trace

    constructor (card: Card)
      ensures this.card == card && sent == []
    {
      this.card := card;
      sent := [];
    }
  }

  class CardFiles {
    const app: Option<App>
    var files: seq<File>

    constructor (app: Option<App>, files: seq<File>)
      ensures this.app == app && this.files == files
    {
      this.app := app;
      this.files := files;
    }
  }

  datatype Command = Continue | Stop

  datatype Event = PollerSuccess | PollerError

  /** dfc_rotate_left. */
  method RotateInPlace(a: array<byte>, n: nat)
    requires 0 < n <= a.Length
    modifies a
    ensures a[..n] == RotateLeft(old(a[..n]))
    ensures (forall i | 0 <= i < n - 1 :: a[i] == old(a[i + 1])) && a[n - 1] == old(a[0])
    ensures forall i | n <= i < a.Length :: a[i] == old(a[i])
  {
    var first := a[0];
    for i := 0 to n - 1
      invariant forall k | 0 <= k < i :: a[k] == old(a[k + 1])
      invariant forall k | i <= k < a.Length :: a[k] == old(a[k])
    {
      a[i] := a[i + 1];
    }
    a[n - 1] := first;
    assert a[..n] == old(a[1..n]) + [first];
  }

  class Reader<S> {
    const lib: Library<S>
    const credential: CardFiles
    const poller: Poller
    var rx: seq<byte>
    var secureMessaging: Option<Session<S>>

    constructor (lib: Library<S>, credential: CardFiles, poller: Poller)
      ensures this.lib == lib && this.credential == credential && this.poller == poller && secureMessaging == None
    {
      this.lib, this.credential, this.poller := lib, credential, poller;
      rx, secureMessaging := [], None;
    }

    /** One frame to the card and its answer into the receive buffer. */
    method Exchange(frame: seq<byte>) returns (ok: bool)
      modifies this`rx, poller
      ensures poller.sent == old(poller.sent) + [frame]
      ensures poller.card(poller.sent) == if ok then Some(rx) else None
    {
      poller.sent := poller.sent + [frame];
      var reply := poller.card(poller.sent);
      ok := reply.Some?;
      if ok {
        rx := reply.value;
      }
    }

    method SelectApplication(aid: seq<byte>) returns (ret: Command)
      modifies this`rx, poller
      ensures poller.sent == old(poller.sent) + [lib.selectFrame(aid)]
      ensures ret == Continue <==> var reply := poller.card(poller.sent);
                                   reply.Some? && |reply.value| > 0 && reply.value[0] == 0x00
    {
      var ok := Exchange(lib.selectFrame(aid));
      ret := if ok && |rx| >= 1 && rx[0] == STATUS_OK then Continue else Stop;
    }

    /** The second message: both nonces, the card's rotated, under the chained vector. */
    method MakeToken(mode: byte, key: seq<byte>, challenge: seq<byte>, rndA: seq<byte>, iv: array<byte>)
      returns (rndB: seq<byte>, frame: seq<byte>)
      requires |challenge| == |rndA| == BlockSize(mode) && iv.Length == 16
      modifies iv
      ensures rndB == RndB(lib, mode, key, challenge)
      ensures var token := Token(lib, mode, key, challenge, rndA);
              frame == [ADDITIONAL_FRAME] + token
              && (mode != AUTH_LEGACY ==> iv[..BlockSize(mode)] == AnswerIv(lib, mode, challenge, token))
    {
      var size, c := BlockSize(mode), CipherFor(lib, mode);
      TwoBlocks(c);
      Clear(iv);
      rndB := DecryptInPlace(c, key, iv, challenge);
      var plain := JoinNonces(rndA, rndB, size);
      if mode == AUTH_LEGACY {
        Clear(iv);
      } else {
        Copy(iv, 0, challenge);
      }
      assert iv[..size] == TokenIv(mode, challenge);
      var encrypted := EncryptInPlace(c, key, iv, plain);
      frame := [ADDITIONAL_FRAME] + encrypted;
    }

    /** The card's last message must be the reader's own nonce, rotated. */
    method VerifyAnswer(mode: byte, key: seq<byte>, answer: seq<byte>, rndA: seq<byte>, iv: array<byte>,
                        ghost expected: seq<byte>) returns (ok: bool)
      requires |answer| == |rndA| == BlockSize(mode) && iv.Length == 16
      requires expected == if mode == AUTH_LEGACY then Zeros(BlockSize(mode)) else iv[..BlockSize(mode)]
      modifies iv
      ensures ok <==> Decrypt(CipherFor(lib, mode), key, expected, answer) == RotateLeft(rndA)
      ensures iv[..BlockSize(mode)] == answer
    {
      hide CipherFor, Decrypt, NextIv;
      var size, c := BlockSize(mode), CipherFor(lib, mode);
      TwoBlocks(c);
      if mode == AUTH_LEGACY {
        Clear(iv);
      }
      assert iv[..size] == expected;
      var received := DecryptInPlace(c, key, iv, answer);
      SingleBlock(c, expected, answer);
      var wanted := new byte[16];
      Copy(wanted, 0, rndA);
      RotateInPlace(wanted, size);
      ok := received == wanted[..size];
    }

    /** One frame, and the block that its answer must start with after the status. */
    method ExchangeForBlock(frame: seq<byte>, status: byte, size: nat) returns (block: Option<seq<byte>>)
      modifies this`rx, poller
      ensures poller.sent == old(poller.sent) + [frame]
      ensures block == Block(poller.card(poller.sent), status, size)
    {
      var ok := Exchange(frame);
      block := if !ok || |rx| < 1 + size || rx[0] != status then None else Some(rx[1..1 + size]);
    }

    /** Any old session ends; the new one marks this end as the reader. */
    method OpenSession(mode: byte, key: seq<byte>, rndA: seq<byte>, rndB: seq<byte>, iv: seq<byte>, ghost sent: Trace)
      modifies this`secureMessaging
      ensures secureMessaging == Opened(lib, mode, key, Accepted(sent, rndA, rndB, iv))
    {
      var sessionKey := lib.derive(mode, key, rndA, rndB);
      secureMessaging := None;
      var state := lib.open(mode, sessionKey, if mode == AUTH_LEGACY then None else Some(iv));
      if state.Some? {
        secureMessaging := Some(Session(state.value, true));
      }
    }

    /** The second and third messages, after the card's challenge. */
    method ProveAndVerify(mode: byte, key: seq<byte>, challenge: seq<byte>, rndA: seq<byte>) returns (ret: Command)
      requires |challenge| == |rndA| == BlockSize(mode)
      modifies this, poller
      ensures var a := Proof(lib, poller.card, old(poller.sent), mode, key, challenge, rndA);
              && poller.sent == a.sent
              && secureMessaging == (if a.Accepted? then Opened(lib, mode, key, a) else old(secureMessaging))
              && ret == (if a.Accepted? && secureMessaging.Some? then Continue else Stop)
    {
      hide Token, AnswerIv, RndB, CipherFor, Decrypt, RotateLeft, Block, Opened;
      ret := Stop;
      var iv := new byte[16];
      var rndB, frame := MakeToken(mode, key, challenge, rndA, iv);
      ghost var token := Token(lib, mode, key, challenge, rndA);
      var answer := ExchangeForBlock(frame, STATUS_OK, BlockSize(mode));
      if answer.Some? {
        LegacyAnswerIv(lib, mode, challenge, token);
        var ok := VerifyAnswer(mode, key, answer.value, rndA, iv, AnswerIv(lib, mode, challenge, token));
        if ok {
          OpenSession(mode, key, rndA, rndB, iv[..BlockSize(mode)], poller.sent);
          ret := if secureMessaging.Some? then Continue else Stop;
        }
      }
    }

    /** Accepts exactly when the card authenticates and a session can be opened, which then
        replaces the old one. A card that does not leaves the old session alone; a session
        that cannot be opened leaves none. */
    method Authenticate(app: App, keyNo: byte, mode: byte, rndA: seq<byte>) returns (ret: Command)
      requires |rndA| == BlockSize(mode)
      modifies this, poller
      ensures var key := KeyFor(app, keyNo);
              if key.None? then ret == Stop && poller.sent == old(poller.sent) && secureMessaging == old(secureMessaging)
              else
                var a := Authentication(lib, poller.card, old(poller.sent), mode, keyNo, key.value, rndA);
                && poller.sent == a.sent
                && secureMessaging == (if a.Accepted? then Opened(lib, mode, key.value, a) else old(secureMessaging))
                && ret == (if a.Accepted? && secureMessaging.Some? then Continue else Stop)
    {
      hide Token, AnswerIv, RndB, CipherFor, Decrypt, RotateLeft, Block, Opened;
      ret := Stop;
      if (keyNo as nat) < app.numKeys && KeyFor(app, keyNo).Some? {
        var key, size := KeyFor(app, keyNo).value, BlockSize(mode);
        var challenge := ExchangeForBlock([mode, keyNo], ADDITIONAL_FRAME, size);
        if challenge.Some? {
          ret := ProveAndVerify(mode, key, challenge.value, rndA);
        }
      }
    }

    /** Only with a session; the file is read whole and stored, or the run stops. */
    method ReadFile(i: nat) returns (ret: Command)
      requires secureMessaging.Some? && i < |credential.files|
      modifies this, poller, credential
      ensures secureMessaging.Some?
      ensures (ret == Continue, Reading(poller.sent, secureMessaging.value, credential.files))
           == ReadOne(lib, poller.card, old(Reading(poller.sent, secureMessaging.value, credential.files)), i)
    {
      hide Sizes;
      ret := Stop;
      var file, state := credential.files[i], secureMessaging.value.state;
      var ev1 := lib.appliesEv1(state, READ_DATA);
      if ev1 {
        SetState(lib.updateEv1(state, READ_DATA, lib.readParameters(file.number)));
      }
      var ok := Exchange([READ_DATA] + lib.readParameters(file.number));
      if ok && |rx| >= 1 && rx[0] == STATUS_OK {
        var plain := UnwrapData(ev1, file.comm, rx[1..]);
        if plain.Some? {
          ret := StoreData(i, plain.value);
        }
      }
    }

    method SetState(state: S)
      requires secureMessaging.Some?
      modifies this`secureMessaging
      ensures secureMessaging == Some(old(secureMessaging).value.(state := state))
    {
      secureMessaging := Some(secureMessaging.value.(state := state));
    }

    /** Without EV1 an empty result of a nonempty answer is a failure, unless the file is plain. */
    method UnwrapData(ev1: bool, comm: byte, wrapped: seq<byte>) returns (plain: Option<seq<byte>>)
      requires secureMessaging.Some?
      modifies this`secureMessaging
      ensures secureMessaging.Some?
      ensures (secureMessaging.value, plain) == Unwrapped(lib, old(secureMessaging).value, ev1, comm, wrapped)
    {
      if ev1 {
        var (state, data) := lib.unwrapEv1(secureMessaging.value.state, STATUS_OK, wrapped);
        SetState(state);
        plain := data;
      } else {
        var (state, data) := lib.unwrap(secureMessaging.value.state, comm, STATUS_OK, wrapped);
        SetState(state);
        plain := Some(data);
        if |data| == 0 && |wrapped| > 0 && comm != COMM_PLAIN {
          plain := None;
        }
      }
    }

    /** The pool may refuse the new size, or grant it without storage behind it. */
    method StoreData(i: nat, plain: seq<byte>) returns (ret: Command)
      requires i < |credential.files|
      modifies credential
      ensures (ret == Continue, credential.files) == Stored(lib, old(credential.files), i, plain)
    {
      if |plain| > MAX_FILE_DATA {
        return Stop;
      }
      var room := lib.resize(Sizes(credential.files), i, |plain|);
      if room == Full {
        return Stop;
      }
      if |plain| > 0 && room.Unbacked? {
        credential.files := credential.files[i := credential.files[i].(data := room.left)];
        return Stop;
      }
      credential.files := credential.files[i := credential.files[i].(data := plain)];
      return Continue;
    }
  }

  /** The plaintext of the second message. */
  method JoinNonces(rndA: seq<byte>, rndB: seq<byte>, size: nat) returns (joined: seq<byte>)
    requires |rndA| == |rndB| == size && 0 < size <= 16
    ensures joined == rndA + RotateLeft(rndB)
  {
    hide RotateLeft;
    var rotated := new byte[16];
    Copy(rotated, 0, rndB);
    assert rotated[..size] == rndB;
    RotateInPlace(rotated, size);
    ghost var moved := rotated[..size];
    var plain := new byte[32];
    Copy(plain, 0, rndA);
    assert plain[..size] == rndA;
    Copy(plain, size, rotated[..size]);
    assert plain[size..2 * size] == moved;
    joined := plain[..2 * size];
  }

  /** The all-zero vector. */
  method Clear(iv: array<byte>)
    modifies iv
    ensures forall n | 0 <= n <= iv.Length :: iv[..n] == Zeros(n)
  {
    forall i | 0 <= i < iv.Length {
      iv[i] := 0;
    }
  }

  lemma LegacyAnswerIv<S>(lib: Library<S>, mode: byte, challenge: seq<byte>, token: seq<byte>)
    requires |challenge| == BlockSize(mode) && |token| == 2 * BlockSize(mode)
    ensures mode == AUTH_LEGACY ==> AnswerIv(lib, mode, challenge, token) == Zeros(BlockSize(mode))
  {
  }

  class Application {
    var events: seq<Event>

    constructor ()
      ensures events == []
    {
      events := [];
    }

    /** One event is posted for a run, whatever the card does. */
    method StateMachine<S>(lib: Library<S>, credential: CardFiles, poller: Poller, hasMemory: bool, random: seq<byte>)
      requires |random| == 16
      modifies this, credential, poller
      ensures var run := if hasMemory
                         then Visit(lib, poller.card, old(poller.sent), credential.app, old(credential.files), random)
                         else Run(false, old(poller.sent), old(credential.files));
              && events == old(events) + [if run.ok then PollerSuccess else PollerError]
              && poller.sent == run.sent && credential.files == run.files
    {
      hide Authentication, ReadOne, Primary, ReadAll;
      if !hasMemory {
        events := events + [PollerError];
        return;
      }
      var reader := new Reader(lib, credential, poller);
      var ret := Stop;
      if credential.app.Some? {
        var app := credential.app.value;
        ret := reader.SelectApplication(app.aid);
        if ret == Continue {
          ret := reader.Authenticate(app, 0, app.authCommand, random[..BlockSize(app.authCommand)]);
        }
        if ret == Continue {
          ret := ReadFiles(reader);
        }
        if ret == Continue {
          events := events + [PollerSuccess];
        }
      }
      if ret == Stop {
        events := events + [PollerError];
      }
    }
  }

  /** The file loop: files of other applications are skipped, and a failure ends it. */
  method ReadFiles<S>(reader: Reader<S>) returns (ret: Command)
    requires reader.secureMessaging.Some?
    modifies reader, reader.poller, reader.credential
    ensures reader.secureMessaging.Some?
    ensures var before := old(Reading(reader.poller.sent, reader.secureMessaging.value, reader.credential.files));
            (ret == Continue, Reading(reader.poller.sent, reader.secureMessaging.value, reader.credential.files))
            == ReadAll(reader.lib, reader.poller.card, before, Primary(before.files, |before.files|))
  {
    hide ReadOne, ReadAll, Primary;
    StartReading(reader.lib, reader.poller.card, Reading(reader.poller.sent, reader.secureMessaging.value, reader.credential.files));
    ret := Continue;
    ghost var before := Reading(reader.poller.sent, reader.secureMessaging.value, reader.credential.files);
    var i := 0;
    while i < |reader.credential.files| && ret == Continue
      invariant 0 <= i <= |before.files| == |reader.credential.files| && reader.secureMessaging.Some?
      invariant forall j | 0 <= j < |before.files| :: reader.credential.files[j].appIndex == before.files[j].appIndex
      invariant (ret == Continue, Reading(reader.poller.sent, reader.secureMessaging.value, reader.credential.files))
             == ReadAll(reader.lib, reader.poller.card, before, Primary(before.files, i))
      decreases |before.files| - i
    {
      ReadNext(reader.lib, reader.poller.card, before, i);
      if reader.credential.files[i].appIndex == 0 {
        ret := reader.ReadFile(i);
      }
      i := i + 1;
    }
    if ret == Stop {
      StopStays(reader.lib, reader.poller.card, before, i, |before.files|);
    }
  }

  lemma StartReading<S>(lib: Library<S>, card: Card, st: Reading<S>)
    ensures ReadAll(lib, card, st, Primary(st.files, 0)) == (true, st)
  {
  }

  /** After a failure no further file is read. */
  lemma {:induction false} StopStays<S>(lib: Library<S>, card: Card, st: Reading<S>, i: nat, n: nat)
    requires i <= n <= |st.files| && !ReadAll(lib, card, st, Primary(st.files, i)).0
    ensures ReadAll(lib, card, st, Primary(st.files, n)) == ReadAll(lib, card, st, Primary(st.files, i))
    decreases n
  {
    hide ReadOne, ReadAll, Primary;
    if i < n {
      StopStays(lib, card, st, i, n - 1);
      ReadNext(lib, card, st, n - 1);
    }
  }

  lemma ReadNext<S>(lib: Library<S>, card: Card, st: Reading<S>, i: nat)
    requires i < |st.files|
    ensures ReadAll(lib, card, st, Primary(st.files, i + 1)) ==
            var soFar := ReadAll(lib, card, st, Primary(st.files, i));
            if st.files[i].appIndex == 0 && soFar.0 then ReadOne(lib, card, soFar.1, i) else soFar
  {
    hide ReadOne;
    var idxs := Primary(st.files, i + 1);
    if st.files[i].appIndex == 0 {
      assert idxs[..|idxs| - 1] == Primary(st.files, i) && idxs[|idxs| - 1] == i;
    } else {
      assert idxs == Primary(st.files, i);
    }
  }
}
