/** What the reader does to a card: select the application, authenticate, read its files.
    The card is an arbitrary function from the frames sent so far to its next answer. */
module CardVisit {
  import opened Bytes
  import opened Cbc

  const AUTH_LEGACY: byte := 0x0A
  const AUTH_AES: byte := 0xAA
  const ADDITIONAL_FRAME: byte := 0xAF
  const STATUS_OK: byte := 0x00
  const READ_DATA: byte := 0xBD
  const COMM_PLAIN: byte := 0x00
  const MAX_FILE_DATA := 2048

  type Trace = seq<seq<byte>>
  type Card = Trace -> Option<seq<byte>>

  type Aes = c: Cipher | c.size == 16 ghost witness BlockCipher(16, (k, b) => b, (k, b) => b)
  type Des = c: Cipher | c.size == 8 ghost witness BlockCipher(8, (k, b) => b, (k, b) => b)

  /** How the file pool takes a new size: not at all, without storage behind it, whatever that
      leaves of the file, or properly. */
  datatype Room = Full | Unbacked(left: seq<byte>) | Backed

  /** The parts of the engine that the reader calls, over a secure messaging state S. */
  datatype Library<!S> = Library(
    aes: Aes, des: Des,
    selectFrame: seq<byte> -> seq<byte>,
    readParameters: byte -> seq<byte>,
    derive: (byte, seq<byte>, seq<byte>, seq<byte>) -> seq<byte>,
    open: (byte, seq<byte>, Option<seq<byte>>) -> Option<S>,
    appliesEv1: (S, byte) -> bool,
    updateEv1: (S, byte, seq<byte>) -> S,
    unwrapEv1: (S, byte, seq<byte>) -> (S, Option<seq<byte>>),
    unwrap: (S, byte, byte, seq<byte>) -> (S, seq<byte>),
    resize: (seq<nat>, nat, nat) -> Room)

  /** Secure messaging; pcd marks the reader's end. */
  datatype Session<+S> = Session(state: S, pcd: bool)

  datatype App = App(aid: seq<byte>, authCommand: byte, numKeys: nat, keys: seq<Option<seq<byte>>>)

  datatype File = File(number: byte, appIndex: nat, comm: byte, data: seq<byte>)

  function CipherFor<S>(lib: Library<S>, mode: byte): (c: Cipher)
    ensures c.size == BlockSize(mode)
  {
    if mode == AUTH_AES then lib.aes else lib.des
  }

  function BlockSize(mode: byte): nat {
    if mode == AUTH_AES then 16 else 8
  }

  function KeyFor(app: App, keyNo: byte): (r: Option<seq<byte>>)
    ensures r.Some? ==> keyNo as nat < app.numKeys && keyNo as nat < |app.keys| && r == app.keys[keyNo as nat]
    ensures r.None? && keyNo as nat < app.numKeys ==> keyNo as nat >= |app.keys| || app.keys[keyNo as nat].None?
  {
    if keyNo as nat < app.numKeys && keyNo as nat < |app.keys| then app.keys[keyNo as nat] else None
  }

  /** The first octet goes to the end. */
  function RotateLeft(s: seq<byte>): (r: seq<byte>)
    ensures |r| == |s|
    ensures forall i | 0 < i < |s| :: r[i - 1] == s[i]
    ensures s != [] ==> r[|s| - 1] == s[0]
  {
    if s == [] then [] else s[1..] + [s[0]]
  }

  function Zeros(n: nat): (r: seq<byte>)
    ensures |r| == n
  {
    seq(n, _ => 0)
  }

  // ----- Authentication -----

  /** The first block after a status, if the answer has that status and is long enough. */
  function Block(reply: Option<seq<byte>>, status: byte, size: nat): (r: Option<seq<byte>>)
    ensures r.Some? ==> |r.value| == size
  {
    if reply.Some? && |reply.value| >= 1 + size && reply.value[0] == status then Some(reply.value[1..1 + size]) else None
  }

  /** The vector that starts the second message: legacy starts over, the others go on from
      the card's challenge. */
  function TokenIv(mode: byte, challenge: seq<byte>): (r: seq<byte>)
    ensures |challenge| == BlockSize(mode) ==> |r| == BlockSize(mode)
  {
    if mode == AUTH_LEGACY then Zeros(BlockSize(mode)) else challenge
  }

  function RndB<S>(lib: Library<S>, mode: byte, key: seq<byte>, challenge: seq<byte>): (r: seq<byte>)
    requires |challenge| == BlockSize(mode)
    ensures |r| == BlockSize(mode)
  {
    Decrypt(CipherFor(lib, mode), key, Zeros(BlockSize(mode)), challenge)
  }

  function Token<S>(lib: Library<S>, mode: byte, key: seq<byte>, challenge: seq<byte>, rndA: seq<byte>): (r: seq<byte>)
    requires |challenge| == |rndA| == BlockSize(mode)
    ensures |r| == 2 * BlockSize(mode)
  {
    var plain := rndA + RotateLeft(RndB(lib, mode, key, challenge));
    TwoBlocks(CipherFor(lib, mode));
    Encrypt(CipherFor(lib, mode), key, TokenIv(mode, challenge), plain)
  }

  lemma TwoBlocks(c: Cipher)
    ensures Whole(c, c.size) && Whole(c, 2 * c.size)
  {
    assert Whole(c, 0) && Whole(c, c.size);
  }

  /** The vector of the card's last message. */
  function AnswerIv<S>(lib: Library<S>, mode: byte, challenge: seq<byte>, token: seq<byte>): (r: seq<byte>)
    requires |challenge| == BlockSize(mode) && |token| == 2 * BlockSize(mode)
    ensures |r| == BlockSize(mode)
  {
    TwoBlocks(CipherFor(lib, mode));
    if mode == AUTH_LEGACY then Zeros(BlockSize(mode)) else NextIv(CipherFor(lib, mode), TokenIv(mode, challenge), token)
  }

  /** The card proved that it knows rndA, and both nonces and the vector that is left are known. */
  datatype Auth = Rejected(sent: Trace) | Accepted(sent: Trace, rndA: seq<byte>, rndB: seq<byte>, iv: seq<byte>)

  /** From the challenge on: the reader's token, and the card's answer to it. */
  function Proof<S>(lib: Library<S>, card: Card, sent: Trace, mode: byte, key: seq<byte>, challenge: seq<byte>,
                    rndA: seq<byte>): Auth
    requires |challenge| == |rndA| == BlockSize(mode)
  {
    var token := Token(lib, mode, key, challenge, rndA);
    var after := sent + [[ADDITIONAL_FRAME] + token];
    match Block(card(after), STATUS_OK, BlockSize(mode))
    case None => Rejected(after)
    case Some(answer) =>
      if Decrypt(CipherFor(lib, mode), key, AnswerIv(lib, mode, challenge, token), answer) == RotateLeft(rndA)
      then Accepted(after, rndA, RndB(lib, mode, key, challenge), answer)
      else Rejected(after)
  }

  function Authentication<S>(lib: Library<S>, card: Card, sent: Trace, mode: byte, keyNo: byte, key: seq<byte>,
                             rndA: seq<byte>): Auth
    requires |rndA| == BlockSize(mode)
  {
    var asked := sent + [[mode, keyNo]];
    match Block(card(asked), ADDITIONAL_FRAME, BlockSize(mode))
    case None => Rejected(asked)
    case Some(challenge) => Proof(lib, card, asked, mode, key, challenge, rndA)
  }

  /** The session that two authenticated ends share. */
  function Opened<S>(lib: Library<S>, mode: byte, key: seq<byte>, a: Auth): Option<Session<S>>
    requires a.Accepted?
  {
    var initial := if mode == AUTH_LEGACY then None else Some(a.iv);
    match lib.open(mode, lib.derive(mode, key, a.rndA, a.rndB), initial)
    case None => None
    case Some(state) => Some(Session(state, true))
  }

  // ----- Reading files -----

  datatype Reading<+S> = Reading(sent: Trace, session: Session<S>, files: seq<File>)

  function Sizes(files: seq<File>): (r: seq<nat>)
    ensures |r| == |files|
  {
    seq(|files|, i requires 0 <= i < |files| => |files[i].data|)
  }

  function ReadFrame<S>(lib: Library<S>, file: File): seq<byte> {
    [READ_DATA] + lib.readParameters(file.number)
  }

  /** The card's data and the session after it, or None where unwrapping fails. */
  function Unwrapped<S>(lib: Library<S>, session: Session<S>, ev1: bool, comm: byte, wrapped: seq<byte>)
    : (Session<S>, Option<seq<byte>>)
  {
    if ev1 then
      var (state, plain) := lib.unwrapEv1(session.state, STATUS_OK, wrapped);
      (session.(state := state), plain)
    else
      var (state, plain) := lib.unwrap(session.state, comm, STATUS_OK, wrapped);
      (session.(state := state), if plain == [] && wrapped != [] && comm != COMM_PLAIN then None else Some(plain))
  }

  /** The data goes into the file if it is not too large and the pool has room. */
  function Stored<S>(lib: Library<S>, files: seq<File>, i: nat, plain: seq<byte>): (r: (bool, seq<File>))
    requires i < |files|
    ensures |r.1| == |files| && forall j | 0 <= j < |files| && j != i :: r.1[j] == files[j]
    ensures r.1[i] == files[i].(data := r.1[i].data)
    ensures r.0 ==> r.1[i].data == plain
    ensures var room := lib.resize(Sizes(files), i, |plain|);
            r.0 <==> |plain| <= MAX_FILE_DATA && !room.Full? && (room.Unbacked? ==> plain == [])
  {
    if |plain| > MAX_FILE_DATA then (false, files)
    else match lib.resize(Sizes(files), i, |plain|)
      case Full => (false, files)
      case Unbacked(left) => (plain == [], files[i := files[i].(data := if plain == [] then [] else left)])
      case Backed => (true, files[i := files[i].(data := plain)])
  }

  /** The session once the read command has gone into it. */
  function AfterCommand<S>(lib: Library<S>, session: Session<S>, file: File): Session<S> {
    if lib.appliesEv1(session.state, READ_DATA)
    then session.(state := lib.updateEv1(session.state, READ_DATA, lib.readParameters(file.number)))
    else session
  }

  function ReadOne<S>(lib: Library<S>, card: Card, st: Reading<S>, i: nat): (r: (bool, Reading<S>))
    requires i < |st.files|
    ensures r.1.sent == st.sent + [ReadFrame(lib, st.files[i])]
    ensures |r.1.files| == |st.files| && forall j | 0 <= j < |st.files| && j != i :: r.1.files[j] == st.files[j]
    ensures r.1.files[i] == st.files[i].(data := r.1.files[i].data)
    ensures var reply := card(r.1.sent);
            !(reply.Some? && reply.value != [] && reply.value[0] == STATUS_OK) ==> !r.0 && r.1.files == st.files
    ensures r.0 ==> |r.1.files[i].data| <= MAX_FILE_DATA
  {
    var ev1 := lib.appliesEv1(st.session.state, READ_DATA);
    var session := AfterCommand(lib, st.session, st.files[i]);
    var sent := st.sent + [ReadFrame(lib, st.files[i])];
    var reply := card(sent);
    if reply.None? || reply.value == [] || reply.value[0] != STATUS_OK then (false, Reading(sent, session, st.files))
    else
      var (after, plain) := Unwrapped(lib, session, ev1, st.files[i].comm, reply.value[1..]);
      if plain.None? then (false, Reading(sent, after, st.files))
      else
        var (ok, files) := Stored(lib, st.files, i, plain.value);
        (ok, Reading(sent, after, files))
  }

  predicate Indices(idxs: seq<nat>, n: nat) {
    forall k | 0 <= k < |idxs| :: idxs[k] < n
  }

  /** Files are read in order until one fails. */
  function ReadAll<S>(lib: Library<S>, card: Card, st: Reading<S>, idxs: seq<nat>): (r: (bool, Reading<S>))
    requires Indices(idxs, |st.files|)
    ensures |r.1.files| == |st.files|
    ensures forall j | 0 <= j < |st.files| :: r.1.files[j] == st.files[j].(data := r.1.files[j].data)
  {
    if idxs == [] then (true, st)
    else
      var (ok, before) := ReadAll(lib, card, st, idxs[..|idxs| - 1]);
      if ok then ReadOne(lib, card, before, idxs[|idxs| - 1]) else (false, before)
  }

  /** The files of the primary application among the first n. */
  function Primary(files: seq<File>, n: nat): (r: seq<nat>)
    requires n <= |files|
    ensures Indices(r, n)
  {
    if n == 0 then []
    else Primary(files, n - 1) + if files[n - 1].appIndex == 0 then [n - 1] else []
  }

  // ----- A whole run -----

  datatype Run = Run(ok: bool, sent: Trace, files: seq<File>)

  predicate Selected(reply: Option<seq<byte>>) {
    reply.Some? && reply.value != [] && reply.value[0] == STATUS_OK
  }

  function Visit<S>(lib: Library<S>, card: Card, sent: Trace, app: Option<App>, files: seq<File>, random: seq<byte>): Run
    requires |random| == 16
  {
    if app.None? then Run(false, sent, files)
    else
      var selecting := sent + [lib.selectFrame(app.value.aid)];
      var mode, key := app.value.authCommand, KeyFor(app.value, 0);
      if !Selected(card(selecting)) || key.None? then Run(false, selecting, files)
      else
        var a := Authentication(lib, card, selecting, mode, 0, key.value, random[..BlockSize(mode)]);
        if a.Rejected? || Opened(lib, mode, key.value, a).None? then Run(false, a.sent, files)
        else
          var (ok, st) := ReadAll(lib, card, Reading(a.sent, Opened(lib, mode, key.value, a).value, files),
                                  Primary(files, |files|));
          Run(ok, st.sent, st.files)
  }
}
