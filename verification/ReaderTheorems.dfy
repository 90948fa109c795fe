/** What the reader's run establishes: authentication is sound and complete, its messages are
    one chain, and files are read in order until one fails. */
module ReaderTheorems {
  import opened Bytes
  import opened Cbc
  import opened CardVisit

  // ----- Authentication -----

  lemma OneBlock<S>(lib: Library<S>, mode: byte)
    ensures var c := CipherFor(lib, mode);
            c.size == BlockSize(mode) && Whole(c, c.size) && Whole(c, 2 * c.size)
  {
    TwoBlocks(CipherFor(lib, mode));
  }

  function Challenge(card: Card, sent: Trace, mode: byte, keyNo: byte): (r: Option<seq<byte>>)
    ensures r.Some? ==> |r.value| == BlockSize(mode)
  {
    Block(card(sent + [[mode, keyNo]]), ADDITIONAL_FRAME, BlockSize(mode))
  }

  function Answer(card: Card, sent: Trace, mode: byte, keyNo: byte, token: seq<byte>): (r: Option<seq<byte>>)
    ensures r.Some? ==> |r.value| == BlockSize(mode)
  {
    Block(card(sent + [[mode, keyNo]] + [[ADDITIONAL_FRAME] + token]), STATUS_OK, BlockSize(mode))
  }

  /** The only answer that is accepted: the reader's nonce, rotated, under the key and the
      mode's vector. Whatever follows that block is not looked at. */
  function Expected<S>(lib: Library<S>, mode: byte, key: seq<byte>, challenge: seq<byte>, rndA: seq<byte>): (r: seq<byte>)
    requires |challenge| == |rndA| == BlockSize(mode)
    ensures |r| == BlockSize(mode)
  {
    var c := CipherFor(lib, mode);
    OneBlock(lib, mode);
    Encrypt(c, key, AnswerIv(lib, mode, challenge, Token(lib, mode, key, challenge, rndA)), RotateLeft(rndA))
  }

  /** Soundness: a card is accepted exactly when it challenges, and then answers the token
      with the one expected block. */
  lemma AcceptsExactly<S>(lib: Library<S>, card: Card, sent: Trace, mode: byte, keyNo: byte, key: seq<byte>,
                          rndA: seq<byte>)
    requires |rndA| == BlockSize(mode)
    ensures var challenge := Challenge(card, sent, mode, keyNo);
            Authentication(lib, card, sent, mode, keyNo, key, rndA).Accepted? <==>
              challenge.Some?
              && Answer(card, sent, mode, keyNo, Token(lib, mode, key, challenge.value, rndA))
                 == Some(Expected(lib, mode, key, challenge.value, rndA))
  {
    hide Token, AnswerIv, RndB, CipherFor, Decrypt, Encrypt, RotateLeft, Block;
    var challenge := Challenge(card, sent, mode, keyNo);
    if challenge.Some? {
      var token := Token(lib, mode, key, challenge.value, rndA);
      var answer := Answer(card, sent, mode, keyNo, token);
      var iv := AnswerIv(lib, mode, challenge.value, token);
      OneBlock(lib, mode);
      DecryptEncrypt(CipherFor(lib, mode), key, iv, RotateLeft(rndA));
      if answer.Some? {
        EncryptDecrypt(CipherFor(lib, mode), key, iv, answer.value);
      }
    }
  }

  /** What a card with the key makes of the token: the reader's nonce, which it can trust once
      its own comes back rotated, and its answer. */
  function CardAnswer<S>(lib: Library<S>, mode: byte, key: seq<byte>, rndB: seq<byte>, token: seq<byte>)
    : (r: Option<(seq<byte>, seq<byte>)>)
    requires |rndB| == BlockSize(mode) && |token| == 2 * BlockSize(mode)
    ensures r.Some? ==> |r.value.0| == |r.value.1| == BlockSize(mode)
  {
    OneBlock(lib, mode);
    var c, size := CipherFor(lib, mode), BlockSize(mode);
    var challenge := Encrypt(c, key, Zeros(size), rndB);
    var plain := Decrypt(c, key, TokenIv(mode, challenge), token);
    if plain[size..] == RotateLeft(rndB)
    then Some((plain[..size], Encrypt(c, key, AnswerIv(lib, mode, challenge, token), RotateLeft(plain[..size]))))
    else None
  }

  /** A card that follows the mirrored steps with the same key and the nonce rndB. */
  ghost predicate Honest<S>(lib: Library<S>, card: Card, sent: Trace, mode: byte, keyNo: byte, key: seq<byte>,
                            rndB: seq<byte>)
    requires |rndB| == BlockSize(mode)
  {
    OneBlock(lib, mode);
    && Challenge(card, sent, mode, keyNo) == Some(Encrypt(CipherFor(lib, mode), key, Zeros(BlockSize(mode)), rndB))
    && forall token: seq<byte> | |token| == 2 * BlockSize(mode) && CardAnswer(lib, mode, key, rndB, token).Some? ::
         Answer(card, sent, mode, keyNo, token) == Some(CardAnswer(lib, mode, key, rndB, token).value.1)
  }

  /** The reader's token passes the card's check, and gives it the reader's nonce. */
  lemma TokenConvinces<S>(lib: Library<S>, mode: byte, key: seq<byte>, rndA: seq<byte>, rndB: seq<byte>)
    requires |rndA| == |rndB| == BlockSize(mode) && Whole(CipherFor(lib, mode), BlockSize(mode))
    ensures var challenge := Encrypt(CipherFor(lib, mode), key, Zeros(BlockSize(mode)), rndB);
            && RndB(lib, mode, key, challenge) == rndB
            && CardAnswer(lib, mode, key, rndB, Token(lib, mode, key, challenge, rndA))
               == Some((rndA, Expected(lib, mode, key, challenge, rndA)))
  {
    hide AnswerIv, CipherFor, Decrypt, Encrypt, RotateLeft;
    OneBlock(lib, mode);
    var c, size := CipherFor(lib, mode), BlockSize(mode);
    var challenge := Encrypt(c, key, Zeros(size), rndB);
    DecryptEncrypt(c, key, Zeros(size), rndB);
    var plain := rndA + RotateLeft(rndB);
    DecryptEncrypt(c, key, TokenIv(mode, challenge), plain);
    assert plain[..size] == rndA && plain[size..] == RotateLeft(rndB);
  }

  /** Completeness: an honest card is always accepted, in every mode, and both ends then hold
      the same two nonces and the same vector for the session. */
  lemma HonestAccepted<S>(lib: Library<S>, card: Card, sent: Trace, mode: byte, keyNo: byte, key: seq<byte>,
                          rndA: seq<byte>, rndB: seq<byte>)
    requires |rndA| == |rndB| == BlockSize(mode)
    ensures Honest(lib, card, sent, mode, keyNo, key, rndB) ==>
              var a := Authentication(lib, card, sent, mode, keyNo, key, rndA);
              && a.Accepted? && a.rndA == rndA && a.rndB == rndB
              && var token := Token(lib, mode, key, Challenge(card, sent, mode, keyNo).value, rndA);
                 CardAnswer(lib, mode, key, rndB, token) == Some((rndA, a.iv))
  {
    hide Token, AnswerIv, RndB, CipherFor, Decrypt, Encrypt, RotateLeft, Block, CardAnswer, Expected;
    if Honest(lib, card, sent, mode, keyNo, key, rndB) {
      OneBlock(lib, mode);
      TokenConvinces(lib, mode, key, rndA, rndB);
      AcceptsExactly(lib, card, sent, mode, keyNo, key, rndA);
    }
  }

  /** The answers of a card that follows the steps; sent are the frames before it was addressed. */
  function HonestReply<S>(lib: Library<S>, sent: Trace, mode: byte, keyNo: byte, key: seq<byte>, rndB: seq<byte>, t: Trace)
    : Option<seq<byte>>
    requires |rndB| == BlockSize(mode)
  {
    OneBlock(lib, mode);
    var size := BlockSize(mode);
    if t == sent + [[mode, keyNo]] then
      Some([ADDITIONAL_FRAME] + Encrypt(CipherFor(lib, mode), key, Zeros(size), rndB))
    else if t == [] || |t[|t| - 1]| != 1 + 2 * size then None
    else
      match CardAnswer(lib, mode, key, rndB, t[|t| - 1][1..])
      case None => None
      case Some(answer) => Some([STATUS_OK] + answer.1)
  }

  lemma BlockOf(status: byte, block: seq<byte>)
    ensures Block(Some([status] + block), status, |block|) == Some(block)
  {
    assert ([status] + block)[1..1 + |block|] == block;
  }

  lemma HonestReplies<S>(lib: Library<S>, sent: Trace, mode: byte, keyNo: byte, key: seq<byte>, rndB: seq<byte>,
                         token: seq<byte>)
    requires |rndB| == BlockSize(mode) && |token| == 2 * BlockSize(mode)
    requires CardAnswer(lib, mode, key, rndB, token).Some?
    ensures HonestReply(lib, sent, mode, keyNo, key, rndB, sent + [[mode, keyNo]] + [[ADDITIONAL_FRAME] + token])
         == Some([STATUS_OK] + CardAnswer(lib, mode, key, rndB, token).value.1)
  {
    hide CardAnswer, Encrypt, CipherFor;
    var t := sent + [[mode, keyNo]] + [[ADDITIONAL_FRAME] + token];
    assert |t| == |sent| + 2 && t[|t| - 1] == [ADDITIONAL_FRAME] + token && ([ADDITIONAL_FRAME] + token)[1..] == token;
  }

  /** There are such cards, for every key and nonce. */
  lemma HonestExists<S>(lib: Library<S>, sent: Trace, mode: byte, keyNo: byte, key: seq<byte>, rndB: seq<byte>)
    returns (card: Card)
    requires |rndB| == BlockSize(mode)
    ensures Honest(lib, card, sent, mode, keyNo, key, rndB)
  {
    hide CardAnswer, CipherFor, Encrypt, Block;
    OneBlock(lib, mode);
    card := t => HonestReply(lib, sent, mode, keyNo, key, rndB, t);
    BlockOf(ADDITIONAL_FRAME, Encrypt(CipherFor(lib, mode), key, Zeros(BlockSize(mode)), rndB));
    forall token: seq<byte> | |token| == 2 * BlockSize(mode) && CardAnswer(lib, mode, key, rndB, token).Some?
      ensures Answer(card, sent, mode, keyNo, token) == Some(CardAnswer(lib, mode, key, rndB, token).value.1)
    {
      HonestReplies(lib, sent, mode, keyNo, key, rndB, token);
      BlockOf(STATUS_OK, CardAnswer(lib, mode, key, rndB, token).value.1);
    }
  }

  /** Outside the legacy mode the three messages are one CBC encryption, from the zero vector,
      of the card's nonce, the reader's, and both of them rotated. */
  lemma OneChain<S>(lib: Library<S>, card: Card, sent: Trace, mode: byte, keyNo: byte, key: seq<byte>, rndA: seq<byte>)
    requires |rndA| == BlockSize(mode) && mode != AUTH_LEGACY
    requires Authentication(lib, card, sent, mode, keyNo, key, rndA).Accepted?
    ensures var a, c := Authentication(lib, card, sent, mode, keyNo, key, rndA), CipherFor(lib, mode);
            var challenge := Challenge(card, sent, mode, keyNo).value;
            var plain := a.rndB + (rndA + RotateLeft(a.rndB)) + RotateLeft(rndA);
            Whole(c, |plain|)
            && challenge + Token(lib, mode, key, challenge, rndA) + a.iv == Encrypt(c, key, Zeros(BlockSize(mode)), plain)
  {
    hide CipherFor, Decrypt, Encrypt, RotateLeft, Block, NextIv;
    OneBlock(lib, mode);
    AcceptsExactly(lib, card, sent, mode, keyNo, key, rndA);
    var c, zero := CipherFor(lib, mode), Zeros(BlockSize(mode));
    var challenge := Challenge(card, sent, mode, keyNo).value;
    var rndB := RndB(lib, mode, key, challenge);
    EncryptDecrypt(c, key, zero, challenge);
    SingleBlock(c, zero, challenge);
    var token := Token(lib, mode, key, challenge, rndA);
    var middle := rndA + RotateLeft(rndB);
    EncryptAppend(c, key, zero, rndB, middle);
    NextIvAppend(c, zero, challenge, token);
    EncryptAppend(c, key, zero, rndB + middle, RotateLeft(rndA));
  }

  lemma {:induction false} NextIvAppend(c: Cipher, iv: seq<byte>, p: seq<byte>, q: seq<byte>)
    requires |iv| == c.size && Whole(c, |p|) && Whole(c, |q|) && Whole(c, |p + q|)
    ensures NextIv(c, iv, p + q) == NextIv(c, NextIv(c, iv, p), q)
    decreases |p|
  {
    if p == [] {
      assert p + q == q;
    } else {
      assert (p + q)[..c.size] == p[..c.size] && (p + q)[c.size..] == p[c.size..] + q;
      NextIvAppend(c, p[..c.size], p[c.size..], q);
    }
  }

  // ----- The run -----

  function Frames<S>(lib: Library<S>, files: seq<File>, idxs: seq<nat>): Trace
    requires Indices(idxs, |files|)
  {
    seq(|idxs|, k requires 0 <= k < |idxs| => ReadFrame(lib, files[idxs[k]]))
  }

  /** The k-th read, in the state the earlier ones left. */
  function Step<S>(lib: Library<S>, card: Card, st: Reading<S>, idxs: seq<nat>, k: nat): (bool, Reading<S>)
    requires Indices(idxs, |st.files|) && k < |idxs|
  {
    ReadOne(lib, card, ReadAll(lib, card, st, idxs[..k]).1, idxs[k])
  }

  lemma LastStep<S>(lib: Library<S>, card: Card, st: Reading<S>, idxs: seq<nat>)
    requires Indices(idxs, |st.files|) && idxs != []
    ensures var m := |idxs| - 1;
            var before := ReadAll(lib, card, st, idxs[..m]);
            ReadAll(lib, card, st, idxs) == if before.0 then Step(lib, card, st, idxs, m) else before
    ensures Frames(lib, st.files, idxs)
         == Frames(lib, st.files, idxs[..|idxs| - 1]) + [ReadFrame(lib, st.files[idxs[|idxs| - 1]])]
  {
    hide ReadOne, Frames;
    LastFrame(lib, st.files, idxs);
  }

  lemma LastFrame<S>(lib: Library<S>, files: seq<File>, idxs: seq<nat>)
    requires Indices(idxs, |files|) && idxs != []
    ensures Frames(lib, files, idxs)
         == Frames(lib, files, idxs[..|idxs| - 1]) + [ReadFrame(lib, files[idxs[|idxs| - 1]])]
  {
    hide ReadFrame;
  }

  lemma StepBefore<S>(lib: Library<S>, card: Card, st: Reading<S>, idxs: seq<nat>, m: nat)
    requires Indices(idxs, |st.files|) && m <= |idxs|
    ensures forall k | 0 <= k < m :: Step(lib, card, st, idxs[..m], k) == Step(lib, card, st, idxs, k)
  {
    hide ReadOne;
    forall k | 0 <= k < m ensures Step(lib, card, st, idxs[..m], k) == Step(lib, card, st, idxs, k) {
      assert idxs[..m][..k] == idxs[..k];
    }
  }

  /** A run of reads that succeeds attempted every file, each successfully. */
  lemma {:induction false} AllRead<S>(lib: Library<S>, card: Card, st: Reading<S>, idxs: seq<nat>)
    requires Indices(idxs, |st.files|) && ReadAll(lib, card, st, idxs).0
    ensures ReadAll(lib, card, st, idxs).1.sent == st.sent + Frames(lib, st.files, idxs)
    ensures forall j | 0 <= j < |st.files| && j !in idxs :: ReadAll(lib, card, st, idxs).1.files[j] == st.files[j]
    ensures forall k | 0 <= k < |idxs| :: Step(lib, card, st, idxs, k).0
    decreases |idxs|
  {
    hide ReadOne, Step, Frames;
    if idxs == [] {
      NoFrames(lib, st.files);
    } else {
      var m := |idxs| - 1;
      LastStep(lib, card, st, idxs);
      AllRead(lib, card, st, idxs[..m]);
      StepBefore(lib, card, st, idxs, m);
      StepIs(lib, card, st, idxs, m);
      assert idxs == idxs[..m] + [idxs[m]];
    }
  }

  /** The files attempted are the first n, in order: all if every read succeeds, and up to
      the first that fails otherwise. Nothing else is touched. */
  lemma {:induction false} ReadInOrder<S>(lib: Library<S>, card: Card, st: Reading<S>, idxs: seq<nat>) returns (n: nat)
    requires Indices(idxs, |st.files|)
    ensures n <= |idxs|
    ensures ReadAll(lib, card, st, idxs).1.sent == st.sent + Frames(lib, st.files, idxs[..n])
    ensures forall j | 0 <= j < |st.files| && j !in idxs[..n] :: ReadAll(lib, card, st, idxs).1.files[j] == st.files[j]
    ensures if ReadAll(lib, card, st, idxs).0 then n == |idxs| else n > 0 && !Step(lib, card, st, idxs, n - 1).0
    ensures forall k | 0 <= k < n :: (k < n - 1 || ReadAll(lib, card, st, idxs).0) ==> Step(lib, card, st, idxs, k).0
    decreases |idxs|
  {
    hide ReadOne, Step, Frames, ReadAll;
    if ReadAll(lib, card, st, idxs).0 {
      AllRead(lib, card, st, idxs);
      n := |idxs|;
      assert idxs[..n] == idxs;
    } else {
      n := FirstFailure(lib, card, st, idxs);
    }
  }

  lemma {:induction false} FirstFailure<S>(lib: Library<S>, card: Card, st: Reading<S>, idxs: seq<nat>) returns (n: nat)
    requires Indices(idxs, |st.files|) && !ReadAll(lib, card, st, idxs).0
    ensures 0 < n <= |idxs| && !Step(lib, card, st, idxs, n - 1).0
    ensures ReadAll(lib, card, st, idxs).1.sent == st.sent + Frames(lib, st.files, idxs[..n])
    ensures forall j | 0 <= j < |st.files| && j !in idxs[..n] :: ReadAll(lib, card, st, idxs).1.files[j] == st.files[j]
    ensures forall k | 0 <= k < n - 1 :: Step(lib, card, st, idxs, k).0
    decreases |idxs|
  {
    hide ReadOne, Step, Frames, ReadAll;
    NotEmpty(lib, card, st, idxs);
    var m := |idxs| - 1;
    LastStep(lib, card, st, idxs);
    StepBefore(lib, card, st, idxs, m);
    if ReadAll(lib, card, st, idxs[..m]).0 {
      AllRead(lib, card, st, idxs[..m]);
      StepIs(lib, card, st, idxs, m);
      n := m + 1;
      assert idxs[..n] == idxs == idxs[..m] + [idxs[m]];
    } else {
      n := FirstFailure(lib, card, st, idxs[..m]);
      assert idxs[..m][..n] == idxs[..n];
    }
  }

  lemma NotEmpty<S>(lib: Library<S>, card: Card, st: Reading<S>, idxs: seq<nat>)
    requires Indices(idxs, |st.files|) && !ReadAll(lib, card, st, idxs).0
    ensures idxs != []
  {
  }

  lemma NoFrames<S>(lib: Library<S>, files: seq<File>)
    ensures Frames(lib, files, []) == []
  {
  }

  lemma StepIs<S>(lib: Library<S>, card: Card, st: Reading<S>, idxs: seq<nat>, k: nat)
    requires Indices(idxs, |st.files|) && k < |idxs|
    ensures var before, r := ReadAll(lib, card, st, idxs[..k]).1, Step(lib, card, st, idxs, k);
            && r.1.sent == before.sent + [ReadFrame(lib, st.files[idxs[k]])]
            && |r.1.files| == |st.files|
            && forall j | 0 <= j < |st.files| && j != idxs[k] :: r.1.files[j] == before.files[j]
  {
    hide ReadOne;
  }

  /** The files read are those of the primary application, each once and in order. */
  lemma {:induction false} PrimaryMeans(files: seq<File>, n: nat)
    requires n <= |files|
    ensures forall k, l | 0 <= k < l < |Primary(files, n)| :: Primary(files, n)[k] < Primary(files, n)[l]
    ensures forall i | 0 <= i < n :: i in Primary(files, n) <==> files[i].appIndex == 0
  {
    if n > 0 {
      PrimaryMeans(files, n - 1);
      var before, last := Primary(files, n - 1), if files[n - 1].appIndex == 0 then [n - 1] else [];
      assert Primary(files, n) == before + last;
      forall i | 0 <= i < n ensures i in before + last <==> files[i].appIndex == 0 {
        assert i in before + last <==> i in before || i in last;
      }
    }
  }

  /** Once read, a file keeps the card's data for the rest of the run, also if a later read fails. */
  lemma {:induction false} KeepsRead<S>(lib: Library<S>, card: Card, st: Reading<S>, idxs: seq<nat>, k: nat)
    requires Indices(idxs, |st.files|) && k < |idxs| && ReadAll(lib, card, st, idxs[..k]).0
    requires forall a, b | 0 <= a < b < |idxs| :: idxs[a] != idxs[b]
    ensures ReadAll(lib, card, st, idxs).1.files[idxs[k]] == Step(lib, card, st, idxs, k).1.files[idxs[k]]
    decreases |idxs|
  {
    hide ReadOne, ReadAll, Step, Frames;
    var m := |idxs| - 1;
    LastStep(lib, card, st, idxs);
    StepBefore(lib, card, st, idxs, m);
    if k < m {
      assert idxs[..m][..k] == idxs[..k];
      KeepsRead(lib, card, st, idxs[..m], k);
      StepIs(lib, card, st, idxs, m);
    }
  }

  /** A whole run succeeds exactly when the application is selected, the card authenticates, a
      session opens and every primary file can be read in turn. */
  lemma SucceedsExactly<S>(lib: Library<S>, card: Card, sent: Trace, app: Option<App>, files: seq<File>, random: seq<byte>)
    requires |random| == 16
    ensures Visit(lib, card, sent, app, files, random).ok <==>
              && app.Some? && var reply := card(sent + [lib.selectFrame(app.value.aid)]);
              && reply.Some? && |reply.value| > 0 && reply.value[0] == 0x00
              && 0 < app.value.numKeys && 0 < |app.value.keys| && app.value.keys[0].Some?
              && var a := FirstAuth(lib, card, sent, app.value, random);
                 a.Accepted? && var session := Opened(lib, app.value.authCommand, KeyFor(app.value, 0).value, a);
                 session.Some?
                 && forall k | 0 <= k < |Primary(files, |files|)| ::
                      Step(lib, card, Reading(a.sent, session.value, files), Primary(files, |files|), k).0
  {
    hide Authentication, ReadAll, ReadOne, Opened, Primary;
    if app.Some? && KeyFor(app.value, 0).Some? {
      var a := FirstAuth(lib, card, sent, app.value, random);
      if a.Accepted? {
        var session := Opened(lib, app.value.authCommand, KeyFor(app.value, 0).value, a);
        if session.Some? {
          var st := Reading(a.sent, session.value, files);
          var n := ReadInOrder(lib, card, st, Primary(files, |files|));
          assert ReadAll(lib, card, st, Primary(files, |files|)).0
              || (n > 0 && !Step(lib, card, st, Primary(files, |files|), n - 1).0);
        }
      }
    }
  }

  function FirstAuth<S>(lib: Library<S>, card: Card, sent: Trace, app: App, random: seq<byte>): Auth
    requires |random| == 16 && KeyFor(app, 0).Some?
  {
    Authentication(lib, card, sent + [lib.selectFrame(app.aid)], app.authCommand, 0, KeyFor(app, 0).value,
                   random[..BlockSize(app.authCommand)])
  }

  /** The frames of an authentication: its first message, and the second exactly if the card
      challenged. */
  lemma AuthenticationSends<S>(lib: Library<S>, card: Card, sent: Trace, mode: byte, keyNo: byte, key: seq<byte>,
                               rndA: seq<byte>)
    requires |rndA| == BlockSize(mode)
    ensures var challenge := Challenge(card, sent, mode, keyNo);
            Authentication(lib, card, sent, mode, keyNo, key, rndA).sent
            == sent + [[mode, keyNo]]
               + if challenge.None? then [] else [[ADDITIONAL_FRAME] + Token(lib, mode, key, challenge.value, rndA)]
  {
    hide Token;
    assert sent + [[mode, keyNo]] + [] == sent + [[mode, keyNo]];
  }

  /** What a visit has sent when it comes to reading, or ends before it. */
  function Prelude<S>(lib: Library<S>, card: Card, sent: Trace, app: Option<App>, random: seq<byte>): Trace
    requires |random| == 16
  {
    if app.None? then sent
    else if !Selected(card(sent + [lib.selectFrame(app.value.aid)])) || KeyFor(app.value, 0).None?
    then sent + [lib.selectFrame(app.value.aid)]
    else FirstAuth(lib, card, sent, app.value, random).sent
  }

  /** The session a visit opens, if it comes to that. */
  function Ready<S>(lib: Library<S>, card: Card, sent: Trace, app: Option<App>, random: seq<byte>): Option<Session<S>>
    requires |random| == 16
  {
    if app.None? || !Selected(card(sent + [lib.selectFrame(app.value.aid)])) || KeyFor(app.value, 0).None? then None
    else
      var a := FirstAuth(lib, card, sent, app.value, random);
      if a.Rejected? then None else Opened(lib, app.value.authCommand, KeyFor(app.value, 0).value, a)
  }

  /** Every run sends selection, authentication as far as it gets, and then the reads of the
      first n primary files in order; without a session there are none, and a run that fails
      with n reads failed at the n-th. All other files stay as they were. */
  lemma SendsInOrder<S>(lib: Library<S>, card: Card, sent: Trace, app: Option<App>, files: seq<File>, random: seq<byte>)
    returns (n: nat)
    requires |random| == 16
    ensures n <= |Primary(files, |files|)|
    ensures var run, idxs := Visit(lib, card, sent, app, files, random), Primary(files, |files|);
            var session := Ready(lib, card, sent, app, random);
            && run.sent == Prelude(lib, card, sent, app, random) + Frames(lib, files, idxs[..n])
            && |run.files| == |files| && (forall j | 0 <= j < |files| && j !in idxs[..n] :: run.files[j] == files[j])
            && (session.None? ==> n == 0 && !run.ok)
            && (session.Some? ==>
                  var st := Reading(Prelude(lib, card, sent, app, random), session.value, files);
                  && (if run.ok then n == |idxs| else n > 0 && !Step(lib, card, st, idxs, n - 1).0)
                  && forall k | 0 <= k < n :: (k < n - 1 || run.ok) ==> Step(lib, card, st, idxs, k).0)
  {
    hide ReadAll, ReadOne, Opened, Primary, Authentication, Frames, Step;
    n := 0;
    NoFrames(lib, files);
    assert Prelude(lib, card, sent, app, random) + [] == Prelude(lib, card, sent, app, random);
    var session := Ready(lib, card, sent, app, random);
    if session.Some? {
      var st := Reading(Prelude(lib, card, sent, app, random), session.value, files);
      n := ReadInOrder(lib, card, st, Primary(files, |files|));
    }
  }
}
