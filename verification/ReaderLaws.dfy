/** The messages of a visit octet by octet: what authentication sends and accepts, which session
    it opens, and what a read makes of the card's answer. */
module ReaderLaws {
  import opened Bytes
  import opened Cbc
  import opened CardVisit
  import opened ReaderTheorems

  /** Every octet of s one place further to the front, the first one last. */
  predicate MovedUp(s: seq<byte>, r: seq<byte>) {
    |r| == |s| && forall i | 0 <= i < |r| :: r[i] == s[(i + 1) % |s|]
  }

  lemma RotationIs(s: seq<byte>, r: seq<byte>)
    requires s != [] && |r| == |s|
    ensures r == RotateLeft(s) <==> MovedUp(s, r)
  {
    assert RotateLeft(s)[|s| - 1] == s[0];
    forall i | 0 <= i < |s| ensures RotateLeft(s)[i] == s[(i + 1) % |s|] {
      if i < |s| - 1 { assert (i + 1) % |s| == i + 1; } else { assert (i + 1) % |s| == 0; }
    }
  }

  /** An answer with this status, and at least size octets behind it. */
  predicate Answers(reply: Option<seq<byte>>, status: byte, size: nat) {
    reply.Some? && |reply.value| >= 1 + size && reply.value[0] == status
  }

  lemma BlockIs(reply: Option<seq<byte>>, status: byte, size: nat)
    ensures Block(reply, status, size) == if Answers(reply, status, size) then Some(reply.value[1..1 + size]) else None
  {
  }

  lemma NoChallenge<S>(lib: Library<S>, card: Card, sent: Trace, mode: byte, keyNo: byte, key: seq<byte>, rndA: seq<byte>)
    requires |rndA| == if mode == 0xAA then 16 else 8
    ensures !Answers(card(sent + [[mode, keyNo]]), 0xAF, |rndA|) ==>
              Authentication(lib, card, sent, mode, keyNo, key, rndA) == Rejected(sent + [[mode, keyNo]])
  {
  }

  /** The second message, deciphered: the reader's nonce, then the card's, whose octets have
      moved one place to the front. The legacy mode starts from the zero vector, the others
      from the challenge. */
  lemma TokenOctets<S>(lib: Library<S>, mode: byte, key: seq<byte>, challenge: seq<byte>, rndA: seq<byte>, zero: seq<byte>)
    requires |challenge| == |rndA| == |zero| == if mode == 0xAA then 16 else 8
    requires forall i | 0 <= i < |zero| :: zero[i] == 0
    ensures var c: Cipher := if mode == 0xAA then lib.aes else lib.des;
            var token := Token(lib, mode, key, challenge, rndA);
            && Whole(c, c.size) && Whole(c, |token|) && |token| == 2 * c.size && c.size == |rndA|
            && var rndB := Decrypt(c, key, zero, challenge);
               && RndB(lib, mode, key, challenge) == rndB
               && var plain := Decrypt(c, key, if mode == 0x0A then zero else challenge, token);
                  plain[..|rndA|] == rndA && MovedUp(rndB, plain[|rndA|..])
  {
    hide Decrypt, Encrypt, RotateLeft;
    var c: Cipher := if mode == 0xAA then lib.aes else lib.des;
    OneBlock(lib, mode);
    assert zero == Zeros(|rndA|);
    var rndB := Decrypt(c, key, zero, challenge);
    var plain := rndA + RotateLeft(rndB);
    DecryptEncrypt(c, key, TokenIv(mode, challenge), plain);
    RotationIs(rndB, RotateLeft(rndB));
    assert plain[|rndA|..] == RotateLeft(rndB);
  }

  /** The last message must decipher to the reader's nonce with every octet moved one place to
      the front; the legacy mode starts from the zero vector again, the others from the last
      block sent. */
  lemma AnswerOctets<S>(lib: Library<S>, mode: byte, key: seq<byte>, challenge: seq<byte>, token: seq<byte>,
                        rndA: seq<byte>, answer: seq<byte>, zero: seq<byte>)
    requires |challenge| == |rndA| == |zero| == |answer| == (if mode == 0xAA then 16 else 8) && |token| == 2 * |rndA|
    requires forall i | 0 <= i < |zero| :: zero[i] == 0
    ensures var c: Cipher := if mode == 0xAA then lib.aes else lib.des;
            && Whole(c, c.size) && c.size == |rndA|
            && var plain := Decrypt(c, key, if mode == 0x0A then zero else token[|rndA|..], answer);
               Decrypt(c, key, AnswerIv(lib, mode, challenge, token), answer) == RotateLeft(rndA) <==> MovedUp(rndA, plain)
  {
    hide Decrypt, RotateLeft, NextIv;
    var c: Cipher := if mode == 0xAA then lib.aes else lib.des;
    OneBlock(lib, mode);
    assert zero == Zeros(|rndA|);
    NextIvIs(c, TokenIv(mode, challenge), token);
    RotationIs(rndA, Decrypt(c, key, if mode == 0x0A then zero else token[|rndA|..], answer));
  }

  /** From the card's answers alone: the second frame, whether the card is accepted, and what
      is known then. */
  lemma AuthenticationOctets<S>(lib: Library<S>, card: Card, sent: Trace, mode: byte, keyNo: byte, key: seq<byte>,
                                rndA: seq<byte>, zero: seq<byte>)
    requires |rndA| == |zero| == (if mode == 0xAA then 16 else 8) && forall i | 0 <= i < |zero| :: zero[i] == 0
    requires Answers(card(sent + [[mode, keyNo]]), 0xAF, |rndA|)
    ensures var n, c: Cipher := |rndA|, if mode == 0xAA then lib.aes else lib.des;
            var challenge := card(sent + [[mode, keyNo]]).value[1..1 + n];
            var a := Authentication(lib, card, sent, mode, keyNo, key, rndA);
            && |a.sent| == |sent| + 2 && a.sent[..|sent| + 1] == sent + [[mode, keyNo]]
            && var frame := a.sent[|sent| + 1];
               && |frame| == 1 + 2 * n && frame[0] == 0xAF && c.size == n && Whole(c, n) && Whole(c, 2 * n)
               && var token, rndB := frame[1..], Decrypt(c, key, zero, challenge);
                  var second := Decrypt(c, key, if mode == 0x0A then zero else challenge, token);
                  && second[..n] == rndA && MovedUp(rndB, second[n..])
                  && (a.Accepted? <==>
                        && Answers(card(a.sent), 0x00, n)
                        && MovedUp(rndA, Decrypt(c, key, if mode == 0x0A then zero else token[n..],
                                                 card(a.sent).value[1..1 + n])))
                  && (a.Accepted? ==>
                        && a.rndA == rndA && a.rndB == rndB && a.iv == card(a.sent).value[1..1 + n]
                        && var state := lib.open(mode, lib.derive(mode, key, rndA, rndB),
                                                 if mode == 0x0A then None else Some(card(a.sent).value[1..1 + n]));
                           Opened(lib, mode, key, a) == if state.None? then None else Some(Session(state.value, true)))
  {
    hide Decrypt, Encrypt, RotateLeft, Token, RndB, AnswerIv, CipherFor;
    var n := |rndA|;
    BlockIs(card(sent + [[mode, keyNo]]), 0xAF, n);
    var challenge := card(sent + [[mode, keyNo]]).value[1..1 + n];
    TokenOctets(lib, mode, key, challenge, rndA, zero);
    var token := Token(lib, mode, key, challenge, rndA);
    var after := sent + [[mode, keyNo]] + [[ADDITIONAL_FRAME] + token];
    BlockIs(card(after), 0x00, n);
    CipherIs(lib, mode);
    if Answers(card(after), 0x00, n) {
      AnswerOctets(lib, mode, key, challenge, token, rndA, card(after).value[1..1 + n], zero);
    }
    assert Authentication(lib, card, sent, mode, keyNo, key, rndA).sent == after;
    assert ([ADDITIONAL_FRAME] + token)[1..] == token;
  }

  lemma CipherIs<S>(lib: Library<S>, mode: byte)
    ensures CipherFor(lib, mode) == if mode == 0xAA then lib.aes else lib.des
  {
  }

  /** A read, from the card's answer: only an answer with status OK counts; what follows the
      status is unwrapped, under EV1 after the command went into the session; and what comes
      out is the file's data, if it is not too large and the pool has room. */
  lemma ReadOctets<S>(lib: Library<S>, card: Card, st: Reading<S>, i: nat, sizes: seq<nat>)
    requires i < |st.files| == |sizes| && forall k | 0 <= k < |sizes| :: sizes[k] == |st.files[k].data|
    ensures var file, state := st.files[i], st.session.state;
            var parameters := lib.readParameters(file.number);
            var sent := st.sent + [[0xBD] + parameters];
            var r, ev1 := ReadOne(lib, card, st, i), lib.appliesEv1(state, 0xBD);
            && r.1.sent == sent && r.1.session.pcd == st.session.pcd
            && if !(card(sent).Some? && card(sent).value != [] && card(sent).value[0] == 0x00) then
                 !r.0 && r.1.files == st.files
               else
                 var wrapped := card(sent).value[1..];
                 var fed := lib.updateEv1(state, 0xBD, parameters);
                 var plain := if ev1 then lib.unwrapEv1(fed, 0x00, wrapped).1
                              else Some(lib.unwrap(state, file.comm, 0x00, wrapped).1);
                 var fails := plain.None? || (!ev1 && plain.value == [] && wrapped != [] && file.comm != 0x00);
                 && r.1.session.state == (if ev1 then lib.unwrapEv1(fed, 0x00, wrapped).0
                                          else lib.unwrap(state, file.comm, 0x00, wrapped).0)
                 && if fails || |plain.value| > 2048 then !r.0 && r.1.files == st.files
                    else
                      var room := lib.resize(sizes, i, |plain.value|);
                      && (r.0 <==> room.Backed? || (room.Unbacked? && plain.value == []))
                      && r.1.files == if r.0 then st.files[i := file.(data := plain.value)]
                                      else if room.Unbacked? then st.files[i := file.(data := room.left)]
                                      else st.files
  {
    assert sizes == Sizes(st.files);
  }
}
