# DFC in Dafny

A verification model of the parts of DFC, the DESFire card application for the Flipper, that hold state or do
arithmetic worth proving something about. `dafny verify dfyconfig.toml` verifies all of it.

**The card side of ISO-DEP.** Without the SDK's type 4 tag support, the listener callback implements the half-duplex
block protocol of ISO/IEC 14443-4 itself: block numbers, chaining both ways, CID, DESELECT, and the unwrapping of
ISO 7816 commands. `IsoDep` is that protocol as a step function on values; `Listener` is the object with the source's
ten fields, its arrays and its response buffer (`ByteBuf`), and each of its methods is proved to take exactly the step.
The engine behind it (`Engine`) is arbitrary. On top of the step function:

- `Session`, `SessionProof`, `SessionTheorems`: a reader and the listener over a link that may lose any block in either
  direction. Commands run exactly once, with their exact bytes, and the reader gets the right responses.
- `NakRecovery`, `LostBlocks`: where the R(NAK) recovery of the standard (section 7.5.4) does and does not work against
  this listener, and what becomes of a session in which it does not.
- `Replies`: the answer to every block, and the whole state after it, told from the blocks a reader can build;
  `EngineLaws`: the same for a complete APDU.
- `Runs`, `RunTheorems`, `ResetTheorems`, `WrappedSession`: properties of every run over arbitrary events.

**The reader.** `Cbc` is cipher block chaining over an arbitrary keyed permutation (section 6.2 of NIST SP 800-38A),
`CardVisit` says what one visit to a card does, `Reader` is the object that does it, and `ReaderTheorems` holds
soundness and completeness of the mutual authentication and the order of the file reads. `ReaderLaws` has the messages
octet by octet. The card is an arbitrary
function from the frames sent so far to the next answer.

**The answer to select.** `Ats` has both readers of it, the gate at load and the unpacking into the listener's fields.

**Loading a credential.** `Memory` is the one-buffer-at-a-time discipline as an automaton over allocation events; `Load`
is the load with all its exits, against codecs and checks that are arbitrary functions.

**The about text.** `About` is what the text is, `AboutText` the loops that build it, `AboutTheorems` the optimality of
greedy line filling and the exact justification of lines.

`Bytes` holds what is shared, and `Limits` the capacities.

## What the proofs showed about the code

- The listener does not toggle `iso_dep_picc_block` when it accepts a block of a chained command
  (dfc_emulator_listener.c:231-234). After a lost command block, R(NAK) therefore means the wrong thing at every second
  block. `NakRecovery.NakExactly` says, for every moment of every session, that one R(NAK) leaves all that follows right
  and the session completable if and only if the block was not lost or its position is harmless; harmless are the even
  positions, the last block of the first command, and every block but the last of a later one. At the others the reader
  takes the previous response for this one (`NakBreaksLast`, `StaleResponseRun`), or the engine runs a command that lacks
  two blocks (`NakDropsBlocks`, `DroppedBlocksRun`), or the session can never be finished (`NakSticks`, `StuckRun`). The
  reader of module `Session` repeats its last block or uses R(NAK) at the harmless positions, in any mixture.
- A first command that overflows the command store frees the CID again before any response was sent
  (dfc_emulator_listener.c:219-227 with 177-181): `RunTheorems.OverflowFreesCid`. `RunTheorems.BoundStep` says that this
  is the only way a CID is freed without a reset.
- A four-byte wrapped command, without data and without the expected-length byte, is what the probe's builder makes for
  `le=False` (tests/probe_pcsc_mac_read.py:41-44), but it is one byte too short to be unwrapped
  (dfc_emulator_listener.c:270) and reaches the engine as it is. `Engine.WrappedRoundTrip` includes it.
- A load that fails before the file is in memory returns false without clearing the credential
  (dfc_credential_storage.c:320), and the entry point does not clear it either when no path was chosen (415-418). In all
  other cases false means cleared: `Load.FileLoad` and `Load.LoadSelectedFile` say which is which.
- Unpacking an answer to select whose length octet is wrong can still lose nothing; `Ats.PrintsBack` says exactly when.

## Model

| member | source | states |
|---|---|---|
| `ByteBuf.Buffer.Alloc` | port/dfc_bytebuf_flipper.c:14-19 | no buffer if the size is above the maximum or the heap refuses, else a new empty one |
| `ByteBuf.Buffer.constructor` | port/dfc_bytebuf_flipper.c:16-18 | an allocated buffer is zeroed, hence empty |
| `ByteBuf.Buffer.Reset` | port/dfc_bytebuf_flipper.c:25-27 | the contents become empty, whatever they were |
| `ByteBuf.Buffer.AppendBytes` | port/dfc_bytebuf_flipper.c:29-36 | an append that fits extends the contents; one that does not, or one to a corrupt size, changes nothing |
| `ByteBuf.Buffer.AppendByte` | port/dfc_bytebuf_flipper.c:38-41 | the same for a single byte |
| `ByteBuf.Buffer.GetByte` | port/dfc_bytebuf_flipper.c:51-53 | a byte of the contents, zero beyond them |
| `ByteBuf.Buffer.AppendEach` | port/dfc_bytebuf_flipper.c:29-41 | any sequence of appends keeps what is in front of it and adds exactly those that fit |
| `Engine.Dispatch` | dfc_emulator_listener.c:240-313 | the response to an APDU never outgrows the buffer behind its prologue |
| `Engine.WrappedRoundTrip` | dfc_emulator_listener.c:270-311 | a wrapped command that fits reaches the engine once, as instruction followed by data; the answer is the concatenation of what the engine wrote, in its wrapped form if it is not empty and has one that fits; the four-byte form reaches it raw |
| `Engine.WrappedOverrun` | dfc_emulator_listener.c:270-279 | the engine is not called exactly if Lc overruns the APDU or the scratch buffer, and the answer is then the length error |
| `EngineLaws.LastAppend` | port/dfc_bytebuf_flipper.c:29-36 | appends go in in order, and one that does not fit is dropped whole |
| `EngineLaws.OverlongApdu` | dfc_emulator_listener.c:247-252 | an APDU longer than the store is answered 91 7E without a call |
| `EngineLaws.NativeApdu` | dfc_emulator_listener.c:291-313 | a native command reaches the engine as it is, and what the engine wrote goes back as it is |
| `EngineLaws.StandardApdu` | dfc_emulator_listener.c:257-268 | a standard APDU is offered as a SELECT first; if that declines it is run natively, and the answer is what both wrote |
| `EngineLaws.WrappedAnswer` | dfc_emulator_listener.c:270-311 | any wrapped APDU with a right length octet, whatever follows the data: what the engine gets and what goes back |
| `IsoDepLemmas.IPcbForm` | dfc_emulator_listener.c:176-181 | a control byte that passes the I-block mask is the I-block control byte of its own number, chaining bit and CID bit |
| `IsoDepLemmas.NextResponseIsSegment` | dfc_emulator_listener.c:65-86 | the next frame of a response is its prologue with number and chaining bit, and the head of the unsent rest; the offset moves past it or returns to zero |
| `IsoDepLemmas.SegmentStarts` | dfc_emulator_listener.c:72-81 | such a frame starts with the right prologue, has the chaining bit exactly if more follows, and has the right length |
| `IsoDepLemmas.ExecuteIsFirstSegment` | dfc_emulator_listener.c:89-95 | a completed command is answered with the first segment of the engine's response under the expected number, which then toggles |
| `IsoDepLemmas.ContinuedIsNextSegment` | dfc_emulator_listener.c:152-155 | continuing sends the next segment under the other number and keeps the invariant |
| `IsoDepLemmas.StepInv` | dfc_emulator_listener.c:101-343 | every event keeps the invariant: a nonzero offset lies inside a valid response with no command pending and alternating numbers, a valid last frame has 1 to 62 bytes and the bound CID, the command fits its store; at most one frame is sent |
| `Replies.BlockForms` | dfc_emulator_listener.c:58-63 | every block of the protocol octet by octet, with and without CID |
| `Replies.ReplyToI` | dfc_emulator_listener.c:176-313 | for every I-block in every state: the frame sent, the APDU run and every field afterwards, over all of CID rule, number, overflow, chunk and completion |
| `Replies.ReplyToR` | dfc_emulator_listener.c:143-161 | for every R-block: last frame, next frame, acknowledgement or nothing, and every field |
| `Replies.ReplyToDeselect` | dfc_emulator_listener.c:162-175 | DESELECT under the bound CID is echoed and resets the fields, under another it is ignored |
| `Replies.ReplyToPps` | dfc_emulator_listener.c:135-141 | exactly the two PPS blocks for 106 kbit/s are answered, with their first octet, and nothing changes |
| `Replies.OthersIgnored` | dfc_emulator_listener.c:121-176 | any other block gets no answer and changes nothing |
| `Replies.ReplyToReset` | dfc_emulator_listener.c:316-339 | a halt and a loss of field send nothing and reset every field but the stale CID and response |
| `Replies.EndIsEchoed` | dfc_emulator_listener.c:162-166 | whatever block ends an activation is sent back as it came |
| `Listener.Listener.constructor` | scenes/dfc_scene_emulate.c:122-129 | the state before the first block |
| `Listener.Listener.SendFrame` | dfc_emulator_listener.c:19-49 | a frame goes out unless it is too long for the radio buffer |
| `Listener.Listener.SendControl` | dfc_emulator_listener.c:59-63 | one control block goes out, with the CID when one is used |
| `Listener.Listener.LoadNextFrame` | dfc_emulator_listener.c:72-84 | the in-place frame equals prologue and next chunk, and the offset moves past it or to zero |
| `Listener.Listener.SendNextIResponse` | dfc_emulator_listener.c:65-86 | the fields after it and the frame sent are those of the step function |
| `Listener.Listener.SendIResponse` | dfc_emulator_listener.c:89-95 | likewise for starting a response; an empty buffer sends nothing |
| `Listener.Listener.AppendLengthError` | dfc_emulator_listener.c:248-249 | the two status bytes go behind what the buffer holds |
| `Listener.Listener.HandleCommand` | dfc_emulator_listener.c:291 | the engine's appends land behind the prologue, which they do not disturb |
| `Listener.Listener.WrapResponse` | dfc_emulator_listener.c:295-311 | a nonempty response is replaced by its wrapped form behind the same prologue exactly if there is one and both fit the scratch buffer |
| `Listener.Listener.Unwrap` | dfc_emulator_listener.c:280-288 | the scratch buffer holds instruction and data |
| `Listener.Listener.RunNativeCommand` | dfc_emulator_listener.c:253-311 | buffer, engine and calls are those of the specification |
| `Listener.Listener.RunApdu` | dfc_emulator_listener.c:240-311 | the same for a whole APDU, with the SELECT attempt and the length check |
| `Listener.Listener.Execute` | dfc_emulator_listener.c:240-313 | run an APDU and start its response: one protocol step on the fields |
| `Listener.Listener.OnPps` | dfc_emulator_listener.c:135-141 | a PPS for 106 kbit/s is echoed, any other ignored; no field changes |
| `Listener.Listener.ContinueResponse` | dfc_emulator_listener.c:152-155 | the fields take the continuation step |
| `Listener.Listener.OnRBlock` | dfc_emulator_listener.c:143-161 | the fields take the R-block step: repeat, continue, acknowledge or ignore |
| `Listener.Listener.ResetActivation` | dfc_emulator_listener.c:166-172 | the engine is reset and seven fields return to their start; the stale rest stays |
| `Listener.Listener.OnSBlock` | dfc_emulator_listener.c:162-175 | a DESELECT for the bound CID is sent back and ends the activation, any other S-block is ignored |
| `Listener.Listener.Collect` | dfc_emulator_listener.c:229-230 | the block's bytes are added to the command store |
| `Listener.Listener.OutOfSequence` | dfc_emulator_listener.c:182-199 | the last frame again, or the right one of two control blocks |
| `Listener.Listener.RefuseBlock` | dfc_emulator_listener.c:200-212 | one negative control block, no change |
| `Listener.Listener.AcknowledgeChunk` | dfc_emulator_listener.c:231-235 | the expected number toggles and the chunk is acknowledged |
| `Listener.Listener.CompleteCommand` | dfc_emulator_listener.c:215-239 | what is run is the store's content followed by the last block, and the store is empty afterwards |
| `Listener.Listener.InSequence` | dfc_emulator_listener.c:200-239 | refusal, overflow discard, chunk or completion, as the step function says |
| `Listener.Listener.TakeIBlock` | dfc_emulator_listener.c:182-239 | the number decides between the two cases above |
| `Listener.Listener.OnIBlock` | dfc_emulator_listener.c:176-240 | a foreign CID is ignored once it is bound and binds before |
| `Listener.Listener.OnReceived` | dfc_emulator_listener.c:117-315 | one block: every field, every frame sent and every engine call are those of the step function, and the invariant holds again |
| `Listener.Listener.OnHalted` | dfc_emulator_listener.c:316-327 | the same for a halt |
| `Listener.Listener.OnFieldOff` | dfc_emulator_listener.c:328-339 | the same for the loss of the field |
| `Listener.Listener.Callback` | dfc_emulator_listener.c:101-343 | the same for any event |
| `Server.ResponsesPrefix` | dfc_emulator_listener.c:291-313 | a prefix of the commands gives a prefix of the responses |
| `SessionProof.OnIBlockIs` | dfc_emulator_listener.c:176-181 | an I-block a reader builds is taken under its own number, chaining bit and CID |
| `SessionProof.OnRBlockIs` | dfc_emulator_listener.c:143-160 | an R-block a reader builds: which of the three answers it gets |
| `SessionProof.TakeStores` | dfc_emulator_listener.c:218-235 | a chained block that fits is stored and acknowledged |
| `SessionProof.TakeExecutes` | dfc_emulator_listener.c:236-313 | the last block runs the whole command and is answered with the first segment |
| `SessionProof.HearAnswer` | dfc_emulator_listener.c:146-155 | the reader that hears an answer has a longer start of the engine's response, or all of it |
| `SessionTheorems.ExchangeKeeps` | dfc_emulator_listener.c:143-240 | every exchange, whatever is lost in it, keeps the joint invariant of reader and listener and makes the measured progress |
| `SessionTheorems.ExactlyOnce` | dfc_emulator_listener.c:65-240 | over every run of a lossy link: the listener ran a prefix of the reader's commands, each once and with its exact bytes, at most one ahead; the reader's responses are the engine's, in order, and what it holds of the current one is its start |
| `SessionTheorems.Delivery` | dfc_emulator_listener.c:65-240 | when the clean exchanges outnumber the recoveries by the number of blocks needed, every command has run and every response has arrived |
| `SessionProof.NakAnswerIs` | dfc_emulator_listener.c:143-160 | what R(NAK) for a command block is answered with: nothing while no CID is bound, else an acknowledgement or the previous response, by position |
| `SessionProof.HearNakAnswer` | dfc_emulator_listener.c:146-159 | at a harmless position the reader only learns that it has to repeat the block |
| `NakRecovery.NakKeeps` | dfc_emulator_listener.c:146-159 | R(NAK) keeps the joint invariant unless the block was lost at a harmful position |
| `NakRecovery.JointStaysRight` | dfc_emulator_listener.c:65-240 | from a state with the joint invariant every run is right and can be finished |
| `NakRecovery.NakBreaksLast` | dfc_emulator_listener.c:146-151 | at a harmful last position the reader records the previous response for a command that did not run |
| `NakRecovery.NakBreaksChunk` | dfc_emulator_listener.c:156-159 | at another harmful position the reader moves past a block that the listener lacks |
| `NakRecovery.NakSticks` | dfc_emulator_listener.c:182-199 | if one block is left then, over every later run nothing reaches the engine and the session is never finished |
| `NakRecovery.NakDropsBlocks` | dfc_emulator_listener.c:182-235 | if more are left, every later run is right for the commands without the lost block and the next, and some run is therefore wrong for the real ones |
| `NakRecovery.NakOnLostBlock` | dfc_emulator_listener.c:143-161 | in every state with the joint invariant R(NAK) leaves all later runs right and completable if and only if the block was not lost or its position is harmless |
| `NakRecovery.NakExactly` | dfc_emulator_listener.c:143-240 | the same for every moment of every session over a lossy link, in observable terms only |
| `NakRecovery.StuckRun` | dfc_emulator_listener.c:156-159 | a concrete session that R(NAK) makes hang forever |
| `NakRecovery.DroppedBlocksRun` | dfc_emulator_listener.c:156-159 | a concrete session in which the engine runs the first and last of four blocks |
| `LostBlocks.SkippedExchange` | dfc_emulator_listener.c:182-198 | past a lost block the listener's refusal of the next one passes for its acknowledgement |
| `LostBlocks.ShiftExchange` | dfc_emulator_listener.c:143-240 | past the gap an exchange is one of the session with the shortened command |
| `LostBlocks.RightForShortened` | dfc_emulator_listener.c:182-239 | from there on every run is right for the shortened commands |
| `NakRecovery.StaleResponseRun` | dfc_emulator_listener.c:231-235 | a concrete run that ends with the first response recorded twice |
| `WrappedSession.WrappedDelivery` | dfc_emulator_listener.c:215-291 | wrapped commands cut into any blocks, over a lossy link: the engine is called with a prefix of the native commands, each once, and with all of them once enough gets through |
| `WrappedSession.WrappedCalls` | tests/probe_pcsc_mac_read.py:41-44 | a list of wrapped commands is, at the engine, the list of instructions and data |
| `Runs.StepFollows` | dfc_emulator_listener.c:117-340 | in every state each event has exactly the effect of what its bytes mean: ignored, chunk, final block, overflow, continuation or end |
| `Runs.RunFollows` | dfc_emulator_listener.c:182-239 | over every run: the expected number is the count of accepted blocks and continuations since the last reset modulo two, the store holds the blocks since the last hand-off, discard or reset, and each command handed over is the concatenation of its blocks |
| `Runs.CompletedFits` | dfc_emulator_listener.c:218-230 | a command of more than one block that is handed over fits the store |
| `Runs.OnRBlockCases` | dfc_emulator_listener.c:143-161 | an R-block either continues the response or changes nothing |
| `Runs.RForm` | dfc_emulator_listener.c:143-144 | an R-block that passes the mask is R(ACK) or R(NAK) of its own number and CID |
| `Runs.DeselectForm` | dfc_emulator_listener.c:162-164 | the S-blocks obeyed are exactly the DESELECT blocks |
| `RunTheorems.RepeatStep` | dfc_emulator_listener.c:146-151 | a repeated block is answered with the last frame and changes nothing |
| `RunTheorems.StutterInsensitive` | dfc_emulator_listener.c:146-188 | any number of repeats, anywhere in a run, each get the same frame and change neither the rest of the run nor its end |
| `RunTheorems.ForeignCid` | dfc_emulator_listener.c:177-181 | while the CID is bound a block with another one changes nothing and is not answered |
| `RunTheorems.BoundStep` | dfc_emulator_listener.c:143-240 | a bound CID does not change without a reset, every frame but an echoed PPS carries it, and only an overflow before the first response frees it |
| `RunTheorems.CidStable` | dfc_emulator_listener.c:145-181 | the same over every run |
| `RunTheorems.OverflowFreesCid` | dfc_emulator_listener.c:219-227 | a run in which the overflow of a first command frees the CID and the next block binds another |
| `RunTheorems.SegmentsCarryAll` | dfc_emulator_listener.c:72-83 | the payloads of a response's frames concatenate to the response |
| `RunTheorems.SegmentsCount` | dfc_emulator_listener.c:72-83 | there are max(1, ceil(n / room)) frames |
| `RunTheorems.SegmentsForm` | dfc_emulator_listener.c:72-85 | all frames but the last are 62 bytes with the chaining bit, the last has none, and numbers alternate |
| `RunTheorems.AcksFetch` | dfc_emulator_listener.c:152-155 | one acknowledgement per frame fetches the rest of a response, without a call to the engine |
| `RunTheorems.ResponseRun` | dfc_emulator_listener.c:65-155 | the block that completes a command, then its acknowledgements: the frames sent are exactly the segments of the engine's response, and the command ran once |
| `ResetTheorems.AlikeStep` | dfc_emulator_listener.c:117-340 | states that differ only in stale fields behave alike: each is read only behind its flag |
| `ResetTheorems.ResetForgets` | dfc_emulator_listener.c:162-339 | after an obeyed DESELECT, a halt or a loss of field every later run is that of a fresh listener |
| `Cbc.DecryptEncrypt` | dfc_reader.c:120-128 | decrypting undoes encrypting, for every key, vector and number of blocks |
| `Cbc.EncryptDecrypt` | dfc_reader.c:171-181 | and the other way round |
| `Cbc.EncryptAppend` | dfc_reader.c:141-149 | encrypting in parts with the vector carried over is encrypting the whole |
| `Cbc.ChainedBlock` | dfc_reader.c:141-154 | every block of ciphertext is the encryption of its plaintext added, octet by octet, to the ciphertext before it or to the vector |
| `Cbc.NextIvIs` | dfc_reader.c:141-143 | the vector left behind is the last block of ciphertext |
| `Cbc.EncryptInPlace` | dfc_reader.c:150-154 | the caller's vector is left as the last ciphertext block |
| `Cbc.DecryptInPlace` | dfc_reader.c:176-181 | likewise |
| `Reader.RotateInPlace` | dfc_reader.c:130-132 | every octet moves one place to the front, the first to the end, and the rest of the buffer stays |
| `Reader.Reader.Exchange` | dfc_reader.c:42-53 | one frame is sent, and the answer is in the receive buffer or the exchange failed |
| `Reader.Reader.SelectApplication` | dfc_reader.c:75-90 | continues exactly on an answer with status OK |
| `Reader.Reader.MakeToken` | dfc_reader.c:120-159 | the second message is the specified token, and outside the legacy mode the vector is left for the card's answer |
| `Reader.Reader.VerifyAnswer` | dfc_reader.c:168-190 | accepts exactly if the answer decrypts to the rotated nonce under the mode's vector |
| `Reader.Reader.OpenSession` | dfc_reader.c:192-207 | the old session is gone, the new one has the derived key, the mode's vector and the reader's mark, or there is none |
| `Reader.Reader.ProveAndVerify` | dfc_reader.c:130-210 | everything after the challenge, on the fields |
| `Reader.Reader.Authenticate` | dfc_reader.c:92-211 | continues exactly if key, card and session allow it; a card that fails leaves the old session alone, a session that cannot be opened leaves none, success leaves one |
| `Reader.Reader.ReadFile` | dfc_reader.c:213-270 | needs a session, keeps one, and is the read that ReaderLaws.ReadOctets describes from the card's answer |
| `Reader.Reader.UnwrapData` | dfc_reader.c:240-254 | the two ways of unwrapping, and which empty results are failures |
| `Reader.Reader.StoreData` | dfc_reader.c:255-269 | the file holds the data, or what the pool left of it when it refused the size or had no storage |
| `Reader.ReadFiles` | dfc_reader.c:298-304 | the loop reads the primary files in order until one fails |
| `Reader.StopStays` | dfc_reader.c:299-304 | after a failed read nothing more is read |
| `Reader.Application.StateMachine` | dfc_reader.c:272-317 | exactly one event is posted, success or error, and it is success exactly for a successful visit |
| `CardVisit.ReadOne` | dfc_reader.c:213-270 | one read sends one frame and changes at most the data of its file; without status OK it fails and changes nothing |
| `CardVisit.Stored` | dfc_reader.c:255-267 | data is stored if and only if it is not too large and the pool has room for it, and then is the card's data |
| `ReaderTheorems.AcceptsExactly` | dfc_reader.c:156-190 | the card is accepted if and only if it challenges and the first block of its answer is the encryption of the reader's nonce, moved up by one octet, under the mode's vector |
| `ReaderTheorems.TokenConvinces` | dfc_reader.c:130-160 | a card with the key recovers the reader's nonce from the token and sees its own, rotated |
| `ReaderTheorems.HonestAccepted` | dfc_reader.c:107-190 | a card that follows the mirrored steps with the same key is always accepted, in every mode, and both ends hold the same nonces and vector |
| `ReaderTheorems.HonestExists` | dfc_reader.c:107-166 | for every key and nonce there is a card that follows those steps |
| `ReaderTheorems.OneChain` | dfc_reader.c:141-181 | outside the legacy mode the three messages are one CBC encryption of the four nonces from the zero vector |
| `ReaderTheorems.ReadInOrder` | dfc_reader.c:298-305 | the files attempted are a prefix in order: all of them on success, up to the first failing one otherwise; the others are untouched |
| `ReaderTheorems.PrimaryMeans` | dfc_reader.c:299-301 | they are exactly the files of application 0, each once, in table order |
| `ReaderTheorems.KeepsRead` | dfc_reader.c:263-267 | a file keeps the data read for the rest of the run, also if a later read fails |
| `ReaderTheorems.AuthenticationSends` | dfc_reader.c:107-160 | authentication sends its first message, and the second exactly if the card challenged |
| `ReaderTheorems.SucceedsExactly` | dfc_reader.c:285-308 | a visit succeeds if and only if selection, authentication, the session and every primary file read succeed |
| `ReaderTheorems.SendsInOrder` | dfc_reader.c:285-308 | every run sends selection, authentication as far as it gets, then the reads of a prefix of the primary files; without a session none, and a failed run failed at its last read; all other files are untouched |
| `ReaderLaws.NoChallenge` | dfc_reader.c:109-115 | without a challenge of the right length and status authentication ends after one frame |
| `ReaderLaws.TokenOctets` | dfc_reader.c:120-159 | the second message deciphers to the reader's nonce and the card's with every octet moved up by one; which vectors the modes use |
| `ReaderLaws.AnswerOctets` | dfc_reader.c:168-190 | the last message is right exactly if it deciphers to the reader's nonce with every octet moved up by one |
| `ReaderLaws.AuthenticationOctets` | dfc_reader.c:107-207 | from the card's two answers alone: the frames sent, whether the card is accepted, and the session opened, with the order of the nonces and the vector |
| `ReaderLaws.ReadOctets` | dfc_reader.c:217-269 | from the card's answer alone: whether a read succeeds, what the file then holds and what the session becomes |
| `Ats.ListenerData.SetAts` | scenes/dfc_scene_emulate.c:15-42 | for an answer of any content the fields are those at the places T0 gives them, zero where absent; no octet beyond the answer is read |
| `Ats.Take` | scenes/dfc_scene_emulate.c:32-34 | the running index reads the place that T0 determines, or nothing |
| `Ats.IsRadioSupported` | dfc_credential_storage.c:141-161 | the gate accepts exactly the empty answer and the complete ones whose unpacked fields say 64-byte frames, 106 kbit/s, FWI at least 8 and no NAD |
| `Ats.PrintsBack` | scenes/dfc_scene_emulate.c:24-41 | the fields print back to the answer if and only if all beyond its declared length is announced interface bytes that are zero |
| `Ats.UnpackedOctets` | scenes/dfc_scene_emulate.c:24-41 | the octet each field comes from, or zero |
| `Ats.GateOctets` | dfc_credential_storage.c:145-160 | an answer is accepted if and only if it is spelled TL, T0, zero TA(1) if announced, TB(1) of at least 80, even TC(1) if announced, historical bytes |
| `Ats.GateMeansRoundTrip` | dfc_credential_storage.c:145-160 | what passes the gate prints back, with the promised fields |
| `Memory.FreedOnce` | dfc_credential_storage.c:354-406 | in a disciplined run every buffer is freed before anything else is allocated or freed |
| `Memory.FreedAsOften` | dfc_credential_storage.c:354-406 | over such a run no buffer is leaked and none is freed twice |
| `Memory.AllocatesIdle` | dfc_credential_storage.c:347-363 | whenever a buffer is allocated, all earlier ones are freed and the codec is closed |
| `Memory.Memory.Malloc` | dfc_credential_storage.c:363-367 | only while no buffer is held and the codec is closed; a refused request yields none |
| `Memory.Memory.Free` | dfc_credential_storage.c:403-404 | only the buffer that is held |
| `Load.TextCodec.Open` | dfc_credential_storage.c:58-95 | every failure frees the manager again |
| `Load.TextCodec.Close` | dfc_credential_storage.c:97-101 | the codec is closed afterwards, whether it was open or not |
| `Load.ReadWholeFile` | dfc_credential_storage.c:256-304 | the buffer returned holds the whole file, or there is none, none is left, and the status says why, as Load.RefusedBecause spells out |
| `Load.HasHeapFor` | dfc_credential_storage.c:135-139 | the test holds exactly if the request fits the largest block and, together with the reserve, the free heap |
| `Load.DecodeAndCheck` | dfc_credential_storage.c:375-396 | accepts exactly a decodable credential that passes the UID, ATS and radio gates |
| `Load.CompileText` | dfc_credential_storage.c:329-373 | the source is freed before the copy is allocated, the codec is closed by then, and exactly one buffer is left to the caller, or none |
| `Load.LoadSource` | dfc_credential_storage.c:323-410 | on every path nothing stays allocated or open and the credential is the accepted one, named, or cleared |
| `Load.FileLoad` | dfc_credential_storage.c:306-411 | true iff the status is OK; memory is disciplined, ends as it began and never holds more than the larger of source and copy; false clears the credential exactly when the file had been read |
| `Load.LoadSelectedFile` | dfc_credential_storage.c:413-434 | false clears the credential exactly when a path was chosen; the name is the current one or the file's |
| `Load.LoadedAtsIsEmulated` | dfc_credential_storage.c:381-396 | a loaded credential passed every gate, and its answer to select reaches the listener octet for octet with the promised fields |
| `Load.Accepted` | dfc_credential_storage.c:257-396 | a file is accepted iff it opens, is read whole, has 1 to 16384 octets, fits the heap with the reserve of its kind, and its octets, or those its text compiles to, decode to a credential that passes the gates |
| `Load.RefusedBecause` | dfc_credential_storage.c:163-393 | which status each refusal gets, stage by stage |
| `AboutText.WordLen` | scenes/dfc_scene_about.c:15-22 | the length of the leading word |
| `AboutText.SpreadSpaces` | scenes/dfc_scene_about.c:35-43 | base and extra spaces give the specified gap at every place |
| `AboutText.AppendLine` | scenes/dfc_scene_about.c:24-57 | exactly the rendered line is appended |
| `AboutText.StoreWord` | scenes/dfc_scene_about.c:84-86 | the word arrays hold one more word, at an index inside them |
| `AboutText.TakeWord` | scenes/dfc_scene_about.c:75-88 | one turn of the loop moves one word from what is unread to the line being filled, closing that line first if the word does not fit |
| `AboutText.AppendParagraph` | scenes/dfc_scene_about.c:59-94 | exactly the rendered greedy lines are appended |
| `AboutTheorems.TwelveWords` | scenes/dfc_scene_about.c:60-86 | a line holds at most twelve words, so the arrays of 24 are never overrun |
| `AboutTheorems.LinesSplit` | scenes/dfc_scene_about.c:66-93 | the lines are a split of the words, in order, into lines that fit |
| `AboutTheorems.WordsAre` | scenes/dfc_scene_about.c:65-75 | what the words of a text are: none, one, or those on both sides of a space |
| `AboutTheorems.LinesAreFull` | scenes/dfc_scene_about.c:75-82 | the word that starts a line would not have fitted on the one before |
| `AboutTheorems.GreedyIsOptimal` | scenes/dfc_scene_about.c:66-93 | no split into fitting lines has fewer lines |
| `AboutTheorems.BalancedGaps` | scenes/dfc_scene_about.c:39-43 | quotient and remainder are the one way to spread a total so that gaps differ by at most one, wider ones first |
| `AboutTheorems.JustifiedGaps` | scenes/dfc_scene_about.c:35-49 | the gaps of a justified line are balanced, at least one wide, and fill it |
| `AboutTheorems.GapAt` | scenes/dfc_scene_about.c:45-54 | between two words of a line there are exactly the blanks of that gap |
| `AboutTheorems.RenderedLine` | scenes/dfc_scene_about.c:45-54 | a rendered line reads back as its words, and a justified one of two or more is 24 wide |
| `AboutTheorems.ParagraphText` | scenes/dfc_scene_about.c:59-94 | the text read back line by line: the paragraph's words in order, every line but the last of two or more words exactly 24 wide, the others at natural width, and no split into fitting lines is shorter |

## Left out

- The branch for SDKs with `type_4_tag.h`, where the SDK does the block protocol.
- The radio: a frame sent is an element of a trace, without CRC, bit buffer allocation or transmission errors.
- View events, popups, notifications, logging and the memory probe.
- The engine, secure messaging, session-key derivation, DES, AES and the two credential codecs (`lib/core`, `lib/tiny-crypto-c`) are not part of this model; they are arbitrary functions. Assumed of them: the engine only appends to the response buffer; wrapping keeps the block prologue and refuses what does not fit the scratch buffer; each block cipher is a permutation of its blocks under every key, of 16 bytes for AES and 8 otherwise; CBC leaves the last ciphertext block in the vector; an encoder that needs more room than it was given reports capacity.
- Constants from headers that are not part of this model: DFC_WORKER_MAX_BUFFER_SIZE is at least 64, DFC_BYTEBUF_MAX at least as large; the classes are 0x00 and 0x90, the length error status 0x7E, OK 0x00, additional frame 0xAF, the authentication commands 0x0A, 0x1A and 0xAA, ReadData 0xBD, plain communication 0x00; the CID and NAD masks are those of ISO/IEC 14443-4. The file name length and the extension stay open.
- Null pointers (`if(!b)`, `if(!data)`, `if(status)`): the objects exist, and the load always reports its status.
- The reader's buffers of constant content, such as the received challenge, are values; only the vector, the rotated nonces and the plaintext are arrays. Wiping of key material is not modelled.
- Listener.Listener.SendFrame: a frame that is handed over and then lost for want of a radio buffer (dfc_emulator_listener.c:28-32) or by a transmission error counts as sent; the fields have moved on by then, so that to a session it is a frame lost by the link.
- SessionTheorems.ExactlyOnce: the link may lose blocks but not change, reorder or duplicate them, and the reader uses R(NAK) at exactly the positions that NakRecovery.NakExactly shows to be harmless.
- SessionTheorems.Delivery: counts exchanges; time-outs and the standard's retry limits are not modelled.
- Whether the listener's own 0xB2 replies conform to the standard: no claim.
- Saving and deleting credentials, their paths and dialogs, and the scenes other than the two functions cited.
- `dfc_about_build_text`, which appends the five fixed paragraphs with empty lines between them.
- Reader allocation, UID capture and the poller's event dispatch (dfc_reader.c:12-38, 55-73, 319-359), beyond the failure of the allocation.
- The PC/SC probes and generators, except the command builder that Engine.WrappedApdu restates.
