# Larmo: the login, the status stream and the data paths

Larmo plays audio files on a remote machine. A daemon on the client's machine logs in to the server
with a proof that it knows the passphrase, forwards commands under a session key, streams the audio
file, and keeps a local copy of the playback status that the server sends as differences. This
project models those parts and proves what they rely on.

## The files

- `Bytes.dfy`, `Numbers.dfy`: octet strings and big-endian numerals; congruences, inverses and
  Euclid's lemma modulo a prime.
- `Curve.dfy`: points with the three octet forms of sections 2.3.3 and 2.3.4 of SEC 1, scalar
  multiplication and its laws. Point addition is a parameter; `PrimeOrder` states the group laws as
  hypotheses. `Instance.dfy` shows that they can be met, by a curve of seven points on which a
  login succeeds.
- `Zkp.dfy`, `ZkpCodec.dfy`, `Hex.dfy`: the Schnorr proof (section 3 of RFC 8235) over a generator
  derived from the passphrase, its serialization, and hexadecimal text. The hash is a parameter.
- `Handshake.dfy`: the two sides of one login, as the classes `PlayerClient` and `PlayerService`.
- `Daemon.dfy`, `Login.dfy`, `LoginCompleteness.dfy`: the daemon's life cycle; any number of daemons
  and strangers against one server, in every interleaving: what is safe, and that the right
  passphrase gets in. A step that is not possible leaves the world as it is, so a run is any
  sequence of steps.
- `Playback.dfy`, `InfoStream.dfy`: playback states and the mpv event loop; the sending loop, the
  receiving loop, and the relation between them.
- `StreamRuns.dfy`, `StreamLoop.dfy`, `StreamHistory.dfy`, `StreamTiming.dfy`: the player's thread,
  the sending loop split at its waits, its reader thread, the channel, the clock and the receiver,
  in every interleaving. The field `record` of the state is bookkeeping for the statements; no step
  depends on it.
- `Audio.dfy`, `AudioRuns.dfy`: the two loops of the audio path, and both in every interleaving with
  the stream and the pipe between them.
- `Format.dfy`, `Tokenize.dfy`: the `%token` formatter and `tokenize`.

Methods follow the loops and the field updates of the source and are proved equal to functions; the
lemmas are about those functions. Randomness, the player's answers, the pipe and the network are
nondeterministic.

## Where the code and its documentation differ

The model follows the code.

- Private keys lie in [1, n - 2]; the comment at crypto/CryptoUtil.cpp:114 says [1, n - 1].
- `SetState` tests the state held so far, not the new one, so it stores FINISHED, against
  PlaybackState.h:54-55. `Playback.DocumentedExactly` says when the two agree, and
  `Playback.NeverHoldsFinishedExactly` and `Playback.HoldsLastExactly` when it makes no difference.
- `make_zkp` builds the id from `string_view::data()`, which cuts it at a NUL, while the challenge
  covers the whole id. `Zkp.MadeProofAcceptedExactly` says when such a proof is still accepted.
- If the volume cannot be read, the old state has been overwritten already and the change is not
  sent. `StreamRuns.LostStateRun` is such a run; `InfoStream.FaithfulExactly` says exactly when
  nothing is lost.
- `generate_session_key` gives up its lock before the key is stored, so two logins can share a key.
  `Login.SharedKeyRun` is such a run; `Login.UniqueKeysExactly` names the steps that break
  uniqueness, `Login.UniqueKeysInRun` the runs.
- `Daemon::Initialize` has a case for being called again after the channel could not be brought up,
  but the first such call has left a joinable thread behind, and assigning a second one ends the
  process (Daemon.cpp:220-221). `Daemon.RetryEndsProcess` is such a series of calls. The callers in
  remote-control.cpp do not try again.
- The server's proof is said to confirm that the server knows the passphrase
  (PlayerServiceImpl.cpp:385). `Handshake.RequestAsReply` says what a client really learns.
- One call of `Daemon::Initialize` never logs in; the daemon is authenticated because
  remote-control.cpp:153-154 leads to a second call.
- `Info` never writes the text after the last token.
- `AudioStream` opens the pipe before it asks the player, and does not close it when the player
  refuses (PlayerServiceImpl.cpp:104-113); the contract of `Audio.AudioStream` says so.

## Model

| member | source | states |
|---|---|---|
| Curve.MulReduced | crypto/CryptoUtil.cpp:223-230 | multiplying a point by a scalar and by the scalar reduced modulo the group order is the same, so the unreduced challenge of the verifier agrees with the reduced one of the prover |
| Curve.FullOrder | crypto/CryptoUtil.cpp:93-97 | every point other than infinity has full order: a multiple of it vanishes exactly for the multiples of n |
| Curve.MulEqual | crypto/CryptoUtil.cpp:246-250 | two multiples of a point agree exactly when the scalars are congruent modulo n |
| Curve.DecodeExactly | crypto/CryptoUtil.cpp:161-171 | octets decode to a point exactly when the point is on the curve and they are its uncompressed, compressed or hybrid form |
| Curve.DecodeEncoded | crypto/CryptoUtil.cpp:142-171 | all forms decode to the point they were made from; the compressed one because the two roots have different parities |
| Curve.OctetForms | crypto/CryptoUtil.cpp:142-159 | the first octet tells the form and the parity of y, the others are the coordinates as big-endian numbers |
| Curve.SelfDelimiting | crypto/CryptoUtil.cpp:203-211 | the uncompressed form of a point can be followed by anything without ambiguity |
| Instance.HypothesesSatisfiable | crypto/CryptoUtil.h:87-99 | the group and hash hypotheses are met by a concrete curve with a hash that keeps the last octet |
| Instance.LoginSatisfiable | PlayerClient.cpp:115-191 | over that curve there is a usable passphrase with a request and a reply that are both accepted |
| Instance.TwoProofsSatisfiable | crypto/CryptoUtil.cpp:289-296 | and there are two accepted proofs with one V and one public key whose challenges differ modulo n |
| Zkp.MakeGenerator | crypto/CryptoUtil.cpp:76-100 | a generator made from a passphrase is on the curve and never at infinity |
| Zkp.GeneratorIsFirstUsable | crypto/CryptoUtil.cpp:76-100 | it is the base point times the first digest in the chain of rehashes that is not a multiple of n |
| Zkp.GeneratorOfDigest | crypto/CryptoUtil.cpp:76-100 | a passphrase whose digest is not a multiple of n gives the base point times its digest, any other one what its digest gives |
| Zkp.SameGenerator | crypto/CryptoUtil.cpp:76-100 | however long either side is allowed to search, the same passphrase gives both the same generator |
| Zkp.GeneratePrivateKey | crypto/CryptoUtil.cpp:102-118 | private keys lie in [1, n - 2] |
| Zkp.PublicKeyHasFullOrder | crypto/CryptoUtil.cpp:132-140 | a generated public key is on the curve, not at infinity, and has full order |
| Zkp.ChallengeInputInjective | crypto/CryptoUtil.cpp:190-211 | the hashed octets determine generator, V, public key and id without length prefixes |
| Zkp.ChallengeInputLayout | crypto/CryptoUtil.cpp:190-211 | they are the uncompressed generator, V and public key, in this order, and then the id |
| Zkp.MakeZkp | crypto/CryptoUtil.cpp:233-253 | the commitment is [v]G for a random v in [1, n - 2], the response lies in [0, n - 1] and solves r + key*c == v modulo n for the challenge of the whole id, and the id is the part before the first NUL |
| Zkp.AnswerUnique | crypto/CryptoUtil.cpp:233-253 | these properties determine the proof: no other response below n, and no other cut of the id, has them |
| Zkp.CheckExactly | crypto/CryptoUtil.cpp:255-297 | for V = [v]B, A = [x]B and generator [t]B the check accepts exactly when V and A are not at infinity, the ids are in order and r*t + c*x is congruent to v modulo n |
| Zkp.AcceptsExactResponse | crypto/CryptoUtil.cpp:255-297 | with one generator, it accepts exactly the responses congruent to v - x*c modulo n, for the unreduced challenge c |
| Zkp.MadeProofAcceptedExactly | crypto/CryptoUtil.cpp:233-297 | a made proof is accepted exactly when its id cut at the first NUL is neither empty nor the verifier's and cutting it does not change the challenge modulo n |
| Zkp.MadeProofAccepted | crypto/CryptoUtil.cpp:233-297 | proofs with ids free of NULs are always accepted |
| Zkp.AcceptedResponseUnique | crypto/CryptoUtil.cpp:289-296 | for any V and public key, the accepted response is unique modulo n |
| Zkp.TwoProofsRevealKey | crypto/CryptoUtil.cpp:289-296 | two accepted proofs with one V and one public key whose challenges differ modulo n determine the private key |
| ZkpCodec.Serialize | crypto/ZkpSerialization.cpp:49-85 | the message has the id, the compressed point and the minimal scalar, or serialization fails |
| ZkpCodec.SerializeRoundTrip | crypto/ZkpSerialization.cpp:22-85 | serialization fails exactly for a zero response; otherwise deserializing gives the proof back |
| ZkpCodec.SerializedExactly | crypto/ZkpSerialization.cpp:22-85 | the messages produced are exactly the readable ones with a compressed or infinite point and a non-empty scalar without leading zeros |
| ZkpCodec.ChallengeAcrossWire | PlayerServiceImpl.cpp:389-390 | the challenge does not depend on whether the points crossed the wire compressed or uncompressed |
| Bytes.FromToBytes | crypto/CryptoUtil.cpp:173-188 | decoding an encoded scalar is the identity, and the encoding has no leading zero |
| Bytes.ToFromBytes | crypto/CryptoUtil.cpp:173-188 | octets without a leading zero are the encoding of their value |
| Bytes.FromBytesAppend | crypto/CryptoUtil.cpp:173-188 | octets to the left weigh more, by a factor of 256 each |
| Hex.ToHex | crypto/CryptoUtil.h:64-78 | the loop, which overwrites its own terminators, leaves exactly the two lower-case digits of every byte, the high half first |
| Hex.UnHexOfHex | crypto/CryptoUtil.h:64-78 | the text can be turned back into the bytes |
| Hex.HexInjective | PlayerServiceImpl.cpp:67-68 | different random bytes give different session keys |
| Hex.GenerateRandomHex | crypto/CryptoUtil.cpp:120-130 | the text has the length asked for and consists of hexadecimal digits |
| Handshake.PlayerService.GenerateSessionKey | PlayerServiceImpl.cpp:64-76 | the key has 64 characters, is not a live session, and is the first draw that is not |
| Handshake.PlayerService.CheckAuth | PlayerServiceImpl.cpp:52-62 | a call is authenticated exactly when it carries the key of a live session |
| Handshake.PlayerService.Authenticate | PlayerServiceImpl.cpp:336-409 | a request whose proof is not accepted is denied and changes nothing; an accepted one adds one new key to the sessions and is answered with it and the server's proof, unless that has a zero response |
| Handshake.PlayerClient.BeginAuthenticate | PlayerClient.cpp:115-144 | the request proves a fresh key pair under a fresh 16-digit id |
| Handshake.PlayerClient.FinishAuthenticate | PlayerClient.cpp:147-191 | the login succeeds, and the session key is replaced, exactly when the reply proves the server's knowledge, is no denial and carries 64 octets; with another number of them, other than none, the assertion fails |
| Handshake.MessageContents | PlayerClient.cpp:115-144 | what requests and replies carry: id, compressed commitment, and the public key compressed in the one, uncompressed next to the session key in the other |
| Handshake.NoProofNoLogin | PlayerClient.cpp:147-166 | a denial, or no reply at all, never ends in a login |
| Handshake.RequestAsReply | PlayerServiceImpl.cpp:384-397 | a client's request with a key added is accepted as a reply exactly by clients of another id: an accepted reply proves that its maker knew the passphrase, not that the server made it |
| Handshake.RequestAccepted | PlayerServiceImpl.cpp:354-373 | with equal passphrases the client's request can be made exactly when its response is not zero, and is then accepted |
| Handshake.ReplyAccepted | PlayerClient.cpp:150-191 | with equal passphrases the server's reply can be made exactly when its response is not zero, and is then accepted together with its key |
| Handshake.HandshakeCompletes | PlayerClient.cpp:115-191 | with equal passphrases the exchange ends with both sides accepting exactly when neither response is zero; the ids never block it |
| Handshake.OtherGenerator | PlayerServiceImpl.cpp:365-368 | a server whose generator is [t] of the client's accepts exactly when the response happens to solve its own equation, r*t + c*x == v modulo n |
| Handshake.OtherPassphrase | PlayerServiceImpl.cpp:354-373 | for two passphrases whose first usable digests are h (client) and k (server), the server accepts exactly when r*k + c*x*h == v*h modulo n |
| Daemon.DaemonProcess.Initialize | Daemon.cpp:105-252 | one call changes the state as the life cycle says; it returns exactly when it ends beyond the point where it started or had nothing left to do, ends the process exactly when it assigns a second tracing thread, and throws otherwise |
| Daemon.OutcomeExactly | Daemon.cpp:105-252 | the same of the life cycle as a function |
| Daemon.DaemonProcess.HandleCommand | Daemon.cpp:275-340 | commands fail exactly until the daemon is authenticated, and lead to the call the table says |
| Daemon.ForwardedExactly | Daemon.cpp:291-318 | which command leads to which remote call |
| Daemon.AuthenticatedExactly | Daemon.cpp:105-252 | after any series of calls the daemon is authenticated exactly when the first call to get as far as the tracing thread, with the configuration loaded by then, found the channel ready and a later call logged in; the process has ended exactly when a call got that far again after the first one had found no channel |
| Daemon.RetryEndsProcess | Daemon.cpp:217-232 | a call that waits for the channel in vain throws; trying again ends the process |
| Login.AuthenticatedHoldsLiveKey | PlayerClient.cpp:168-191 | in every run, an authenticated daemon holds a 64-character key of a live session, and the assertion on the key's size never fails |
| Login.ForwardedCommandsPass | Daemon.cpp:291-334 | every command a daemon forwards passes check_auth, however much later the server looks |
| Login.SessionsNeedProof | PlayerServiceImpl.cpp:354-383 | no key is in the session set without a call whose proof was accepted under the server's generator |
| Login.StepExtends | PlayerServiceImpl.cpp:380-383 | sessions, stored keys and authenticated daemons stay |
| Login.DenialEndsAttempt | PlayerClient.cpp:147-182 | a denial, a reply that could not be made and a lost one end the attempt and change nothing else |
| Login.UniqueKeysExactly | PlayerServiceImpl.cpp:64-76 | a step keeps the keys of different calls different exactly when it does not draw a key that another call has drawn and not yet stored |
| Login.UniqueKeysInRun | PlayerServiceImpl.cpp:64-76 | at the end of any run the keys of different calls are different exactly when no step of it has drawn a key that was drawn and not yet stored then |
| Login.SharedKeyRun | PlayerServiceImpl.cpp:377-383 | two overlapping logins with equal draws end with one session key |
| LoginCompleteness.HonestLoginSucceeds | PlayerServiceImpl.cpp:336-409 | in every run, in any interleaving, a daemon that waits on a call and has the server's generator is never denied; once the call is answered, reading the reply authenticates it under the issued key exactly when the server's response is not zero |
| LoginCompleteness.FreshDaemonCanLogIn | Daemon.cpp:105-242 | a fresh daemon is ready to log in after one call of Initialize exactly when its three steps succeed |
| LoginCompleteness.LoginCompletes | PlayerClient.cpp:115-191 | from any world a daemon with the right passphrase can get in under the server's key, exactly when neither response is zero |
| LoginCompleteness.ServedAlone | PlayerServiceImpl.cpp:336-409 | the four steps of a call, with no other call in between, do what the method of the service does |
| Playback.PlaybackState.SetState | PlaybackState.cpp:34-54 | the new state is stored unless the old one was a finished one, when it is STOPPED, and the callback is called with the new one in either case |
| Playback.NeverHoldsFinishedExactly | PlaybackState.h:47-58 | a finished state is never held exactly as long as none is ever set |
| Playback.HoldsLastExactly | PlaybackState.cpp:34-54 | the state held is the one set last, at every point, exactly when every call that comes upon a finished state sets STOPPED |
| Playback.DocumentedExactly | PlaybackState.h:53-58 | from a state that is not a finished one, every call of a series stores the state the header documents exactly when none sets a finished state |
| Playback.StoredAsDocumented | PlaybackState.cpp:34-54 | one call stores the documented state exactly when it sets no finished state, or comes upon one and sets STOPPED or a finished state |
| Playback.EventLoop | Player.cpp:200-276 | the callback sees, in order, the states that the events mean up to the first failing read: PLAYING for a file loaded without pause and for the end of a pause while the player is not idle, except in the first property change, PAUSED for the beginning of a pause, STOPPED for the end of a file and of any other pause; the state held at the end is the last of them |
| Playback.StatesMeant | Player.cpp:216-270 | the states set are exactly those, one for each event that means one |
| Playback.EventsSetOnlyThree | Player.cpp:216-270 | only PLAYING, PAUSED and STOPPED are ever set |
| InfoStream.TablesAgree | PlaybackSynchronizer.cpp:28-35 | the sender's switch and the receiver's map are inverse to each other, every state goes by its own name, and UNDEFINED leaves the field alone |
| InfoStream.SendingLoop.Prepare | PlayerServiceImpl.cpp:242-306 | one body of the loop fills the message, decides whether to send it, and is cut short by a failing volume read |
| InfoStream.SendingLoop.Wake | PlayerServiceImpl.cpp:317-324 | the state is sampled and the volume remembered |
| InfoStream.SendingLoop.TimeInfoStream | PlayerServiceImpl.cpp:233-331 | the whole loop writes and ends as its turns, one after the other, say, up to a refused Write |
| InfoStream.PlaybackSynchronizer.ContinuousUpdate | PlaybackSynchronizer.cpp:129-168 | after any messages, base_playback_info and the PlaybackState object are those of the messages folded in order, and its callback has heard of exactly the states they carry |
| InfoStream.PlaybackSynchronizer.GetPlaybackInfo | PlaybackSynchronizer.cpp:69-97 | elapsed and remaining time always add up to what the last message said, and move with the clock only while playing |
| InfoStream.AbortedTracks | PlayerServiceImpl.cpp:243-327 | a round cut short keeps receiver and sender in step |
| InfoStream.QuietTracks | PlayerServiceImpl.cpp:301-311 | a round that sends nothing had nothing to tell |
| InfoStream.SendTracks | PlayerServiceImpl.cpp:243-311 | a message brings the receiver up to date, also when UNDEFINED leaves its old state field in place |
| InfoStream.NothingLost | PlayerServiceImpl.cpp:243-311 | if every volume read succeeds, the state announced is the last one other than UNDEFINED |
| InfoStream.FaithfulExactly | PlayerServiceImpl.cpp:269-306 | the receiver is right after every round exactly when the volume can be read in every round that brings a state other than the last defined one |
| StreamRuns.StreamRefinement | PlayerServiceImpl.cpp:241-328 | in every run, the messages written, delivered or in flight, fold to the last volume read, the times of the last round sent (cleared unless it played or had just been paused and could read them) and the last state announced; if the volume is read in every round that brings a new state, that is the last state other than UNDEFINED |
| StreamRuns.LostStateRun | PlayerServiceImpl.cpp:301 | one failing volume read loses a state |
| StreamLoop.RunsTheLoop | PlayerServiceImpl.cpp:241-328 | in every interleaving, the variables of the sending loop and what it has written are what the method that runs the loop makes of some turns |
| StreamHistory.NeverFinished | PlaybackSynchronizer.cpp:133-167 | in every run no component holds FINISHED or FINISHED_ERROR, and the receiver's two copies of the state agree between messages |
| StreamHistory.CarriedStatesEmbed | PlayerServiceImpl.cpp:78-85 | the states carried since the first sample are found, in order, in the history of what the callback stored |
| StreamHistory.CarriedSinceSample | PlayerServiceImpl.cpp:317-324 | the same from any end of the wait at which something had been stored |
| StreamHistory.EventArrives | PlayerServiceImpl.cpp:241-328 | from any point of a run at which the loop waits and nothing is in flight, a state the player sets is at the receiver after one more round, with the volume, and the times if it plays |
| StreamHistory.ReceiverCatchesUp | PlayerServiceImpl.cpp:306-324 | once the history stops, one end of the wait, the body after it up to its Write and an empty channel make the receiver hold its last state |
| StreamTiming.AtMostOneWriteAfterClose | PlayerServiceImpl.cpp:209-311 | in every run at most one Write is called after closeStream became true |
| StreamTiming.EndedStreamStops | PlayerServiceImpl.cpp:209-226 | once the client has ended its side, the loop writes at most one message more whatever happens, and its next look at the condition takes it out for good; after a refused Write it is out and writes nothing |
| StreamTiming.SendRateBound | PlayerServiceImpl.cpp:228-328 | with intervals of at least d and a clock that does not go back, the messages are at most one per d, plus one per wake-up, plus one |
| StreamTiming.DeadlinesDoNotDrift | PlayerServiceImpl.cpp:313-319 | with a constant interval the deadline is the start plus a multiple of the interval, whatever the delays |
| StreamTiming.IntervalTakesEffect | PlayerServiceImpl.cpp:211-219 | the interval the client asks for is what the next wait takes |
| StreamTiming.ClockMoves | PlayerServiceImpl.cpp:228-229 | only the clock moves the clock, by the time that passes |
| Audio.Play | PlayerClient.cpp:201-218 | what was written are the first chunks of the file, all of them unless a write failed |
| Audio.AudioStream | PlayerServiceImpl.cpp:93-135 | the pipe holds a prefix of what was received, all of it when the call ends well and not all of it when a write failed |
| Audio.ChunksAreTheFile | PlayerClient.cpp:205-218 | the chunks joined are the file, and each has 1 to 1024 bytes |
| Audio.ChunkCount | PlayerClient.cpp:205-218 | there are ceil(size / 1024) chunks |
| Audio.ChunkAt | PlayerClient.cpp:205-218 | the k-th chunk has the 1024 bytes from 1024*k on, or what is left of the file there |
| AudioRuns.AudioArrives | PlayerServiceImpl.cpp:115-134 | in every interleaving of client, stream, server and pipe, whatever fails or is cut short, the pipe holds a prefix of the file and what was sent are its first chunks; if all sends succeed, the stream holds and the call ends well, the pipe holds the whole file, sent as ceil(size / 1024) chunks of 1 to 1024 bytes |
| AudioRuns.LoopsEndAsPromised | PlayerClient.cpp:201-221 | in every interleaving, the two loops end as `Audio.Play` and `Audio.AudioStream` promise of what was sent and of what was read |
| AudioRuns.WriteTakes | PlayerServiceImpl.cpp:117-130 | a write puts as many bytes into the pipe as its result says, the next ones of the message |
| AudioRuns.EveryFileCanArrive | PlayerClient.cpp:193-228 | for every file there is a run in which nothing fails and the pipe holds it |
| AudioRuns.TruncatedRun | PlayerServiceImpl.cpp:115-134 | when the stream breaks, the call ends well all the same and the pipe may hold less than the file, although no send has failed |
| Format.ParseSound | PlayerClient.cpp:352-372 | every format splits into well-formed literals and tokens that spell it |
| Format.ParseUnique | PlayerClient.cpp:352-372 | and in no other way |
| Format.Info | PlayerClient.cpp:347-375 | the output is the rendering of the segments up to the last token |
| Format.TokensPrint | PlayerClient.cpp:314-345 | the eight tokens print their fields, the state by its name, and a token prints itself when it is unknown or its field is empty; the literal before it is kept and the rest of the format goes on by itself |
| Format.NoTokenPrintsNothing | PlayerClient.cpp:347-375 | a format without a token prints nothing |
| Format.DropsOnlyTrailingLiteral | PlayerClient.cpp:354-374 | the segments kept end with a token, and what is dropped is at most one literal after them |
| Format.KeptUnique | PlayerClient.cpp:354-374 | no other part of the segments has these two properties |
| Format.UnknownTokensGivePrefix | PlayerClient.cpp:363-372 | when every token is unknown or empty, the output is the format exactly up to the end of its last token |
| Tokenize.Tokenize | Util.cpp:30-49 | the loop yields the tokens of the text |
| Tokenize.TokenizeLosesNothing | Util.cpp:30-49 | there is one token more than delimiters, no token contains one, and interleaving gives the text back |
| Tokenize.TokenizeUnique | Util.cpp:30-49 | no other tokens have these properties |

## Left out

- OpenSSL: point addition, the hash function and the random source are parameters or
  nondeterministic; that the P-256 addition satisfies `PrimeOrder` is a hypothesis.
- Zkp.MakeGenerator: that the rehashing ends is a hypothesis (some digest in the chain is not a
  multiple of n).
- Handshake.PlayerService.GenerateSessionKey: that the loop ends is a hypothesis (some draw is not a
  live session).
- Zero knowledge, and the probability that a proof under another passphrase is accepted: nothing
  probabilistic is stated.
- Hex.ToHex: containers of elements wider than one byte, for which the code never calls it.
- Format.Info: only the ASCII letters count as letters; the numbers are given as the text
  `std::to_string` makes of them.
- Floating point: times are real numbers.
- Login.ForwardedCommandsPass: `check_auth` looks a key up without the lock that is held while keys
  are inserted (PlayerServiceImpl.cpp:52-62 and 381-382), which is a data race; here every lookup is
  atomic, so nothing is said of one that overlaps an insertion.
- Playback.EventLoop: an exception that leaves the loop leaves its thread too (Player.cpp:188) and
  ends the process. Here it ends the loop only, and in `StreamRuns` the event that throws sets no
  state and the rest goes on; the process stops at some point of such a run.
- Login: keys never leave the session set, as in the code; TLS is what ties a reply to the call it
  answers.
- StreamRuns: one stream at a time; a receiver that starts a second stream keeps the info of the
  first, which `InfoStream.PlaybackSynchronizer.ContinuousUpdate` covers.
- `PlaybackSynchronizer::Start` and `Stop`, and their handling of the updating thread.
- mpv, gRPC, asio, sockets, forking, logging, configuration, argument parsing, volume parsing and
  the Emacs client.
- `crypto/BigNum` and `crypto/certs`: wrappers over OpenSSL.
