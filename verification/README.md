# NovaKey daemon: a verified model of the message pipeline

NovaKey lets a paired phone send a secret that the daemon types into the focused window. This
project models, in Dafny 4.11, what stands between a request on the wire and that keystroke, and
proves what it guarantees over every run:

- `ReplayGuard`, `ReplayHistory`, `FixedWindow`, `RateHistory`: freshness window, evicting replay
  cache and per-device rate limiter. The main results are that the constants (120 s skew, 300 s
  age, 600 s cache life) tolerate clock readings that are exactly 180 s stale; that, on a clock that
  shows at most `top` seconds, a signed timestamp is replay-safe exactly when its age does not wrap at
  any reading up to `top - 601`, that is, early enough for an entry stored then to expire by `top`;
  that the forgetful cache decides as the full history would; that a rejected call is invisible to
  everything after it exactly if the clock never runs backwards; and the largest number of messages
  that any span of time can let through, attained for every limit, width and staleness.
- `HelloLimiter`: the pairing limiter, which counts differently and obeys the same bound.
- `Gates`, `MsgHandler`, `MsgSystem`, `MsgInvariants`, `MsgAuthorisation`, `MsgScreen`, `MsgOutcomes`,
  `MsgSolo`: the arm gate, the two-man gate and the handlers as a concurrent step system. Every injector call of every
  interleaving is matched to its own accepted frame, arm grant and approval, with a text that passed the
  filter and a target that the policy allowed; grants are conserved and last as long as the message and
  the configuration say; every handler does and says exactly what its request, the configuration and the
  answers of the operating system call for; no sealed message reaches the injector twice or authorises two
  keystrokes.
- `BigEndian`, `MessageFrame`, `OuterFrame`, `WireRoundTrip`, `WireToInjector`: inner and outer frame, with
  the client's encoder and the daemon's decoder in separate programs, and the step system fed with real
  bytes: behind every keystroke of every run lie bytes equal to what a holder of the device key sends for
  that text, for the arming and for the approval.
- `LineWriter`, `RedactBlobs`, `RequestId`: the line-buffering log writer, the long-blob redactor and the
  request numbers of the log.
- `PairToken`, `TargetPolicy`, `DeviceStore`: the one-time pairing token, the focused-target policy and
  the device-store upsert.

Objects that the daemon updates in place are classes whose methods are proved against functions on
their state; the theorems about whole runs are lemmas about those functions. `dafny verify
dfyconfig.toml` checks everything.

## Hypotheses

- Wall-clock readings (seconds) are positive and at most 2^62. Timestamps are any int64: the wrap-around
  of `now - ts` is modelled, not assumed away.
- `now` is read before the replay mutex is taken, so readings in lock order may run backwards. Where this
  matters, a lemma carries a bound `d` on how stale a reading may be (`Stalled`).
- Each gate reads the monotonic clock inside its own lock, so the readings of one gate do not decrease.
  Nothing is assumed about the order of readings of different gates.
- The configuration is fixed during a run, and milliseconds times 1,000,000 do not overflow.
- ML-KEM, HKDF, XChaCha20-Poly1305, base64 and JSON are functions with the usual inverse laws
  (`Crypto.Lawful`, `TextForm.Lawful`; device ids are valid UTF-8, so JSON returns what it was given).
  AEAD opening accepts exactly what sealing produces; that nobody without the key can produce such bytes
  is not part of the model.
- The device store is the same while one request is decrypted; it may change from one request to the next.
- What the operating system answers (focus, injector, clipboard, keyring, disk, randomness) is an
  arbitrary input of each step.

## Where code and documentation disagree

`PROTOCOL.md` (section 3.3) calls the timestamp an unsigned 64-bit number. The code converts it to a
signed one before the freshness test, and the model follows the code. `ReplaySafeIffWrapsTooLate`
says exactly which timestamps this affects: if the clock never shows more than `top` seconds, those below
`top - 600 - 2^63`, which are acceptable at `top - 601` and again at `top`.

## Model

| member | source | states |
|---|---|---|
| ReplayGuard.Guard.ValidateFreshnessAndRate | cmd/novakey/crypto.go:282-340 | the method over the two mutable maps ends in the state and verdict of the transition function `Step`, including the early returns that change nothing and the rejections that only evict |
| ReplayGuard.Guard.EvictOld | cmd/novakey/crypto.go:305-310 | the delete loop leaves exactly the entries at most 600 s old, whatever order the map is iterated in |
| ReplayGuard.Limit | cmd/novakey/crypto.go:319-322 | the effective limit is the configured value if that is positive, otherwise 60, and at least 1 in every case |
| ReplayHistory.FreshnessDecided | cmd/novakey/crypto.go:283-291 | in exact arithmetic: from the future iff more than 120 s ahead; too old iff more than 300 s behind, unless the difference leaves the int64 range; everything else takes the mutex |
| ReplayHistory.Remembered | cmd/novakey/crypto.go:298-310 | an accepted message stays cached with its accept time until a call of its device more than 600 s later |
| ReplayHistory.EntryHasSource | cmd/novakey/crypto.go:335-335 | every cache entry was stored by an accepted call of that device with that nonce and time |
| ReplayHistory.CacheBetweenHistories | cmd/novakey/crypto.go:298-310 | with readings up to d s stale, the cache holds all accepts of the last 600 - d s and nothing older than 600 s |
| ReplayHistory.CacheIsRecentHistory | cmd/novakey/crypto.go:298-337 | with a forward clock the cache is exactly the accepts of the last 600 s taken from the full log, by nonce bytes |
| ReplayHistory.ReplayDecidedByHistory | cmd/novakey/crypto.go:329-332 | a call is refused as a replay iff a scan of the full log finds its nonce within 600 s, and the reported time is one of those |
| ReplayHistory.SecondAcceptanceWraps | cmd/novakey/crypto.go:283-337 | with readings at most 180 s stale a message is accepted twice only if the second age computation wraps in int64, and then the first acceptance is at least 601 s before the latest reading of the run |
| ReplayHistory.ReplayFreeUpTo180 | cmd/novakey/crypto.go:27-29 | with readings at most `top` and at most 180 s stale no run accepts a message with a timestamp of at least top - 600 - 2^63 twice |
| ReplayHistory.TooStaleRunReplays | cmd/novakey/crypto.go:27-29 | a concrete run with readings 181 s stale and none above 602 accepts a message twice, for every limit |
| ReplayHistory.SlackIsExactly180 | cmd/novakey/crypto.go:27-29 | for a clock of any range beyond 602 s: all runs with staleness d are replay-free iff d <= 180 |
| ReplayHistory.ReplaySafeIffWrapsTooLate | cmd/novakey/crypto.go:286-291 | for every latest reading `top`: over all runs of that clock a message is accepted at most once iff its signed timestamp is at least top - 600 - 2^63, or the clock ends before any cache entry can |
| ReplayHistory.LeastSafeMeans | cmd/novakey/crypto.go:286-291 | the timestamps from that threshold on are those whose age does not wrap at any reading up to top - 601 |
| ReplayHistory.WrappedMessageReplays | cmd/novakey/crypto.go:172-173 | for every other timestamp there is a forward-clock run, with readings top - 601 and top, that accepts the message twice |
| ReplayHistory.ProjectionAgrees | cmd/novakey/crypto.go:299-337 | after any run a device has the cache and window it would have had alone |
| ReplayHistory.DeviceNonInterference | cmd/novakey/crypto.go:299-337 | every call gets the verdict it would get if only its own device's calls had happened |
| ReplayHistory.RejectedCallInvisible | cmd/novakey/crypto.go:312-337 | with a forward clock, deleting a rejected call from a run changes no later verdict: it spends neither nonce nor window |
| ReplayHistory.RejectedCallVisibleWhenStale | cmd/novakey/crypto.go:283-310 | a concrete run with one reading 1 s stale in which a rejected call evicts a nonce that would have been refused |
| ReplayHistory.RejectionsInvisibleIffForward | cmd/novakey/crypto.go:283-337 | over all runs with staleness d every rejected call can be deleted without changing a later verdict iff d <= 0, for every limit and every clock that reaches 602 s |
| FixedWindow.ChainBound | cmd/novakey/crypto.go:312-327 | windows at least 60 s apart with at most `limit` hits each put a bound on any span of time; windows begun before it or, with stale readings, after it have their first hit deducted |
| RateHistory.HitsChain | cmd/novakey/crypto.go:312-337 | the accepted messages of a device form such a chain, with windows committed only on acceptance |
| RateHistory.RateUpperBound | cmd/novakey/crypto.go:312-327 | accepted messages in any span, for any width, limit and staleness d |
| RateHistory.RateUpperBoundMinutes | cmd/novakey/crypto.go:312-327 | k minutes hold at most (k + 1) * limit - 1 accepted messages of a device |
| RateHistory.RateUpperBoundTight | cmd/novakey/crypto.go:312-327 | that number is reached, for every position, width, limit and staleness, so it is the exact maximum |
| RateHistory.RateMinutesTight | cmd/novakey/crypto.go:312-327 | in particular a forward clock can let (k + 1) * limit - 1 messages through in k minutes |
| RateHistory.RateDecidedByLog | cmd/novakey/crypto.go:312-327 | a call is rate-rejected iff it is fresh and the window of the last accepted message is full and under 60 s old; its nonce plays no part |
| RateHistory.RejectionMeansBusy | cmd/novakey/crypto.go:324-327 | a rate rejection means at least `limit` messages were accepted in (now - 60 - d, now + d] |
| HelloLimiter.Limiter.AllowPairHelloFromIP | cmd/novakey/pairing_proto.go:52-70 | every attempt is recorded, denied or not, and allowed iff its window's count is within the limit |
| HelloLimiter.HelloLimit | cmd/novakey/pairing_proto.go:53-56 | a positive configured limit is used, otherwise 30 |
| HelloLimiter.HitsChain | cmd/novakey/pairing_proto.go:62-69 | the allowed hellos of an address form the same kind of chain although denied attempts are counted |
| HelloLimiter.HelloUpperBound | cmd/novakey/pairing_proto.go:52-70 | allowed hellos in any span obey the bound of the message limiter |
| HelloLimiter.HelloUpperBoundMinutes | cmd/novakey/pairing_proto.go:52-70 | k minutes let through at most (k + 1) * limit - 1 hellos of an address |
| HelloLimiter.DenialMeansBusy | cmd/novakey/pairing_proto.go:62-69 | a denial happens only within 60 s of an allowed hello that opened the window, with `limit` hellos really let through; denials never extend the lock-out |
| HelloLimiter.WindowOpener | cmd/novakey/pairing_proto.go:63-66 | the current window was opened by an allowed hello at its start time |
| Gates.ArmGate.ArmFor | cmd/novakey/arm_gate.go:19-25 | arms until now + dur, replacing any earlier deadline |
| Gates.ArmGate.Disarm | cmd/novakey/arm_gate.go:28-33 | nothing is armed afterwards |
| Gates.ArmGate.Consume | cmd/novakey/arm_gate.go:44-62 | opens iff armed and not past the deadline; clears when expired or consumed |
| Gates.TwoManGate.CleanupLocked | cmd/novakey/two_man.go:56-62 | exactly the expired approvals are deleted, in any iteration order |
| Gates.TwoManGate.Approve | cmd/novakey/two_man.go:21-28 | new state from the two clock readings: one cleans up, the other sets the deadline |
| Gates.TwoManGate.Consume | cmd/novakey/two_man.go:34-48 | opens iff the device has an unexpired approval, and deletes it only when consuming |
| Gates.CleanupInvisible | cmd/novakey/two_man.go:21-62 | over any run every Consume is decided as by a gate that never deletes expired entries |
| Gates.NothingExpiredStored | cmd/novakey/two_man.go:21-62 | after each call every stored deadline is at or after that call's cleanup time |
| Gates.ApprovalNonInterference | cmd/novakey/two_man.go:21-48 | a device's approvals are decided as if it were the only device |
| MsgHandler.Daemon.HandleMessage | cmd/novakey/msg_handler.go:71-114 | the handler over the real gates ends with the gates and replies of `Handle`, for every message type |
| MsgHandler.Daemon.HandleInject | cmd/novakey/msg_handler.go:116-274 | the same for the inject path: screen, approval gate, arm gate, injector, fallbacks |
| MsgHandler.Handle | cmd/novakey/msg_handler.go:71-274 | one reply; it is a success for the client iff the injector or the handler's clipboard set succeeded, never both, and the clipboard is tried only under the flag of that failure class |
| MsgSystem.ArmAndApproveCommute | cmd/novakey/two_man.go:21-28 | with two-man on, an arm message and an approve message may be handled in either order, even if the clock reading of the one falls between the two readings of the other, with the same gates and handlers in the end |
| MsgInvariants.GatesStep | cmd/novakey/msg_handler.go:74-114 | every step keeps the gate fields equal to what the log of grants and consumptions says, up to expired entries |
| MsgInvariants.ThreadsBackedStep | cmd/novakey/msg_handler.go:33-114 | every step keeps each unfinished or accepted handler backed by its own accepted guard call, and each finished one with the one reply its request calls for |
| MsgAuthorisation.RunKeepsInv | cmd/novakey/msg_handler.go:179-274 | all invariants hold after any sequence of steps in any interleaving |
| MsgAuthorisation.InjectionAuthorised | cmd/novakey/msg_handler.go:179-233 | every injector call serves an accepted inject frame, behind an arm grant unexpired and not disarmed, re-armed or spent before its gate was passed; unless `two_man_enabled` is false, also behind an unexpired approval by the same device taken before that |
| MsgAuthorisation.InjectionsDistinct | cmd/novakey/msg_handler.go:180-233 | different injector calls have different handlers, accepted frames, arm grants and approvals (the grants unless `arm_consume_on_inject`, respectively `approve_consume_on_inject`, is false) |
| MsgAuthorisation.MessageInjectedOnce | cmd/novakey/crypto.go:161-196 | with readings at most 180 s stale and none above `top`, one (device, nonce, timestamp) reaches the injector at most once if the timestamp is at least top - 600 - 2^63 |
| MsgAuthorisation.GrantsFromDifferentMessages | cmd/novakey/msg_handler.go:74-107 | under the same conditions, different grants in the log come from different sealed messages |
| MsgAuthorisation.GrantMessagesServeOnce | cmd/novakey/msg_handler.go:180-233 | so one sealed arm message, and one sealed approve message, authorises at most one keystroke when grants are consumed on use |
| MsgAuthorisation.GrantsConserved | cmd/novakey/msg_handler.go:183-233 | with no handler inside the critical section, and unless the respective flag is false: approvals spent = injector calls + not-armed blocks, and arms spent = injector calls whether or not the injector succeeds |
| MsgAuthorisation.NoApprovalsWhenOff | cmd/novakey/msg_handler.go:94-98 | with `two_man_enabled` false no run touches the approval gate |
| MsgAuthorisation.ScreenedSpendNothing | cmd/novakey/msg_handler.go:120-177 | a handler stopped by the text filter or the target policy has no entry in the gate log |
| MsgScreen.PassedWasScreened | cmd/novakey/msg_handler.go:120-177 | in every run, each handler past the filter and the policy, or ended by a gate or the injector, had a dispatch of its own at which its text was safe and the policy allowed the target |
| MsgScreen.KeystrokesWereScreened | cmd/novakey/validate.go:8-16 | every injector call of every run serves a text of at most `max_inject_len` bytes (if that is positive) and, unless newlines are allowed, without line feed and carriage return, in a handler for which the target-policy formula allowed the target focused when it was asked |
| MsgOutcomes.UnsafeTextsStopped | cmd/novakey/msg_handler.go:120-138 | a finished inject handler ended at the text filter iff its text is not of that kind |
| MsgOutcomes.GrantsAreDated | cmd/novakey/msg_handler.go:74-86 | every arm grant of every run lasts the milliseconds of its message if positive, else the configured ones, from the clock reading of its step; every approval the configured window, else 15 s |
| MsgOutcomes.EveryReplyByTheBook | cmd/novakey/msg_handler.go:116-274 | in every run each finished handler has made the injector call, clipboard attempt and numeric reply that its last step, the raw configuration flags and the answers of the operating system call for |
| MsgOutcomes.AnsweredIsLogged | cmd/novakey/msg_handler.go:74-114 | in every run a handler that reports arming, disarming, approving, a refusal by a gate or an injector call has that event in the log |
| MsgAuthorisation.GatesDecideByLog | cmd/novakey/arm_gate.go:44-62 | in every run a gate opens iff the log holds an unexpired grant that nothing has ended |
| MsgAuthorisation.EveryReplyHonest | cmd/novakey/msg_handler.go:28-114 | in every interleaving an unfinished handler has said and done nothing; a finished one has replied exactly once: bad request if the bytes could not be read, crypto failure if they were not accepted, the fixed answer of an arm, disarm or approve message, an honest one for an inject |
| MsgSolo.SoloRunIsHandle | cmd/novakey/msg_handler.go:71-274 | run without interruption, the steps of the system do what the handler method does |
| BigEndian.RoundTrip64 | cmd/novakey/crypto.go:172-172 | eight big-endian bytes give back the number they encode |
| BigEndian.Get64IsValue | cmd/novakey/crypto.go:172-172 | eight bytes are read most significant first |
| BigEndian.Signed64Means | cmd/novakey/crypto.go:172-172 | the signed reading is the int64 that differs by a multiple of 2^64 |
| MessageFrame.EncodeMessageFrame | cmd/novakey/message_frame.go:32-65 | succeeds iff the message is carriable, with the frame layout; otherwise names the first failing check |
| MessageFrame.EncodeInnerMessageFrame | cmd/nvclient/main.go:340-373 | the client's encoder yields the same layout but lets oversized payloads through with a truncated length |
| MessageFrame.DecodeLayout | cmd/novakey/message_frame.go:67-103 | decoding a layout returns the message iff it is carriable; an oversized one is rejected for its length, never misread |
| MessageFrame.DecodedIsLayout | cmd/novakey/message_frame.go:67-103 | every byte string the decoder accepts is the layout of its result, so no two accepted frames mean the same message |
| OuterFrame.EncryptV3OuterFrame | cmd/nvclient/main.go:278-338 | the client's checks, and the frame layout header, nonce, sealed timestamp and body |
| OuterFrame.OuterRoundTrip | cmd/novakey/crypto.go:198-280 | the daemon opens what a client with the device's key sealed, to the same id, plaintext and nonce |
| OuterFrame.AcceptedIsSealed | cmd/novakey/crypto.go:198-280 | every frame the daemon opens is byte for byte what a holder of the device key would send for the result |
| WireRoundTrip.SendV3OuterFrame | cmd/nvclient/main.go:231-271 | the client sends a length-prefixed frame iff its inputs pass and 1149 + 2 * idLen + payloadLen fits in 16 bits |
| WireRoundTrip.ClientFrameLength | cmd/nvclient/main.go:310-337 | a frame is 1149 + 2 * idLen + payloadLen bytes long |
| WireRoundTrip.Deliverable | cmd/novakey/msg_handler.go:33-60 | what the client sends is read back as that very frame iff that number is within `max_payload_len`, whatever follows it, and refused for its length otherwise |
| WireRoundTrip.ReadRequestMeans | cmd/novakey/msg_handler.go:35-60 | a request is read iff its two-byte length is non-zero, within the limit, and followed by that many bytes; otherwise which of the three failures it is |
| WireRoundTrip.FrameBytes | cmd/nvclient/main.go:278-338 | where every byte of a client's frame is, and that the seal authenticates everything before the nonce |
| WireRoundTrip.PlaintextBytes | cmd/nvclient/main.go:340-373 | where every byte under the seal is |
| WireRoundTrip.TypeNumbers | cmd/novakey/msg_handler.go:71-114 | the four message types by number |
| WireRoundTrip.OrderOfChecks | cmd/novakey/crypto.go:161-196 | a frame that does not open leaves the guard alone; one that opens spends its nonce whatever its body holds, and yields a message iff the guard accepts and the body carries one of the outer device |
| WireRoundTrip.EndToEnd | cmd/novakey/crypto.go:161-196 | the daemon reads exactly the client's message iff its guard accepts the call, and its guard state is that of that call |
| WireRoundTrip.ReadMeansSealed | cmd/novakey/crypto.go:161-196 | bytes from which a message is read seal a timestamp and that very message under the device's key |
| WireRoundTrip.FirstStepIsReading | cmd/novakey/msg_handler.go:33-69 | the first step of a handler agrees with reading and decrypting the bytes that arrive: which step it is, guard state, acceptance, message, bad-request or crypto-fail reply |
| WireToInjector.DeliveredMessageWasSealed | cmd/novakey/crypto.go:161-280 | a connection whose frame opens with a message in it carried bytes equal to what a holder of the key of the device it names sends to seal that timestamp and message, by type number, text and arm payload |
| WireToInjector.KeystrokesWereSealed | cmd/novakey/msg_handler.go:33-233 | in every run over arbitrary bytes, with a device store that may change from request to request, each injector call serves a text that arrived sealed as an inject message of its device, behind an arm message that arrived sealed and, with two-man, an approve message that arrived sealed under the same device id |
| LineWriter.Writer.Write | cmd/novakey/logging.go:136-158 | emits the redacted complete lines and keeps the rest; if a write to the destination fails, exactly that line is lost and the later ones stay buffered |
| LineWriter.ChunkIndependent | cmd/novakey/logging.go:136-158 | for any split of a stream into Write calls the output is the redacted complete lines of the stream and the buffer its newline-free tail |
| LineWriter.CutAnywhere | cmd/novakey/logging.go:143-156 | a stream may be cut at any byte if the tail is put in front of what follows |
| LineWriter.LinesLoseNothing | cmd/novakey/logging.go:144-150 | lines and tail together are the stream |
| LineWriter.EachIsOneLine | cmd/novakey/logging.go:145-149 | each emitted line ends in its newline and holds no other |
| RedactBlobs.RedactLongBlobs | cmd/novakey/logging.go:178-214 | the scanner with its open-run marker computes the run-by-run redaction |
| RedactBlobs.BlobAlphabet | cmd/novakey/logging.go:180-180 | the characters that make up a run, written out |
| RedactBlobs.OnlyLongRunsReplaced | cmd/novakey/logging.go:186-212 | for any cut of the input into other bytes and maximal blob runs, the output is the same cut with each run of 120 or more replaced by one mark |
| RedactBlobs.SplitExists | cmd/novakey/logging.go:186-205 | every input has such a cut |
| RedactBlobs.OutputHasNoLongRun | cmd/novakey/logging.go:179-213 | the output has no 120 blob characters in a row |
| RedactBlobs.RedactedIffLongRun | cmd/novakey/logging.go:179-213 | the input is unchanged iff it has no such run |
| RedactBlobs.RedactionIdempotent | cmd/novakey/logging.go:178-214 | redacting twice is redacting once |
| RequestId.Itoa64 | cmd/novakey/logging.go:30-42 | for every uint64 the twenty-byte buffer filled from its end suffices and holds a numeral of that value without leading zeros |
| RequestId.NumeralUnique | cmd/novakey/logging.go:26-42 | a number has one such numeral, so different requests are logged under different names |
| PairToken.PairTokenState.StartOrRefresh | cmd/novakey/pair_token.go:31-55 | returns the live token unchanged, or installs the fresh one with its expiry |
| PairToken.PairTokenState.Consume | cmd/novakey/pair_token.go:58-89 | the four refusals and what each leaves behind, or the token once |
| PairToken.ConstTimeEq | cmd/novakey/pair_token.go:103-112 | true iff the sequences are equal, although every byte is visited |
| PairToken.SuccessNeedsGeneration | cmd/novakey/pair_token.go:58-89 | a success presents the last generated token, no later than its deadline, and is the first to do so; the deadline is the lifetime given to the generating call, else ten minutes, from its second clock reading |
| PairToken.SucceedsIff | cmd/novakey/pair_token.go:58-89 | with a forward clock a consume succeeds iff it presents the last generated token by that deadline and nothing succeeded since that generation |
| PairToken.ConsumeDecided | cmd/novakey/pair_token.go:58-89 | for any clock, the answer of every consume: not active without a generation or once a consume came too late or used the token, then expired, bad encoding, unauthorised, or the token |
| PairToken.GeneratesIff | cmd/novakey/pair_token.go:39-51 | a refresh makes a new token iff there is none that is still there and strictly before its deadline |
| PairToken.GenerationMakes | cmd/novakey/pair_token.go:45-51 | a generation installs its draw until that deadline |
| PairToken.OneTime | cmd/novakey/pair_token.go:58-89 | successes belong to different generations; with fresh draws no token text is accepted twice |
| PairToken.RefreshKeepsLive | cmd/novakey/pair_token.go:39-42 | a refresh while a token is live changes nothing and returns the expiry of its generation |
| PairToken.HandedOutIsAccepted | cmd/novakey/pair_token.go:31-89 | the text handed out is accepted when it comes back before the deadline of its generation, whatever refreshes and wrong attempts lie in between, unless it was used |
| PairToken.ReplacedAtExpiry | cmd/novakey/pair_token.go:40-66 | at the instant of expiry itself a refresh replaces a token that a consume would still have accepted, by a concrete run |
| TargetPolicy.NormalizeProcName | cmd/novakey/target_policy.go:67-103 | the stripping loop ends and computes the base name, then drops .app and .exe |
| TargetPolicy.BaseNameIsLongestCleanSuffix | cmd/novakey/target_policy.go:74-88 | what is left of a path is its longest suffix without a separator |
| TargetPolicy.ProcNameMeans | cmd/novakey/target_policy.go:89-103 | from the trimmed base name one `.app`, then one `.exe` is removed and nothing else |
| TargetPolicy.NormalizeProcList | cmd/novakey/target_policy.go:105-120 | exactly the non-blank normal forms of the entries, without duplicates |
| TargetPolicy.NormalizeTitleList | cmd/novakey/target_policy.go:122-137 | the same for titles |
| TargetPolicy.EnforceTargetPolicy | cmd/novakey/target_policy.go:9-65 | the decision over normalised lists equals a formula over the raw lists in which deny wins |
| TargetPolicy.DenyWins | cmd/novakey/target_policy.go:29-35 | an enabled policy that knows the focus denies it iff a denied process has its non-blank name or a non-blank denied title occurs in its title, whatever is allowed |
| TargetPolicy.AllowedIff | cmd/novakey/target_policy.go:37-64 | otherwise it is allowed iff an allowed entry hits it, when any is left after normalising; else iff it is a built-in name or the built-in list is off |
| TargetPolicy.WithoutFocus | cmd/novakey/target_policy.go:11-18 | a disabled policy allows everything, an enabled one reports an unknown focus |
| TargetPolicy.OrderRepetitionAndBlanksIgnored | cmd/novakey/target_policy.go:105-137 | order, repetition and entries that normalise to nothing never change a decision |
| TargetPolicy.DeniesOnlyShrink | cmd/novakey/target_policy.go:29-35 | adding denied entries only takes targets away |
| TargetPolicy.AllowsOnlyGrow | cmd/novakey/target_policy.go:37-46 | adding allowed entries to a policy that has some only adds targets |
| TargetPolicy.FirstAllowReplaces | cmd/novakey/target_policy.go:37-64 | without that proviso the law fails: of the targets allowed so far, exactly those that the first allowed entries match stay allowed |
| TargetPolicy.FirstAllowCostsATarget | cmd/novakey/target_policy.go:37-64 | a concrete policy and target that is allowed before the first allowed entry and not after |
| DeviceStore.BuildDevicesMap | cmd/novakey/crypto.go:129-150 | the map of the list with the last entry of an id winning, or the error of the first bad entry |
| DeviceStore.LoadsIffAllGood | cmd/novakey/crypto.go:135-147 | a list loads iff every entry has a name and 32 bytes in hex; otherwise the first bad one decides the error |
| DeviceStore.LastEntryWins | cmd/novakey/crypto.go:134-148 | the loaded map has an id iff some entry has, with the key of the last such entry |
| DeviceStore.DeviceFile.WriteDevicesFile | cmd/novakey/devices_write.go:14-49 | each refusal leaves the file alone; otherwise the file enumerates the old map with one update, in some order |
| DeviceStore.RefusalMeans | cmd/novakey/devices_write.go:15-49 | which upserts are refused, and for what: the given entry, an unreadable or bad store, a failed save |
| DeviceStore.EnumerationReadsBack | cmd/novakey/devices_write.go:40-46 | whatever the enumeration order, the written list loads as the map |
| DeviceStore.StoreIsFold | cmd/novakey/devices_write.go:14-49 | after any sequence of upserts the reloaded store is the fold of map updates, with 32-byte keys under their own ids |
| DeviceStore.LastUpsertWins | cmd/novakey/devices_write.go:36-37 | that fold has, for each id, the key of the last upsert of it that took effect, else what was there before |
| DeviceStore.LoadedIsSound | cmd/novakey/crypto.go:135-147 | every loaded device has a non-empty id equal to its key in the map and a 32-byte key |
| Hex.DecodeEncode | cmd/novakey/devices_write.go:18-46 | hex decoding inverts hex encoding |
| Hex.EncodedAt | cmd/novakey/devices_write.go:44-44 | two lower-case digits a byte, the high one first |
| Hex.DecodeAccepts | cmd/novakey/devices_write.go:18-21 | decoding accepts exactly the even numbers of digits of either case |

## Left out

- MsgSystem.Next: each locked region is one step; the OS call, the clipboard and the reply are merged with the step that decides them, because no gate state is read or written in between.
- MsgHandler.Handle: stage, reason and text of a reply are represented by the exit that produced it; the status code is exact.
- MsgHandler.Daemon.HandleInject: the "try the clipboard, then reply" block, written out at each exit of the program, is one helper method.
- MsgAuthorisation.EveryReplyHonest: whether the reply still reaches the client, and the ten-second deadline of the connection, which counts as a read failure.
- LineWriter.Writer.Write: a destination that fails after taking part of a line; `redactLine` is any function.
- OuterFrame.DecryptOuterV3: the device map is read once per request; a pairing reload in the middle of one is not modelled.
- MsgScreen.KeystrokesWereScreened: the focus may move between the policy check and the keystroke; the program does not check again.
- DeviceStore.DeviceFile.WriteDevicesFile: two pairings writing the file at the same time.
- `redactKeyValueHints` (cmd/novakey/logging.go:217-252): it can match its own replacement again, so there is no termination measure to prove.
- The Windows device store: it saves to one path and may load from another, so the upsert law is stated for Unix only.
- `normalizeProcName` is not idempotent (a name ending in `.exe.exe`), so no such law is stated.
- Sequencing of the pairing conversation, its binary frame and its associated data: straight-line parsing and concatenation that would add only easy members.
- TCP, deadlines, routing, QR codes, key files, log rotation, the platform injectors and focus detection: operating-system calls.
