# Verified model of the phone-as-vault system

The system lets a browser extension use a phone as its vault, over USB (through a Go native host) or over WebRTC (through a signalling server), with a challenge that an Android app verifies. This project models the parts of it that carry state, concurrency or arithmetic, and proves what they promise over all inputs and all runs.

Most modules have three layers: a transition function over values (`Step`, `Run`) that follows the source's branches; an invariant proved of every run of it; and a class with the source's own fields whose methods, loops included, are proved to compute that function. Where aliasing is the point (the native host's key arrays and trackers) the classes alone carry the model and the invariant is their `Valid`.

| file | part of the system |
|---|---|
| `Bytes.dfy` | fixed-width integer encodings |
| `SecureChannel.dfy` | IVs, frames, sequence counters, and all runs of the AES-GCM channel on one key |
| `HostSession.dfy` | the native host's session under its mutex: connect, send, rekey, close, read loop |
| `RekeyableSession.dfy` | the wrapper that hands out key copies and rekeys under one lock |
| `Backpressure.dfy` | the data-channel queue and its drains |
| `CommandClient.dfy` | retransmission, heartbeat, round-trip estimator |
| `Utf8.dfy` | well-formed text, byte-order marks, and what decoding makes of other bytes |
| `Challenge.dfy` | challenge encoding on both sides, Android verifier, nonce memory |
| `Signaling.dfy` | rooms, cleanup timers, revocations |
| `DeviceRegistry.dfy` | paired devices, storage, naming |
| `PendingRevocations.dfy` | revocations cached for later and the flush that sends them, await by await |
| `CheckDigits.dfy` | IBAN and Luhn with error detection |
| `SlidingWindow.dfy`, `ContentLimiter.dfy`, `ReplayCache.dfy` | limiters and replay cache against the full history |
| `Framing.dfy` | key-exchange and native-messaging frames |

## Assumptions

- AES-GCM is a parameter. `Gcm` says that opening inverts sealing and the tag is 16 bytes; `NotForged` says that a ciphertext opens under an IV only if an honest end put it on the wire under that IV. The network may otherwise drop, repeat, reorder, reflect and rewrite. A cipher that meets both, with a run that delivers, is given (`SecureChannel.AssumptionsAreMet`).
- The phone's end of the USB channel is not in the repository; it is taken to number, seal and open frames as the host does. `FromDevice` says of what arrives at the host that it opens only to payloads that the device wrote, each under its number; a frame for which it holds is given (`HostSession.FromDeviceIsMet`). A read loop uses a copy of the key once and takes the next one after that.
- A backpressure queue has one data channel. reconcileDeviceRegistry runs only while no operation is under way.
- A failed USB write leaves nothing on the wire. Fewer than 2^64 frames are sent.
- Key exchange yields a key of 32 bytes (the length DeriveSessionKey asks for) or fails. That two exchanges never agree the same bytes is not assumed: `HostSession.IVsNeverRepeat` shows it is exactly what keeps IVs from repeating.
- A writer of native messages reports a short write as an error (the contract of Go's io.Writer).
- Caching a revocation is one step, although its read and write are separate awaits, and one flush runs at a time.
- Clocks do not run backwards. Storage writes succeed. Sequence numbers are handed out once.
- Text is its UTF-8 byte sequence. What decoding and encoding make of other bytes is a parameter: `Recoding` says that the result is well formed, that well-formed beginnings are left alone and that one byte becomes at most one U+FFFD; how many of them stand for an ill-formed part is left open, and a recoding of this kind is given (`Utf8.RecodingExists`). In the other modules `phoneName`, card numbers and IBANs arrive trimmed, with blanks and separators removed and letters in upper case.
- Times of the round-trip estimator are real numbers; rounding is not modelled.

## Where the code differs from what one would expect

Each of these is proved with the exact condition.

- An origin of 65536 bytes or more, or a key-exchange payload of that size, is written with a truncated length and does not round-trip; neither does an origin or control code that begins with a byte-order mark, which the extension's decoder drops (`Challenge.TsRoundTrip`, `Framing.KexRoundTrip`).
- The Android verifier accepts version 1 only while the extension writes version 2, so it rejects every challenge the extension serialises (`Challenge.SerialisersAgreeUpToVersion`). A control code that is not ASCII or an origin that is not well-formed UTF-8 is rewritten before hashing (`Challenge.CanonicalKeepsBody`), and the result is canonical itself exactly when the rewritten origin still fits its length field (`Challenge.CanonicalIsStable`).
- RevertOutbound does not give a number back at the wrap of the 64-bit counter (`SecureChannel.RevertUndoesNext`).
- A heartbeat ping is counted as missed exactly when its timeout, three RTOs after its send completes, comes before the next ping starts (`CommandClient.MissCountsExactly`, `CommandClient.MissCountsIffPrompt`). The heartbeat's timer fires every 15 s, skips a ping within 15 s of a command and is restarted by a command; between pings 15 s apart whose sends complete at once the limit is an RTO of 5 s; the delay of a send comes off that (`CommandClient.SlowSendLosesMiss`), and a ping whose send never completes is never counted (`CommandClient.StuckSendsAreNeverDeath`).
- The content limiter's cleanup can end a backoff early, in one situation only (`ContentLimiter.CleanupCutsBackoff`, `ContentLimiter.BackoffCutHappens`); a minute can hold 19 allowed requests, not 10 (`ContentLimiter.AtMostNineteenPerMinute`, `ContentLimiter.NineteenHappens`).
- A full replay cache forgets its first key, however recent: a key inserted less than five minutes ago is refused exactly while fewer than a thousand insertions have followed its own (`ReplayCache.ThousandInsertionsDecide`, `ReplayCache.EvictionHappens`). An entry exactly five minutes old is accepted again in its old place and may be the next one out (`ReplayCache.RefreshedKeyIsNextOut`, `ReplayCache.RefreshedEvictionHappens`), or may outlive a thousand insertions (`ReplayCache.RefreshedKeyOutlivesInsertions`).
- Exchanging B with 1, M with 2 or X with 3 where they are neighbours in a rearranged IBAN goes unnoticed (`CheckDigits.IbanDetectsTransposition`, `CheckDigits.IbanTranspositionMissed`).
- A flush that sent anything loses the revocations cached while it was under way, except those it had read and not sent: new ids, and ids cached again after it sent them (`PendingRevocations.FlushLosesLateArrivals`, `PendingRevocations.LateArrivalLost`, `PendingRevocations.RepeatedArrivalLost`).
- The comment on the heartbeat speaks of three consecutive missed pings; the code counts misses since the last matching pong (`CommandClient.MissedPingsByHistory`).

## Model

| member | source | states |
|---|---|---|
| `SecureChannel.BuildIVInjective` | apps/native-host/crypto/encrypt.go:19-24 | IVs coincide exactly when direction and sequence number do |
| `SecureChannel.IVLayout` | apps/native-host/crypto/encrypt.go:19-24 | direction, three zero bytes, and the number with its high byte first |
| `SecureChannel.FillIV` | apps/native-host/crypto/encrypt.go:19-24 | the 12-byte buffer filled in place holds direction, three zeros and the big-endian number |
| `SecureChannel.FrameRoundTrip` | apps/native-host/crypto/decrypt.go:32-83 | a genuine frame opens to its payload at its own number, and is a replay or a gap at any other |
| `SecureChannel.ForeignFrame` | apps/native-host/crypto/decrypt.go:44-82 | any frame is a replay or a gap by its number alone; at the expected number it is what it opens to, or a failed authentication |
| `SecureChannel.MalformedFrame` | apps/native-host/crypto/decrypt.go:32-43 | a wrong key size and a frame too short are refused first |
| `SecureChannel.RevertUndoesNext` | apps/native-host/crypto/sequences.go:59-65 | reverting undoes the increment exactly below the 64-bit wrap |
| `SecureChannel.SequenceTracker.NextOutbound` | apps/native-host/crypto/sequences.go:18-24 | returns the current number and increments modulo 2^64 |
| `SecureChannel.SequenceTracker.RevertOutbound` | apps/native-host/crypto/sequences.go:59-65 | lowers the counter to the number given, never raises it |
| `SecureChannel.SequenceTracker.AdvanceInbound` | apps/native-host/crypto/sequences.go:32-36 | increments the inbound counter only |
| `SecureChannel.SequenceTracker.Reset` | apps/native-host/crypto/sequences.go:67-72 | both counters are zero |
| `SecureChannel.SequenceTracker.Clone` | apps/native-host/crypto/sequences.go:74-81 | a new tracker with the same counters |
| `SecureChannel.OpenedFrameIsNextPayload` | apps/native-host/crypto/decrypt.go:44-82 | what opens at the expected number is the payload of the frame the other side wrote with that number |
| `SecureChannel.NumbersAreContiguous` | apps/native-host/main.go:293-305 | in every run the i-th frame a side put on the wire was numbered i by its counter, whatever writes failed |
| `SecureChannel.DeliveredIsPrefixOfSent` | apps/native-host/readloop.go:111-135 | in every run with loss, duplication, reordering, reflection and tampering, each end delivers a prefix of what the other wrote successfully, in order and once each |
| `SecureChannel.GenuineFrameArrives` | apps/native-host/readloop.go:111-135 | after any such run the bytes of the next frame on the wire extend the prefix by their payload, and those of every other frame change nothing |
| `SecureChannel.AssumptionsAreMet` | apps/native-host/crypto/encrypt.go:30-54 | a cipher satisfies both assumptions, in a run with a failed write whose next frame is delivered |
| `HostSession.ZeroKey` | apps/native-host/crypto/session.go:27-35 | every byte of the shared array is zero |
| `HostSession.CryptoSession.Negotiated` | apps/native-host/crypto/handshake.go:92-151 | a fresh key array holding the agreed bytes and a fresh tracker at zero |
| `HostSession.CryptoSession.Zero` | apps/native-host/crypto/handshake.go:153-159 | the old array is wiped, the key dropped and the counters reset |
| `HostSession.Session.Connect` | apps/native-host/main.go:202-274 | success exactly when already connected or the exchange succeeds; a new connection has a fresh key agreed over its own fresh endpoints; a failure leaves the session disconnected |
| `HostSession.Session.SendPayload` | apps/native-host/main.go:276-306 | which of the results; a sent frame goes to the current device under the key agreed with it; a failed write restores the counters; encryption cannot fail once connected |
| `HostSession.Session.Close` | apps/native-host/main.go:160-181 | everything is dropped and the installed key array is wiped |
| `HostSession.Session.RekeyBegin` | apps/native-host/main.go:331-361 | granted exactly when connected, capturing the endpoints and the old key and tracker |
| `HostSession.Session.RekeyFinish` | apps/native-host/main.go:363-407 | installs the new key exactly when the exchange succeeded over endpoints that are still the session's, wiping the old key; otherwise the installed session is untouched |
| `HostSession.Session.TakeSnapshot` | apps/native-host/readloop.go:54-66 | a fresh copy of the installed key, sharing no array with the session |
| `HostSession.Session.Deliver` | apps/native-host/readloop.go:111-135 | decrypts under the copied key and advances only the inbound counter of the session the copy came from |
| `HostSession.Session.ReadLoopDisconnect` | apps/native-host/readloop.go:79-83 | the session is disconnected and stays valid, even if the loop is stale |
| `HostSession.Interleave` | apps/native-host/main.go:160-407 | in every interleaving: connected means device, endpoints and crypto session are present and belong together, the installed key is the agreed one, every frame went to the device of its key, and no outstanding key copy is altered |
| `HostSession.IVsNeverRepeat` | apps/native-host/main.go:293-305 | no two frames on the wire share key bytes and IV exactly when no two key exchanges in use agreed the same bytes |
| `HostSession.FramesAreContiguous` | apps/native-host/main.go:293-305 | the frames under one key are numbered 0, 1, 2, ... whatever failed, and each opens to its payload at that number |
| `HostSession.ReadInOrder` | apps/native-host/readloop.go:54-135 | in every interleaving of the handlers with read loops that use each key copy before the next of its session, stale loops included, the texts delivered under a session are a prefix of what the device wrote under its key |
| `HostSession.EndTurn` | apps/native-host/readloop.go:111-135 | a copy used on a frame is spent, and delivers the text exactly when the frame opens at its number |
| `HostSession.TextsArePrefix` | apps/native-host/readloop.go:111-135 | deliveries that are each the next payload of their key form a prefix for every session |
| `RekeyableSession.Rekeyable.GetSession` | apps/native-host/crypto/rekey.go:24-33 | fresh copies of key and tracker, sharing nothing with the session; an empty key once it was zeroed |
| `RekeyableSession.Rekeyable.Rekey` | apps/native-host/crypto/rekey.go:35-53 | success installs a fresh session of the agreed key and wipes the old array and counters; failure changes nothing |
| `RekeyableSession.Rekeyable.Zero` | apps/native-host/crypto/rekey.go:62-68 | the installed key array is wiped and dropped, the counters reset |
| `RekeyableSession.Schedule` | apps/native-host/crypto/rekey.go:24-68 | over every schedule of calls each copy keeps the agreed key and the counters it was taken with |
| `Backpressure.StepKeepsInv` | lib/channel/backpressureQueue.ts:32-134 | each step keeps conservation, order, byte accounting, the buffer bound and drain attendance |
| `Backpressure.RunKeepsInv` | lib/channel/backpressureQueue.ts:32-134 | in every run: pendingBytes is the sum of queued sizes, each call is queued or settled and settled once, payloads reach the channel in call order, the buffer stays below max(high water, threshold + largest), draining holds exactly when a live drain has the current generation, and a non-empty queue has one |
| `Backpressure.RunFaithful` | lib/channel/backpressureQueue.ts:100-127 | exactly the calls whose payload reached the channel resolve, in that order |
| `Backpressure.CloseSettlesAll` | lib/channel/backpressureQueue.ts:90-97 | in every run closing the channel leaves nothing queued or pending: each queued call is rejected as closed, once |
| `Backpressure.ClearSettlesAll` | lib/channel/backpressureQueue.ts:76-84 | in every run clearing rejects each queued call as cleared, once, and leaves no drain in charge |
| `Backpressure.OutcomesHaveCauses` | lib/channel/backpressureQueue.ts:32-134 | in every run a call is sent or fails as the channel has it, is rejected only after a clear or the close, and only a call made after the close is refused as not open |
| `Backpressure.NotOpenExactlyAfterClose` | lib/channel/backpressureQueue.ts:33-36 | refused as not open are exactly the calls made after the close |
| `Backpressure.DrainKeepsInv` | lib/channel/backpressureQueue.ts:86-134 | a drain ends with an empty queue and the flag down, or suspended above the threshold |
| `Backpressure.WakeMakesProgress` | lib/channel/backpressureQueue.ts:99-127 | once the buffer is at the threshold, the next wake-up settles the head of the queue |
| `Backpressure.RoomMeansImmediate` | lib/channel/backpressureQueue.ts:37-58 | with an empty queue and room below the high-water mark a call is settled at once, never queued |
| `Backpressure.BackpressureQueue.Send` | lib/channel/backpressureQueue.ts:32-66 | rejects, queues or sends as the step function says |
| `Backpressure.BackpressureQueue.Push` | lib/channel/backpressureQueue.ts:39-49 | queues the payload and starts a drain of a new generation unless one is in charge |
| `Backpressure.BackpressureQueue.RunDrain` | lib/channel/backpressureQueue.ts:99-133 | the loop computes the drain function to its next await or its end |
| `Backpressure.BackpressureQueue.ResumeDrain` | lib/channel/backpressureQueue.ts:143-158 | a wake-up resumes the suspended drain of that generation |
| `Backpressure.BackpressureQueue.ClearQueue` | lib/channel/backpressureQueue.ts:76-84 | empties and rejects, retires the running drain |
| `Backpressure.BackpressureQueue.OnClose` | lib/channel/backpressureQueue.ts:90-97 | however many listeners are attached, each queued call is rejected once, as `CloseSettlesAll` describes |
| `CommandClient.RtoBounded` | lib/channel/rttEstimator.ts:7-17 | with the samples the client accepts every timeout lies in [1000, 150000) ms |
| `CommandClient.SteadyLinkConverges` | lib/channel/rttEstimator.ts:12-13 | closed form of average and deviation after n equal samples: errors shrink by 7/8 and 3/4 a sample |
| `CommandClient.SteadyTimeout` | lib/channel/rttEstimator.ts:15-17 | the timeout on a steady link: at least a second, else average and four deviations by the closed form |
| `CommandClient.RttEstimator.UpdateRtt` | lib/channel/rttEstimator.ts:7-13 | deviation from the old average, then the average |
| `CommandClient.StepKeepsInv` | lib/channel/commandClient.ts:119-251 | each step keeps the invariant of promises, timers and counters |
| `CommandClient.RunKeepsInv` | lib/channel/commandClient.ts:119-251 | in every run: each command is pending or settled and settled once, has a live controller and one timer while pending, and was sent one to three times with a wait in [1000, 150000) ms each |
| `CommandClient.SettledByThirdExpiry` | lib/channel/commandClient.ts:201-250 | whatever else happens, the third expiry of its timer settles a command, after less than 450 s |
| `CommandClient.PendingByHistory` | lib/channel/commandClient.ts:201-250 | in every run a command is pending exactly while, by the event list, it has had no response and fewer than three expiries, and was last sent at its submission or last expiry |
| `CommandClient.OutcomeByHistory` | lib/channel/commandClient.ts:135-155 | in every run: rejected exactly when its first response before the third expiry was an error, resolved exactly when it was not, given up exactly at the third expiry without one |
| `CommandClient.RttByHistory` | lib/channel/commandClient.ts:139-147 | in every run the estimator holds the estimate from exactly the times between last transmission and first response below 30 s |
| `CommandClient.LateResponseIgnored` | lib/channel/commandClient.ts:135-149 | late and duplicate responses change nothing |
| `CommandClient.SupersededPingNeverCounts` | lib/channel/commandClient.ts:175-186 | in every run a ping replaced by a newer one adds no miss |
| `CommandClient.MissCountsExactly` | lib/channel/commandClient.ts:158-187 | in every run a timeout adds a miss exactly when its timer is armed and unfired and, since its ping started, no newer ping, matching pong or earlier firing came |
| `CommandClient.MissedPingsByHistory` | lib/channel/commandClient.ts:123-186 | in every run missedPings is the number of such misses since the last matching pong, the transport is reported dead at exactly those that make it three or more, and the heartbeat runs from a command that is no ping to such a report |
| `CommandClient.MissCountsIffPrompt` | lib/channel/commandClient.ts:161-186 | with times: counted when send delay and three RTOs are less than the gap to the next ping, not counted when they are more |
| `CommandClient.StuckSendsAreNeverDeath` | lib/channel/commandClient.ts:165-175 | when no ping's send completes, no miss is counted and no death reported |
| `CommandClient.SlowSendLosesMiss` | lib/channel/commandClient.ts:161-186 | a run in which a send outlasts the interval and its miss is not counted |
| `CommandClient.Client.SendCommand` | lib/channel/commandClient.ts:270-275 | a command that is not a ping starts the heartbeat before its first attempt |
| `CommandClient.Client.SendCommandWithRetry` | lib/channel/commandClient.ts:201-251 | registers entry and controller and makes the first attempt |
| `CommandClient.Client.Attempt` | lib/channel/commandClient.ts:219-247 | gives up after three attempts, else transmits and arms a timer |
| `CommandClient.Client.OnTimer` | lib/channel/commandClient.ts:233-238 | retries only if not aborted and still pending |
| `CommandClient.Client.HandleIncomingResponse` | lib/channel/commandClient.ts:119-156 | pong handling, sample, abort, removal and settlement, as `OutcomeByHistory`, `RttByHistory` and `MissedPingsByHistory` describe them |
| `CommandClient.Client.OnPingTimeout` | lib/channel/commandClient.ts:175-186 | counts only the awaited ping; at three misses the heartbeat stops |
| `Challenge.PaddingLength` | lib/webauthn/challengeDerivation.ts:24-28 | less than a block, and completes the length to a multiple of 32 |
| `Challenge.JavaPaddingLength` | vault-android/src/main/java/org/smartid/vault/webauthn/ChallengeVerifier.java:117-117 | the one-line formula gives the same padding |
| `Challenge.ParseExactly` | lib/webauthn/challengeDerivation.ts:85-146 | a string parses to components exactly when they are encodable and their body is its prefix (both parsers) |
| `Challenge.JavaAccepts` | vault-android/src/main/java/org/smartid/vault/webauthn/ChallengeVerifier.java:76-108 | the verifier accepts exactly strings that begin with a body of version 1, proof to 4096 bytes, code of four, nonce of 32 |
| `Utf8.WellFormedIsEncoded` | lib/webauthn/challengeDerivation.ts:31-33 | well-formed bytes are exactly the encodings of sequences of Unicode scalar values |
| `Challenge.TsRoundTrip` | lib/webauthn/challengeDerivation.ts:30-146 | parsing the output returns the components exactly when the origin is below 65536 bytes and origin and control code are well-formed text without a leading byte-order mark |
| `Challenge.LongOriginIsLost` | lib/webauthn/challengeDerivation.ts:64-68 | an origin of 65536 bytes or more never comes back |
| `Utf8.CleanExactly` | lib/webauthn/challengeDerivation.ts:119-119 | decoding gives bytes back exactly when they are well formed and have no leading mark |
| `Challenge.TsOutputShape` | lib/webauthn/challengeDerivation.ts:46-82 | length a multiple of 32, less than a block of padding, all zero |
| `Challenge.TsAccepts` | lib/webauthn/challengeDerivation.ts:36-44 | refuses exactly a proof over 4096 bytes, a code of other than four and a nonce of other than 32 |
| `Challenge.TsInjective` | lib/webauthn/challengeDerivation.ts:30-83 | equal outputs come from equal components |
| `Challenge.TsPrefixParses` | lib/webauthn/challengeDerivation.ts:85-146 | a prefix of an output parses exactly when only padding was cut |
| `Challenge.TsSerializeBuffer` | lib/webauthn/challengeDerivation.ts:30-83 | the buffer filled at a moving offset is the encoding, and errors are refused |
| `Challenge.Put` | lib/webauthn/challengeDerivation.ts:61-62 | copies the bytes at the offset and moves it |
| `Challenge.Ascii` | vault-android/src/main/java/org/smartid/vault/webauthn/ChallengeVerifier.java:100-112 | decoding and encoding as US-ASCII is the identity exactly on ASCII |
| `Challenge.CanonicalIsIdentity` | vault-android/src/main/java/org/smartid/vault/webauthn/ChallengeVerifier.java:76-134 | parse then re-serialise is the identity on canonical encodings, whose origin is well-formed text and whose code is ASCII |
| `Challenge.CanonicalIgnoresTail` | vault-android/src/main/java/org/smartid/vault/webauthn/ChallengeVerifier.java:104-107 | bytes after the nonce do not matter |
| `Challenge.CanonicalKeepsBody` | vault-android/src/main/java/org/smartid/vault/webauthn/ChallengeVerifier.java:76-134 | an accepted input is its own canonical form exactly when its origin is well-formed UTF-8, its control code is ASCII and its tail is the padding |
| `Utf8.RecodedExactly` | vault-android/src/main/java/org/smartid/vault/webauthn/ChallengeVerifier.java:94-111 | decoding and encoding an origin as UTF-8 is the identity exactly on well-formed bytes |
| `Challenge.CanonicalIsStable` | vault-android/src/main/java/org/smartid/vault/webauthn/ChallengeVerifier.java:76-134 | the canonical form of an accepted input is its own canonical form exactly when the recoded origin is below 65536 bytes |
| `Challenge.SerialisersAgreeUpToVersion` | vault-android/src/main/java/org/smartid/vault/webauthn/ChallengeVerifier.java:110-134 | both serialisers agree on all bytes but the version, which makes the verifier refuse the extension's output |
| `Challenge.ReplayNeedsHundredOthers` | vault-android/src/main/java/org/smartid/vault/webauthn/ChallengeVerifier.java:168-181 | between two acceptances of a nonce at least a hundred others were accepted |
| `Challenge.ChallengeVerifier.VerifyNonceUniqueness` | vault-android/src/main/java/org/smartid/vault/webauthn/ChallengeVerifier.java:30-39 | the bounded map holds exactly the last hundred accepted nonces, and refuses exactly those |
| `Challenge.ChallengeVerifier.VerifyFull` | vault-android/src/main/java/org/smartid/vault/webauthn/ChallengeVerifier.java:183-216 | passes exactly when the input parses, its nonce is the session's and unseen, and the challenge is the hash of the canonical form with origin and code recoded; the nonce is spent even if the challenge differs |
| `Signaling.RunKeepsInv` | signaling-server/server.js:23-304 | in every run: rooms and metadata have the same keys, a cleanup timer is armed exactly on empty rooms, every peer is connected, the revocation map answers as the full history, and no connected socket carries a revoked device |
| `Signaling.ActKeepsRooms` | signaling-server/server.js:42-65 | every handler keeps the room invariant |
| `Signaling.ActKeepsRevocations` | signaling-server/server.js:23-40 | every handler keeps the map's agreement with the history, now and later |
| `Signaling.PruningKeepsAnswers` | signaling-server/server.js:23-40 | neither kind of pruning changes an answer |
| `Signaling.RevokedDevicesAreGone` | signaling-server/server.js:171-181 | no connected device was revoked within the last day |
| `Signaling.PeersAreAdmitted` | signaling-server/server.js:211-278 | a socket enters a room exactly by registering it or by joining it with the registered commitment |
| `Signaling.RegisterEnters` | signaling-server/server.js:211-245 | the commitment is recorded, the socket is in the room beside its peers, no cleanup is due, nothing else changes |
| `Signaling.JoinEntersOrDrops` | signaling-server/server.js:247-278 | with the registered commitment the socket is in the room beside its peers and cleanup is called off; otherwise it is in no room and disconnected |
| `Signaling.MalformedIsIgnored` | signaling-server/server.js:212-250 | a malformed register or join changes nothing |
| `Signaling.ConnectUnlessRevoked` | signaling-server/server.js:203-209 | connected exactly unless its device was revoked within the last day |
| `Signaling.DisconnectLeaves` | signaling-server/server.js:295-304 | the socket is in no room, each room it emptied is due in 30 s, everyone else stays |
| `Signaling.TimerRemovesRoom` | signaling-server/server.js:58-65 | a timer removes room and metadata exactly from its deadline on |
| `Signaling.RevokeDropsDevice` | signaling-server/server.js:171-181 | exactly the sockets of the device are disconnected and leave every room |
| `Signaling.PruneKeepsTheRevoked` | signaling-server/server.js:23-30 | after pruning the map holds exactly the devices revoked within the last day |
| `Signaling.OccupiedRoomsStay` | signaling-server/server.js:58-65 | a fired timer never deletes an occupied room or one before its deadline |
| `Signaling.RoomOutlivesItsPeers` | signaling-server/server.js:58-65 | in every run a room that had a peer still exists, with its metadata, for the 30 s grace period after |
| `Signaling.Server.IsDeviceRevoked` | signaling-server/server.js:32-40 | the answer, and which expired entry is forgotten |
| `Signaling.Server.OnConnection` | signaling-server/server.js:203-209 | a revoked device is turned away, any other socket is connected |
| `Signaling.Server.OnRegisterRoom` | signaling-server/server.js:211-245 | records metadata and adds the peer, or refuses |
| `Signaling.Server.AddPeer` | signaling-server/server.js:42-56 | creates the room if needed, clears its timer, adds the peer |
| `Signaling.Server.OnJoinRoom` | signaling-server/server.js:247-278 | joins with a matching commitment, else disconnects, as `JoinEntersOrDrops` describes |
| `Signaling.Server.DisconnectSocket` | signaling-server/server.js:295-304 | the walk over all rooms removes the socket everywhere and schedules the rooms it emptied |
| `Signaling.Server.OnTimer` | signaling-server/server.js:58-65 | removes room and metadata at the deadline |
| `Signaling.Server.OnRevoke` | signaling-server/server.js:171-181 | records the revocation and disconnects every socket of the device |
| `Signaling.Server.DisconnectAll` | signaling-server/server.js:174-181 | the loop over sockets equals dropping them at once |
| `Signaling.Server.PruneRevocations` | signaling-server/server.js:23-30 | keeps exactly the unexpired entries |
| `DeviceRegistry.RunKeepsInv` | entrypoints/background/deviceRegistry.ts:60-260 | in every run, restarts included: distinct ids, at most five devices, active null or present, the cache is what a reload gives and local storage holds its metadata |
| `DeviceRegistry.AddedIsGood` | entrypoints/background/deviceRegistry.ts:114-131 | sets the record of its id and no other |
| `DeviceRegistry.RemovedIsGood` | entrypoints/background/deviceRegistry.ts:133-155 | drops exactly the device named; the active one changes only if it was that one, to the first left or none |
| `DeviceRegistry.TouchedIsGood` | entrypoints/background/deviceRegistry.ts:176-178 | changes the last-seen time of the device named and nothing else |
| `DeviceRegistry.PersistLoads` | entrypoints/background/deviceRegistry.ts:60-112 | storing then loading is the identity |
| `DeviceRegistry.ReloadIsInvisible` | entrypoints/background/deviceRegistry.ts:60-102 | a worker restart or a reconcile reproduces the cache at any point of any run |
| `DeviceRegistry.AddTakesEffect` | entrypoints/background/deviceRegistry.ts:114-131 | in every run adding is accepted exactly below five devices or for a known one, sets its record and no other, and survives a restart |
| `DeviceRegistry.SetActiveTakesEffect` | entrypoints/background/deviceRegistry.ts:167-184 | in every run a known device named becomes the active one with its time noted, no other is touched, and a restart keeps that; an unknown one changes nothing |
| `DeviceRegistry.TouchTakesEffect` | entrypoints/background/deviceRegistry.ts:197-209 | in every run only the time of the known device named changes, and a restart keeps it |
| `DeviceRegistry.RemoveTakesEffect` | entrypoints/background/deviceRegistry.ts:133-155 | in every run a removed or revoked device is gone and no other, the active one moves only if it was that one, and a restart keeps that |
| `DeviceRegistry.SessionLossKeepsMetadata` | entrypoints/background/deviceRegistry.ts:71-91 | losing the session keeps all metadata, with empty keys and no active device |
| `DeviceRegistry.Registry.EnsureLoaded` | entrypoints/background/deviceRegistry.ts:98-102 | the cache is the current content |
| `DeviceRegistry.Registry.LoadFromStorage` | entrypoints/background/deviceRegistry.ts:60-96 | session first, then local metadata, then empty |
| `DeviceRegistry.Registry.Commit` | entrypoints/background/deviceRegistry.ts:104-112 | both storages and the cache hold the new content |
| `DeviceRegistry.Registry.AddDevice` | entrypoints/background/deviceRegistry.ts:114-131 | refused exactly when full and new |
| `DeviceRegistry.Registry.RemoveDevice` | entrypoints/background/deviceRegistry.ts:133-155 | refused exactly when unknown; revoking does the same to the registry |
| `DeviceRegistry.Registry.SetActiveDevice` | entrypoints/background/deviceRegistry.ts:167-184 | refused exactly when unknown, else active and touched, as `SetActiveTakesEffect` describes |
| `DeviceRegistry.Registry.UpdateDeviceLastSeen` | entrypoints/background/deviceRegistry.ts:197-209 | touches a known device only |
| `DeviceRegistry.Registry.ReconcileDeviceRegistry` | entrypoints/background/deviceRegistry.ts:211-216 | the cache is reloaded |
| `DeviceRegistry.FirstFree` | entrypoints/background/deviceRegistry.ts:355-361 | terminates by pigeonhole at the first unused number |
| `DeviceRegistry.ResolveDeviceName` | entrypoints/background/deviceRegistry.ts:347-363 | an unused name: the phone's own when that is free, else with the first free number from 2 on; without a name "Phone" with the first free number behind the number of devices |
| `PendingRevocations.CacheForLater` | entrypoints/background/deviceRegistry.ts:313-321 | keeps the list unique and adds the id |
| `PendingRevocations.FlushSplits` | entrypoints/background/deviceRegistry.ts:339-342 | the stored remainder is the unsent suffix exactly when no sent id recurs in it, so for every unique list |
| `PendingRevocations.FlushPending` | entrypoints/background/deviceRegistry.ts:323-345 | undisturbed, sends up to the first failure and stores the rest, as the steps of a flush do |
| `PendingRevocations.FlushLosesLateArrivals` | entrypoints/background/deviceRegistry.ts:323-345 | in every run of caching and flushing, a finishing flush keeps every unsent id exactly when it sent nothing or nothing new was cached since it read, and of the ids cached since exactly those it had read and not sent |
| `PendingRevocations.BroadcastSendsNext` | entrypoints/background/deviceRegistry.ts:330-337 | in every run a broadcast of a running flush sends the next id it read, or ends the flush |
| `PendingRevocations.FailureKeepsTheRest` | entrypoints/background/deviceRegistry.ts:330-342 | a run whose second broadcast fails keeps the second id |
| `PendingRevocations.RunKeepsInv` | entrypoints/background/deviceRegistry.ts:313-345 | in every run the stored list is unique, begins with what the flush read, and what was sent is the beginning of that |
| `PendingRevocations.LateArrivals` | entrypoints/background/deviceRegistry.ts:313-345 | while a flush runs the list holds what it read and what was cached since |
| `PendingRevocations.LateArrivalLost` | entrypoints/background/deviceRegistry.ts:323-345 | a run that loses an id |
| `PendingRevocations.RepeatedArrivalLost` | entrypoints/background/deviceRegistry.ts:323-345 | a run that loses an id cached again after it was sent |
| `CheckDigits.RunningIsRemainder` | lib/piiFilter.ts:80-84 | the digit-by-digit remainder is that of the whole expanded number, and NaN exactly on foreign characters |
| `CheckDigits.IsValidIban` | lib/piiFilter.ts:68-85 | true exactly for 15 to 34 letters and digits with remainder 1 |
| `CheckDigits.IbanLengths` | lib/piiFilter.ts:70-71 | one family of numbers is valid exactly at 15 to 34 characters |
| `CheckDigits.IbanDetectsSubstitution` | lib/piiFilter.ts:68-85 | changing one digit to a digit or one letter to a letter is always detected |
| `CheckDigits.IbanDetectsTransposition` | lib/piiFilter.ts:68-85 | exchanging neighbours of the rearranged string is detected exactly unless they are equal or B1, M2, X3 |
| `CheckDigits.IbanDetectsExchangeAtEnds` | lib/piiFilter.ts:68-85 | exchanging the fourth and fifth character, two digits or two letters, is detected exactly unless they are equal |
| `CheckDigits.PowerIsNotOne` | lib/piiFilter.ts:80-84 | no power of 10 below the 96th is 1 modulo 97 |
| `CheckDigits.IbanTranspositionMissed` | lib/piiFilter.ts:68-85 | a valid IBAN whose B and 1 can be exchanged unnoticed |
| `CheckDigits.LuhnCheck` | lib/piiFilter.ts:46-60 | true exactly when all are digits and the alternating sum, doubled from the second digit on, is a multiple of ten |
| `CheckDigits.LuhnWeights` | lib/piiFilter.ts:47-57 | replacing a digit moves the sum by the difference of the digits, or of their doubles less nine, as an even or odd number of digits follows |
| `CheckDigits.LuhnCheckDigit` | lib/piiFilter.ts:46-60 | every number has exactly one check digit |
| `CheckDigits.LuhnAcceptsCard` | lib/piiFilter.ts:46-60 | 4111111111111111 is valid |
| `CheckDigits.LuhnDetectsSubstitution` | lib/piiFilter.ts:46-60 | every single-digit change is detected |
| `CheckDigits.LuhnDetectsTransposition` | lib/piiFilter.ts:46-60 | exchanging neighbours is detected exactly unless they are equal or 0 and 9 |
| `SlidingWindow.NoWindowOverflows` | lib/rateLimit/slidingWindow.ts:5-24 | no half-open window anywhere holds more than maxHits admissions |
| `SlidingWindow.SlidingWindowLimiter.Allow` | lib/rateLimit/slidingWindow.ts:12-22 | denied exactly when maxHits admissions of the full history lie in the window |
| `SlidingWindow.SlidingWindowLimiter.DropExpired` | lib/rateLimit/slidingWindow.ts:14-16 | drops exactly what has left the window |
| `SlidingWindow.DomainSpacing` | lib/rateLimit/slidingWindow.ts:26-46 | admissions of one domain are at least a window apart |
| `SlidingWindow.PruningIsSafe` | lib/rateLimit/slidingWindow.ts:39-43 | forgetting an entry older than two windows keeps every answer |
| `SlidingWindow.DomainRateLimiter.Prune` | lib/rateLimit/slidingWindow.ts:39-43 | drops exactly the entries older than two windows and keeps the map's agreement with the history |
| `SlidingWindow.DomainRateLimiter.Allow` | lib/rateLimit/slidingWindow.ts:32-45 | admitted exactly when the full history has no admission of the domain younger than the window |
| `ContentLimiter.RunKeepsInv` | entrypoints/content/rateLimiter.ts:32-72 | in every run: counts stop at 12, windows open more than a minute apart and allow at most ten each |
| `ContentLimiter.AllowedExactly` | entrypoints/content/rateLimiter.ts:32-72 | in every run a request is allowed exactly when no backoff runs and the last window is over or has allowed fewer than ten |
| `ContentLimiter.RefusalBacksOff` | entrypoints/content/rateLimiter.ts:59-69 | the first refusal of a window backs off for one minute, the second for two |
| `ContentLimiter.CleanupForgets` | entrypoints/content/rateLimiter.ts:106-117 | forgets the entry exactly when the last window opened more than two minutes ago |
| `ContentLimiter.CapNeverReached` | entrypoints/content/rateLimiter.ts:61-69 | the count never passes 12 and the five-minute cap never decides |
| `ContentLimiter.TwentySpanAMinute` | entrypoints/content/rateLimiter.ts:32-72 | twenty allowed requests in a row span more than a minute |
| `ContentLimiter.AtMostNineteenPerMinute` | entrypoints/content/rateLimiter.ts:32-72 | any closed minute of any run holds at most 19 allowed requests |
| `ContentLimiter.NineteenHappens` | entrypoints/content/rateLimiter.ts:32-72 | a run with 19 exists |
| `ContentLimiter.CleanupCutsBackoff` | entrypoints/content/rateLimiter.ts:106-117 | cleanup ends a running backoff exactly when the count is 12 and two windows have passed |
| `ContentLimiter.BackoffCutHappens` | entrypoints/content/rateLimiter.ts:32-117 | a run in which it does, a minute early, and the next request is allowed |
| `ContentLimiter.RateLimiter.CheckRateLimit` | entrypoints/content/rateLimiter.ts:32-72 | the result and the new record |
| `ReplayCache.RunKeepsInv` | lib/replayProtection.ts:15-43 | in every run, interleaved calls included: at most 1000 entries, each the latest acceptance of its key, and complete unless trimmed |
| `ReplayCache.AnswersAgreeWithHistory` | lib/replayProtection.ts:30-43 | a replay is reported exactly for a key accepted less than five minutes ago that is still cached; without trimming, exactly for a key accepted less than five minutes ago; at most 1000 entries |
| `ReplayCache.AcceptedIsRemembered` | lib/replayProtection.ts:30-43 | in every run an accepted key shown again is refused exactly for the next five minutes |
| `ReplayCache.ThousandInsertionsDecide` | lib/replayProtection.ts:15-43 | in every run a key accepted less than five minutes ago is refused if fewer than a thousand insertions followed its own, and exactly then if its insertion is that recent too |
| `ReplayCache.RunKeepsPlaces` | lib/replayProtection.ts:15-43 | the Map's order is the order of insertions, and a key is gone only by age or by a thousand insertions behind it |
| `ReplayCache.EvictedKeyIsAcceptedAgain` | lib/replayProtection.ts:22-28 | in a full cache a new key makes the first one acceptable again |
| `ReplayCache.EvictionHappens` | lib/replayProtection.ts:22-43 | 1001 calls at one moment after which the first key would be accepted again |
| `ReplayCache.RefreshedKeyIsNextOut` | lib/replayProtection.ts:34-40 | an expired entry not cleaned up is accepted in its old place and can be pushed out at once |
| `ReplayCache.RefreshedEvictionHappens` | lib/replayProtection.ts:15-43 | a run in which it is |
| `ReplayCache.RefreshedKeyOutlivesInsertions` | lib/replayProtection.ts:15-43 | a run in which a refreshed key is still refused after a thousand insertions |
| `ReplayCache.Cache.CleanupExpired` | lib/replayProtection.ts:15-20 | keeps exactly the entries inside the window, in order |
| `ReplayCache.Cache.TrimCache` | lib/replayProtection.ts:22-28 | keeps the last thousand |
| `ReplayCache.Cache.CheckAndReserve` | lib/replayProtection.ts:33-42 | the answer and the new cache |
| `Framing.KexRoundTrip` | apps/native-host/crypto/handshake.go:45-78 | a message is read back with the rest of the stream untouched exactly when its payload is below 65536 bytes |
| `Framing.KexLayout` | apps/native-host/crypto/handshake.go:45-59 | type, two length bytes with the high one first, payload |
| `Framing.KexListRoundTrip` | apps/native-host/crypto/handshake.go:45-78 | any list of such messages is read back |
| `Framing.NativeRoundTrip` | apps/native-host/native_messaging/message.go:36-89 | a body is read back exactly when it has 1 byte to 1 MiB |
| `Framing.NativeLayout` | apps/native-host/native_messaging/message.go:73-80 | four length bytes with the low one first, body |
| `Framing.NativeListRoundTrip` | apps/native-host/native_messaging/message.go:36-89 | any list of such bodies is read back |
| `Framing.WriteFull` | apps/native-host/crypto/handshake.go:31-43 | succeeds exactly when no underlying write failed or wrote nothing, however short the writes; success means all was written, failure a prefix |
| `Framing.WriteKeyExchangeMsg` | apps/native-host/crypto/handshake.go:45-59 | succeeds exactly when no underlying write failed; success means the whole frame was written, failure a prefix |
| `Framing.ReadKeyExchangeMsg` | apps/native-host/crypto/handshake.go:61-78 | reads one frame and leaves the rest |
| `Framing.WriteNative` | apps/native-host/native_messaging/message.go:63-89 | succeeds exactly for a body of at most 1 MiB when none of its three calls failed; success means the whole frame was written, a failing call leaves a prefix, an oversized body nothing |
| `Framing.ReadNative` | apps/native-host/native_messaging/message.go:36-61 | reads one frame, refusing empty and oversized lengths |

## Left out

- User interface, DOM scraping and detectors, transport managers, offscreen WebRTC and WebUSB: sequencing of browser and device calls.
- Noise handshake, ECDH, HKDF, SHA-256 and the inside of AES-GCM: parameters or assumptions.
- AOA negotiation and the two-second re-enumeration: FindAccessoryDevice only returns accessory devices, so that branch is not reached.
- The read loop's start, stop and cancellation, and that at most one is live: the source does not establish it; the model lets any number of copies be outstanding.
- Uniqueness of getNextSequence under concurrent callers: its read and write are separate awaits; distinct numbers are assumed.
- ShouldRekey (crypto/rekey.go): a test for one error kind.
- TURN credentials, SDP and ICE relay, HMAC checks of the signalling server: plumbing; a commitment is compared as a value.
- JSON, base64, regular expressions, whitespace trimming and case folding.
- Lone surrogates in JavaScript and Java strings, which have no UTF-8 form: encoders replace them.
- isValidEstonianIdCode, capabilities intersection, retry helper, pairing-URL helpers: short computations without state.
- ThousandInsertionsDecide: for a key accepted again in its old place (an entry five minutes old or older that no cleanup had removed) only one direction is stated, because the other is false: some of the insertions that followed it may have been cleaned up since. `RefreshedKeyIsNextOut` shows such a key pushed out, `RefreshedKeyOutlivesInsertions` one that is kept.
- IbanDetectsExchangeAtEnds: a letter and a digit as fourth and fifth character are not covered; whether their exchange is noticed depends on the rest of the number.
- getRateLimitStatus and clearRateLimit: reading and explicit reset.
