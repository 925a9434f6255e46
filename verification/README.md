# rtc2tcp: verified model

rtc2tcp tunnels TCP over a WebRTC data channel between two peers that meet at a
rendezvous broker and authenticate each other with a pairing secret. This
project models its hardest parts in Dafny and proves what they are for.

- The authenticator (`Bytes`, `PrimeGroup`, `KeySchedule`, `Authenticator`,
  `AuthenticatorObject`, `Handshake`, `Agreement`): the CPACE handshake, as an
  object and as a function on values; runs of one authenticator under arbitrary
  calls, of two over a faithful channel, and of any number over a hostile network.
- The session (`SessionState`, `SessionGate`, `SessionSafety`,
  `SessionAuthenticity`, `SessionObject`, `Candidates`): callbacks and calls as
  concurrent activities whose locked regions are atomic steps, proved safe in
  every interleaving. `SessionProgress` says what each activity achieves and what
  fails a session. `Fleet` puts any number of sessions on the hostile network, and
  `FleetProgress` shows that two matching ones get through to streaming.
- The bridge (`Bridge`): backpressure between the TCP reader and the data channel.
- The broker (`BrokerSlots`, `Broker`, `RateLimit`): pairing over three maps
  refines one slot per key; the keyed limiter and its idle eviction.
- SOCKS5 (`Socks5`): the server handshake over a fragmenting connection, and the
  channel label that carries the target.

Modelling choices: hash, HKDF and HMAC are injective term constructors; the
prime-order group is the integers modulo any prime of at most 32 bytes, with
hash-to-element and X25519 as arbitrary parameters; random draws, clocks and
environment answers are parameters; on the network a tag can be presented only
if some authenticator emitted it; peer ids name one peer each and drawn session
ids are pairwise different; the data channel starts at or below the high
threshold. Base64url fields are their decoder's outcome.

Where documentation and code differ the model follows the code. PROTOCOL.md
draws the initiator passing through SENT_CONFIRM; the code goes from SENT_HELLO
straight to SUCCEEDED, and `Handshake.AnyCallsSafe` shows SENT_CONFIRM
unreachable. The limiter's comments promise eviction only to bound memory; it
can also forgive debt, and `RateLimit.EvictionInvisibleExactly` gives the exact
condition (one admission a minute with a burst above 60 fails it). For the same
reason a refused request is not always free: it refreshes the entry, and
`RateLimit.RefusalsAreFreeExactly` says when that matters. A comment in
the peer says a pipe never occurs in a target; nothing enforces that, and
`Socks5.LabelCarriesTarget` shows it is not needed.

## Model

| member | source | states |
|---|---|---|
| `Bytes.BigEndianRoundTrip` | internal/auth/auth.go:566-571 | a length below 256^k is recovered from its k big-endian bytes |
| `Bytes.BigEndianOfValue` | internal/auth/auth.go:497-503 | every byte string is the canonical encoding of its own value |
| `Bytes.SplitEncoded` | internal/auth/auth.go:549-564 | a reader of length-prefixed fields recovers exactly the fields written, and the bytes after them |
| `Bytes.EncodeFieldsPrefixFree` | internal/auth/auth.go:549-564 | equal encodings of equally many fields, whatever follows them, come from equal fields and equal continuations |
| `Bytes.EncodeFieldsInjective` | internal/auth/auth.go:549-571 | the field encoding is injective, even when the number of fields is not known in advance |
| `Bytes.LengthWrapCollides` | internal/auth/auth.go:566-571 | at 2^32 bytes the uint32 conversion wraps to zero, and two different pairs of fields encode alike |
| `Bytes.InjectiveExactly` | internal/auth/auth.go:566-571 | the encoding is injective on fields shorter than a limit if and only if the limit is at most 2^32 bytes |
| `Bytes.PutUint32` | internal/auth/auth.go:566-571 | the four array cells become the big-endian low 32 bits of the length |
| `Bytes.WriteLenPrefixed` | internal/auth/auth.go:566-571 | a write extends the encoding of the fields so far by one field |
| `Bytes.TrimSpace` | internal/auth/auth.go:599-601 | what is left neither begins nor ends with white space |
| `Bytes.TrimSpaceExact` | internal/auth/auth.go:599-601 | trimming removes the six ASCII white-space bytes at the two ends and nothing else |
| `Bytes.TrimSpaceUnique` | internal/auth/auth.go:599-601 | and the trimmed text is the only part of the text with that property |
| `Bytes.ToUpper` | internal/auth/auth.go:599-601 | byte by byte the same letter, and never a lower-case one |
| `Bytes.ToUpperForgetsCase` | internal/auth/auth.go:599-601 | two texts have one upper-case form if and only if they agree byte by byte up to the case of ASCII letters |
| `PrimeGroup.ProductNonZero` | internal/auth/auth.go:491-509 | modulo a prime, a product of nonzero residues is nonzero (the fact behind every identity check) |
| `PrimeGroup.MulNonIdentity` | internal/auth/auth.go:255-270 | a nonzero scalar never takes a non-identity element to the identity |
| `PrimeGroup.ScalarsCommute` | internal/auth/auth.go:491-509 | applying two scalars in either order gives the same element |
| `PrimeGroup.UnmarshalMarshal` | internal/auth/auth.go:491-503 | a marshalled element is accepted and unmarshals to itself |
| `PrimeGroup.MarshalUnmarshal` | internal/auth/auth.go:491-503 | an accepted encoding is canonical: marshalling what it decodes to gives it back |
| `PrimeGroup.ZeroPointIsIdentity` | internal/auth/auth.go:406-418 | the share that is refused as all-zero bytes is the encoding of the identity and of nothing else |
| `KeySchedule.TranscriptBinds` | internal/auth/auth.go:549-564 | equal transcripts of two views have all nine fields equal |
| `KeySchedule.TagsBindViews` | internal/auth/auth.go:420-476 | equal confirmation tags come from the same role and the same view: every transcript field, shared secret, pairing secret, hence every key |
| `KeySchedule.SessionKeyBindsView` | internal/auth/auth.go:444-476 | no two views share a session key: equal keys come from the same pairing, fingerprints, shares and shared secret |
| `KeySchedule.KeysSeparated` | internal/auth/auth.go:456-476 | the two tags of a view differ, the session key is neither confirmation key, and key and tags are 32 bytes long |
| `KeySchedule.BuildTranscript` | internal/auth/auth.go:549-564 | the writer sequence hashes exactly the nine transcript fields, in order |
| `KeySchedule.DeriveKeys` | internal/auth/auth.go:444-476 | the HKDF and MAC steps give the keys of the view |
| `Authenticator.GeneratorInputBinds` | internal/auth/auth.go:241-254 | two ends that hash the same generator input agree on secret, session id and both ordered fingerprints |
| `Authenticator.NewSucceedsExactly` | internal/auth/auth.go:170-189 | an authenticator is made if and only if the secret is not blank and the scheme is one of the two |
| `Authenticator.ValidMaterialExactly` | internal/auth/auth.go:603-619 | material is valid if and only if session id and both fingerprints are not blank and the mode is connect or expose |
| `Authenticator.CanonicalSameExactly` | internal/auth/auth.go:599-601 | two fingerprints are bound as one if and only if they are equal but for white space at the ends and the case of letters |
| `AuthenticatorObject.InteractiveAuthenticator.constructor` | internal/auth/auth.go:170-189 | a fresh object is the initial authenticator for the trimmed secret |
| `AuthenticatorObject.InteractiveAuthenticator.Bind` | internal/auth/auth.go:194-224 | new fields and error are those of the value-level Bind: out of order, invalid material, setup failure or bound |
| `AuthenticatorObject.InteractiveAuthenticator.SetupCpace` | internal/auth/auth.go:241-272 | generator and share from the four length-prefixed fields, with both identity refusals; a refused share leaves the scalar set, as in the code |
| `AuthenticatorObject.InteractiveAuthenticator.OrderedFingerprints` | internal/auth/auth.go:523-528 | initiator first: the local fingerprint at the initiator, the remote one at the responder |
| `AuthenticatorObject.InteractiveAuthenticator.Start` | internal/auth/auth.go:281-301 | only a bound initiator in INIT starts; it emits its share and moves on |
| `AuthenticatorObject.InteractiveAuthenticator.Step` | internal/auth/auth.go:303-318 | new fields, frame, done flag and error are those of the value-level Step |
| `AuthenticatorObject.InteractiveAuthenticator.StepResponder` | internal/auth/auth.go:320-365 | the responder's two steps with every refusal in the code's order |
| `AuthenticatorObject.InteractiveAuthenticator.StepInitiator` | internal/auth/auth.go:367-395 | the initiator's step with every refusal in the code's order |
| `AuthenticatorObject.InteractiveAuthenticator.ConsumePeerShare` | internal/auth/auth.go:406-418 | a share is stored exactly if it decodes to 32 bytes that are not all zero |
| `AuthenticatorObject.InteractiveAuthenticator.DerivePakeShared` | internal/auth/auth.go:480-521 | the shared secret, refused for a non-canonical share or an identity result |
| `AuthenticatorObject.InteractiveAuthenticator.ComputeTranscriptAndKeys` | internal/auth/auth.go:420-476 | keys are stored exactly if the view exists, and then they are the keys of that view |
| `AuthenticatorObject.InteractiveAuthenticator.SessionKey` | internal/auth/auth.go:397-402 | a key only in SUCCEEDED with keys derived |
| `Handshake.ApplyKeepsCoherent` | internal/auth/auth.go:194-404 | every call keeps the invariant linking state, role, binding and keys: keys, whenever present, are those of the present view |
| `Handshake.StepsRaiseRank` | internal/auth/auth.go:303-395 | each Step of a bound, unfinished authenticator makes progress; after SUCCEEDED or FAILED no call changes anything or emits a frame |
| `Handshake.FrozenAfterInit` | internal/auth/auth.go:194-224 | past INIT, role, material, secrets and share are fixed; once keys exist, so is the view |
| `Handshake.AnyCallsSafe` | internal/auth/auth.go:281-395 | under any sequence of calls with any frames: SENT_CONFIRM is unreachable, an initiator emits at most two frames and a responder one, and every share emitted is the present share |
| `Handshake.SucceedingCall` | internal/auth/auth.go:338-395 | the call that reaches SUCCEEDED is a Step whose frame carried the tag this end expects |
| `Handshake.UsableCpaceShare` | internal/auth/auth.go:406-418 | a CPACE share is usable if and only if it is 32 bytes whose value is between zero and the order, both excluded |
| `Handshake.HelloAcceptedExactly` | internal/auth/auth.go:320-347 | a responder in INIT answers exactly a hello of its scheme with both role names and a usable share; anything else fails it silently |
| `Handshake.AcceptAcceptedExactly` | internal/auth/auth.go:367-395 | an initiator that sent hello succeeds exactly on an accept of its scheme with a usable share and the responder's tag for the resulting view |
| `Handshake.ConfirmAcceptedExactly` | internal/auth/auth.go:349-365 | a responder that sent accept succeeds exactly on a confirm of its scheme with the initiator's tag |
| `Handshake.KeyOnlyAfterTag` | internal/auth/auth.go:397-402 | over any call sequence, SessionKey answers only if some earlier Step carried the peer's tag for exactly the view the key belongs to |
| `Agreement.BindSucceedsExactly` | internal/auth/auth.go:241-272 | with a nonzero scalar, CPACE Bind succeeds if and only if session id and fingerprints are not blank, the mode is known and the generator is not the identity; the local-share check cannot fire |
| `Agreement.ShareAccepted` | internal/auth/auth.go:406-418 | no check of the receiver refuses a share of a ready end |
| `Agreement.SharedAgree` | internal/auth/auth.go:491-509 | matching ends compute the same shared secret |
| `Agreement.ViewsAgreeExactly` | internal/auth/auth.go:420-455 | the two ends reach the same view if and only if secret, session id and ordered fingerprints match |
| `Agreement.FaithfulExchange` | internal/auth/auth.go:281-395 | for all pairs of bound CPACE ends: the three-frame exchange succeeds on both sides if and only if they match, else on neither; on success both hold the same 32-byte key |
| `Agreement.PairingExchange` | internal/auth/auth.go:170-224 | the same from constructor and Bind arguments: success if and only if trimmed secrets and session ids agree and the fingerprints mirror each other up to white space at the ends and letter case |
| `Agreement.EcdhBindSucceedsExactly` | internal/auth/auth.go:226-239 | a transitional Bind is refused only for invalid material |
| `Agreement.EcdhExchange` | internal/auth/auth.go:281-395 | the same if-and-only-if for the transitional scheme, whenever the two X25519 keys agree on a nonzero point |
| `Agreement.CallTags` | internal/auth/auth.go:320-395 | tags are emitted only by the end that owns them, past its sending point, and stay its own |
| `Agreement.NextKeepsInv` | internal/auth/auth.go:303-395 | every step of a network of authenticators keeps: each tag in circulation has an owner, each success consumed a tag in circulation |
| `Agreement.RunKeepsInv` | internal/auth/auth.go:303-395 | the same for every run |
| `Agreement.SuccessHasPartner` | internal/auth/auth.go:303-395 | any number of authenticators, frames dropped, duplicated, reordered, redirected or replaced: an end that succeeds has a partner of the other role with the same view and the same keys that sent its tag, and a succeeded responder's partner has succeeded too |
| `PrimeGroup.MulCancels` | internal/auth/auth.go:491-509 | on a non-identity element, different scalars give different results |
| `Agreement.PartnersShareScalar` | internal/auth/auth.go:491-509 | all partners of a CPACE end drew the same nonzero scalar |
| `Agreement.EveryScalarDrawn` | internal/auth/auth.go:255-270 | in every run a scalar is unset or was drawn by a Bind of its own authenticator |
| `Agreement.SameKeySameView` | internal/auth/auth.go:397-402 | on any network, forged frames included, two ends with the same session key have the same view |
| `Agreement.EveryTagEmitted` | internal/auth/auth.go:320-395 | in every run the tag of an end past its sending point has been sent |
| `Agreement.UniquePartner` | internal/auth/auth.go:303-395 | injective agreement: if no two authenticators draw the same scalar, a succeeded CPACE end has exactly one partner in the network and is that partner's only partner |
| `SessionState.AllowedIsTable` | internal/webrtc/state.go:22-57 | the predicate used in the proofs is the literal transition table |
| `SessionState.NeverGoesBack` | internal/webrtc/state.go:22-57 | along any sequence of requests progress never decreases, teardown is never left, and STREAMING is entered only through AUTHENTICATED |
| `SessionState.StateMachine.Transition` | internal/webrtc/state.go:74-89 | an allowed request moves, a disallowed one leaves the state and reports an error |
| `SessionState.StateMachine.IsOneOf` | internal/webrtc/state.go:91-100 | true exactly if the state is listed |
| `SessionSafety.OthersKeep` | internal/webrtc/session.go:508-566 | what one activity knows about the shared session survives a step of any other |
| `SessionSafety.StepOneGood` | internal/webrtc/session.go:128-566 | each atomic step of each callback or method keeps the shared invariant, its own next-point knowledge and the interference relation |
| `SessionSafety.EveryRunSafe` | internal/webrtc/session.go:128-566 | the invariant holds in every interleaving of any number of callbacks and calls |
| `SessionSafety.PayloadOnlyAfterAuth` | internal/webrtc/session.go:141-160 | in every interleaving, a payload channel is handed over or STREAMING is entered only after the authenticator succeeded and the result was fixed as success |
| `SessionSafety.TeardownOnce` | internal/webrtc/session.go:534-566 | in every interleaving the result is written at most once, the connection is closed at most once, and only in a torn-down state |
| `SessionSafety.FixedForever` | internal/webrtc/session.go:554-566 | whatever happens later, a fixed result, a torn-down state and a succeeded authenticator stay |
| `SessionSafety.GuardedCallbackReturns` | internal/webrtc/session.go:128-133 | once the connection is being closed, the connection-state callback returns without entering fail |
| `SessionSafety.NextCarries` | internal/webrtc/session.go:370-408 | while hello is due, some activity is on its way to send it |
| `SessionSafety.HelloExactlyOnce` | internal/webrtc/session.go:312-331 | in every interleaving at most one hello is sent; and on the connect side, with channel open, state past AUTH_PENDING, no failure and no sender under way, exactly one was |
| `SessionAuthenticity.StepAuth` | internal/webrtc/session.go:334-434 | the authenticator inside the session changes only by Bind, Start and Step calls with the frames received |
| `SessionAuthenticity.EveryRunAuthentic` | internal/webrtc/session.go:334-368 | in every interleaving, a succeeded authenticator has received the frame with the tag it expects |
| `SessionAuthenticity.PayloadMeansVerifiedPeer` | internal/webrtc/session.go:334-368 | if a payload channel was ever handed over, the session received a frame carrying the other role's tag for the very view its session key is derived from |
| `Fleet.NextKeepsInv` | internal/webrtc/session.go:334-368 | any number of sessions on one network: each step keeps every session's invariant, and every frame being worked on carries a tag some session computed |
| `Fleet.FleetSimulates` | internal/webrtc/session.go:334-434 | the authenticator calls of any unforged fleet run are an unforged run of the authenticator network, ending in the same authenticators and tags |
| `Fleet.PayloadMeansPartner` | internal/webrtc/session.go:141-160 | if any session handed over a payload channel, another session of the opposite role holds the same view and keys, bound to the same secret and session id and to mirrored fingerprints; the expose side's partner has succeeded |
| `Fleet.PayloadMeansUniquePartner` | internal/webrtc/session.go:141-160 | with pairwise different scalars that session is the only such one, and has no other partner |
| `SessionProgress.FinishedHandshakeFixesSuccess` | internal/webrtc/session.go:358-364 | an activity that finished the handshake records success, if nothing was recorded before |
| `SessionProgress.AuthenticatedIsSuccess` | internal/webrtc/session.go:334-368 | in every interleaving an AUTHENTICATED or STREAMING session that was neither failed nor closed, with no result about to be recorded, is a success |
| `SessionProgress.EntersAuthPending` | internal/webrtc/session.go:508-522 | left alone, the second description takes the session from SIGNALING to AUTH_PENDING and on to sending |
| `SessionProgress.TriesAgain` | internal/webrtc/session.go:508-522 | a later description leaves the state and tries to start again |
| `SessionProgress.SendsHello` | internal/webrtc/session.go:391-408 | left alone, the connect side claims, starts and sends one hello |
| `SessionProgress.FrameAuthenticates` | internal/webrtc/session.go:334-368 | the frame that finishes the handshake leaves the session AUTHENTICATED with result success |
| `SessionProgress.OpensStream` | internal/webrtc/session.go:232-246 | an authenticated session opens a payload channel and is STREAMING |
| `SessionProgress.AcceptsStream` | internal/webrtc/session.go:141-160 | an authenticated expose side accepts the peer's payload channel |
| `SessionProgress.RefusesStream` | internal/webrtc/session.go:232-246 | before authentication no channel is opened, and an arriving one fails the session |
| `SessionProgress.FailsExactly` | internal/webrtc/session.go:128-566 | a step fails the session if and only if it meets one of the listed errors, written out in terms of the shared state |
| `SessionProgress.OffenceTearsDown` | internal/webrtc/session.go:534-552 | each such error, left alone, ends FAILED with the connection closed once and failure recorded unless a result was fixed before |
| `SessionProgress.CloseTearsDown` | internal/webrtc/session.go:275-299 | closing ends CLOSED with the connection closed once and failure recorded unless a result was fixed before |
| `FleetProgress.MatchingSessionsStream` | internal/webrtc/session.go:76-566 | any connect and expose session with matching secrets, session ids and fingerprints whose Binds are accepted have an unforged run, from creation to streams, after which both are STREAMING with result success and one session key, with one hello and one payload channel handed over on each side |
| `SessionObject.Session.constructor` | internal/webrtc/session.go:76-110 | a new session is the initial shared state |
| `SessionObject.Session.Attach` | internal/webrtc/session.go:301-310 | the first control channel stays; a different one is refused and fail begins |
| `SessionObject.Session.PublishRemote` | internal/webrtc/session.go:491-496 | the remote fingerprint is published as in the step |
| `SessionObject.Session.BindAuthenticator` | internal/webrtc/session.go:414-434 | the locked region equals the atomic bind step, with its three outcomes |
| `SessionObject.Session.ClaimHello` | internal/webrtc/session.go:391-397 | the locked region claims the hello at most once |
| `SessionObject.Session.CompleteAuthResult` | internal/webrtc/session.go:554-566 | the first result wins; later ones change nothing |
| `SessionObject.Session.EnterStreaming` | internal/webrtc/session.go:232-246 | the state and result checks and the transition, as in the steps |
| `Candidates.FlattenPop` | internal/webrtc/session.go:498-504 | submitting one candidate removes exactly one from what is in flight |
| `Candidates.EveryRunConserves` | internal/webrtc/session.go:210-230 | in every interleaving without a failed submission each received candidate is pending, in flight or submitted exactly once; nothing is submitted before the remote description |
| `Candidates.EverythingSubmitted` | internal/webrtc/session.go:481-506 | every run with the remote description set and no refusal can be finished so that every candidate received was submitted exactly once |
| `Candidates.SerialisedInOrder` | cmd/rtc2tcp-peer/main.go:343-352 | with calls serialised as in the peer loop, submitted, in flight and pending are the received sequence in order |
| `Candidates.CandidateQueue.AddRemoteCandidate` | internal/webrtc/session.go:210-230 | held back before the description, submitted after it |
| `Candidates.CandidateQueue.SetRemoteDescription` | internal/webrtc/session.go:481-506 | flushes the held-back candidates in order up to the first refusal and empties the queue |
| `RateLimit.PacedIsAdmitted` | internal/rendezvous/ratelimit.go:41-57 | a request at least one interval after all earlier ones of its key is admitted, whatever other keys and sweeps do; in particular a new key is |
| `RateLimit.WindowBound` | internal/rendezvous/ratelimit.go:41-57 | in any window, one key is admitted at most burst plus one per elapsed interval, whatever the other keys do |
| `RateLimit.AdmissionsArePaid` | internal/rendezvous/ratelimit.go:41-57 | admissions in a window cost at most one full bucket and the time elapsed, less the credit left |
| `RateLimit.EvictionRefines` | internal/rendezvous/ratelimit.go:59-73 | if a bucket refills within the idle time, the evicting limiter simulates one that never forgets |
| `RateLimit.EvictionVisible` | internal/rendezvous/ratelimit.go:59-73 | otherwise a concrete history is answered differently |
| `RateLimit.EvictionInvisibleExactly` | internal/rendezvous/ratelimit.go:41-73 | idle eviction changes no answer over all chronological histories if and only if burst * interval <= idle time + 1 ns |
| `RateLimit.BrokerParamsExactly` | internal/rendezvous/broker.go:175-199 | for every rate the interval is the greatest number of nanoseconds that fits that often in a minute; the defaults where an option is not positive |
| `RateLimit.BrokerEviction` | internal/rendezvous/broker.go:175-199 | with the broker's one-hour idle time: invisible at the defaults; at one per minute, invisible if and only if burst is at most 60 |
| `RateLimit.WindowBoundSwept` | internal/rendezvous/broker.go:683-685 | the window bound survives sweeping whenever buckets refill within the idle time |
| `RateLimit.KeysIsolated` | internal/rendezvous/ratelimit.go:41-73 | for the swept limiter, at any idle time and in any history: the answers and the entry of a key are those of a run with that key's requests and the sweeps only |
| `RateLimit.IdealRefusalsAreFree` | internal/rendezvous/ratelimit.go:41-57 | without sweeps, leaving out a refused request changes no bucket and no other answer, now or later |
| `RateLimit.RefusalsAreFree` | internal/rendezvous/ratelimit.go:41-73 | for the swept limiter, leaving out a refused request changes no other answer if buckets refill within the idle time |
| `RateLimit.RefusalsAreFreeNanosecond` | internal/rendezvous/ratelimit.go:41-73 | the same at an interval of one nanosecond, where a refusal leaves the whole table unchanged |
| `RateLimit.RefusalCosts` | internal/rendezvous/ratelimit.go:52 | otherwise a concrete history: the refused request refreshes the entry, which saves a debt that the sweep would have forgiven, so a later answer differs |
| `RateLimit.RefusalsAreFreeExactly` | internal/rendezvous/ratelimit.go:41-73 | over all chronological histories of the swept limiter, refusals are free if and only if burst * interval <= idle time + 1 ns or the interval is 1 ns |
| `RateLimit.KeyedLimiter.Allow` | internal/rendezvous/ratelimit.go:41-57 | the entry is created if missing, marked seen and charged; other keys are untouched |
| `RateLimit.KeyedLimiter.Cleanup` | internal/rendezvous/ratelimit.go:59-73 | exactly the entries last seen before the cutoff go, and their number is returned, in any iteration order |
| `Bridge.EveryRunSafe` | internal/tunnel/bridge.go:34-105 | the invariant of reader, drain token, low-water callback and teardown holds in every interleaving |
| `Bridge.NoLostWakeup` | internal/tunnel/bridge.go:73-105 | a reader blocked with no token, callback or teardown pending has more than the low threshold buffered, so draining must still fire the callback |
| `Bridge.WaitingReaderReleased` | internal/tunnel/bridge.go:90-97 | a reader waiting at or below the low threshold, or during teardown, is released by at most three steps of the bridge itself: to reading on, to closing down if its read failed, or to a stop in finished teardown |
| `Bridge.CheckExactly` | internal/tunnel/bridge.go:90-102 | after a chunk the reader waits if and only if the buffer is above the high mark, else it reads on, or closes down if the read failed |
| `Bridge.FailureTearsDown` | internal/tunnel/bridge.go:37-54 | in every run a failed read or send ends with reader stopped and teardown finished |
| `Bridge.CarriesEverything` | internal/tunnel/bridge.go:80-105 | any non-empty chunks can be carried across, in order and all accepted, and the reader is ready for more |
| `Bridge.InOrderAndBounded` | internal/tunnel/bridge.go:80-105 | bytes passed to Send are a prefix of the bytes read, one chunk behind at most and equal when the reader waits or stops; chunks are bounded; the buffer never exceeds the high threshold by more than a chunk |
| `Bridge.ReaderLoop` | internal/tunnel/bridge.go:80-105 | the loop passes every byte read, in order, in non-empty bounded chunks, nothing after a refused send or teardown, and the whole stream if nothing goes wrong |
| `Bridge.Conn.Read` | internal/tunnel/bridge.go:83 | a read delivers a prefix of the remaining stream no longer than the buffer |
| `BrokerSlots.OneSlotEach` | internal/rendezvous/broker.go:411-508 | a peer holds a slot only under its own key, and a session's two peers differ |
| `BrokerSlots.PartnersAreMutual` | internal/rendezvous/broker.go:573-583 | the partner is another peer with the same key and the other mode, and its partner is the first peer again |
| `BrokerSlots.PairsExactly` | internal/rendezvous/broker.go:411-508 | a free key waits; otherwise the two are paired if and only if another peer of the other mode waits and an id could be drawn; refusals change nothing and other keys are untouched |
| `BrokerSlots.SessionOfExactly` | internal/rendezvous/broker.go:573-583 | the session found is the one that holds the peer, wherever it is |
| `BrokerSlots.LeaveFrees` | internal/rendezvous/broker.go:522-560 | leaving frees the peer's own slot, waiting or paired, and no other, and tells the partner exactly if there was one |
| `BrokerSlots.EvictExactly` | internal/rendezvous/broker.go:656-681 | a sweep keeps exactly the slots no older than their limit |
| `BrokerSlots.UnregisterFrees` | internal/rendezvous/broker.go:522-560 | in every run, after unregistering a peer holds no slot, its key is free, other keys are untouched, and its partner gets exactly one Left notice |
| `BrokerSlots.OppositesMeet` | internal/rendezvous/broker.go:411-520 | in every run a peer registering while one of the other mode waits under its key is paired with it, both are told, and signals pass both ways |
| `BrokerSlots.PairKeepsValid` | internal/rendezvous/broker.go:411-508 | registration keeps keys, modes and ids consistent |
| `BrokerSlots.LeaveKeepsValid` | internal/rendezvous/broker.go:522-560 | unregistering keeps them consistent |
| `BrokerSlots.EvictKeepsValid` | internal/rendezvous/broker.go:656-681 | sweeping keeps them consistent |
| `BrokerSlots.EveryRunOk` | internal/rendezvous/broker.go:411-681 | in every run of registrations, relays, departures and sweeps: slots are consistent; per session id there is at most one Paired notice for each role and at most one Left notice, none while the session lives, and a living session has sent both Paired notices |
| `BrokerSlots.NoticesReachOwnPeers` | internal/rendezvous/broker.go:411-560 | in every run every Paired, Left or relayed notice goes to one of the two peers of the one session made under that id, and a Paired notice tells its peer its own role and the other's mode |
| `BrokerSlots.SessionsAnnounced` | internal/rendezvous/broker.go:411-508 | conversely every session ever made joins one connect and one expose peer, and both were told |
| `BrokerSlots.RelayReachesPartner` | internal/rendezvous/broker.go:510-520 | in every run a signal goes to the sender's mutual partner and to nobody else, or nowhere |
| `BrokerSlots.LateUnregisterHarmless` | internal/rendezvous/broker.go:522-560 | after a peer has lost its slot, its late unregister changes nothing, however often the key was reused meanwhile |
| `Broker.HitIsOwnSlot` | internal/rendezvous/broker.go:573-583 | the session found by scanning is the one in the peer's own slot, in any iteration order |
| `Broker.Registry.TryPair` | internal/rendezvous/broker.go:411-508 | three-map registration refines one-slot-per-key registration: error, slots and notices |
| `Broker.Registry.FindSessionPeer` | internal/rendezvous/broker.go:573-583 | the scan finds the partner and session of the peer's slot, or none |
| `Broker.Registry.DropSession` | internal/rendezvous/broker.go:541-543 | removes one session and its key and keeps the maps linked |
| `Broker.Registry.UnregisterPeer` | internal/rendezvous/broker.go:522-560 | refines leaving a slot, with the Left notice to the partner |
| `Broker.Registry.RelaySignal` | internal/rendezvous/broker.go:510-520 | one signal to the partner of the sender's slot, or none |
| `Broker.Registry.CollectStale` | internal/rendezvous/broker.go:656-681 | exactly the slots older than their TTL go, and they are what is returned, without repetition |
| `Broker.Drive` | internal/rendezvous/broker.go:411-681 | every run of the three-map broker is a run of the one-map broker: same slots, same notices |
| `Socks5.ClientWireForm` | internal/socks5/socks5.go:54-102 | the client's bytes as sections 3 to 5 of RFC 1928 lay them out, for the three address forms |
| `Socks5.RefusalsExactly` | internal/socks5/socks5.go:54-102 | each refusal by its first wrong byte, and the two bytes the client is told |
| `Socks5.PartialClientIncomplete` | internal/socks5/socks5.go:54-102 | every proper prefix of a well-formed client is incomplete: neither refused for its content nor accepted |
| `Socks5.ClientAccepted` | internal/socks5/socks5.go:54-102 | every well-formed client is understood: its target is returned and exactly its bytes are consumed |
| `Socks5.OnlyClientsAccepted` | internal/socks5/socks5.go:54-102 | a target is returned only for the bytes of a well-formed client, and it is that client's target |
| `Socks5.ReadFull` | internal/socks5/socks5.go:55-66 | under any fragmentation: the next buffer-length bytes, or the stream ends and is used up |
| `Socks5.HasMethod` | internal/socks5/socks5.go:154-161 | true exactly if the method is offered |
| `Socks5.ReadAddrFrom` | internal/socks5/socks5.go:122-152 | the loop-level reader equals the function on the whole stream, for all three address types and the refusals |
| `Socks5.ServeHandshake` | internal/socks5/socks5.go:54-102 | under any fragmentation: same target or error, same replies, and precisely the unread rest left |
| `Socks5.ParseLabel` | cmd/rtc2tcp-peer/main.go:506-512 | the target after the first pipe, or an error if there is none |
| `Socks5.LabelCarriesTarget` | cmd/rtc2tcp-peer/main.go:614-618 | a label carries back its target and no other, even if the target contains a pipe |
| `Socks5.CarryTarget` | cmd/rtc2tcp-peer/main.go:606-618 | end to end: what the expose side dials is what the client asked for, and the payload is untouched |
| `Socks5.LabelInjective` | cmd/rtc2tcp-peer/main.go:614-618 | different stream numbers or targets give different labels |
| `Socks5.TargetTextExactly` | internal/socks5/socks5.go:96-102 | host, colon and decimal port without leading zero, with square brackets exactly around a host that contains a colon |
| `Socks5.TargetTextInjective` | internal/socks5/socks5.go:96-102 | the joined host:port text determines host and port, brackets and colons included |

## Left out

- Bytes.TrimSpace: ASCII white space only, like `Bytes.TrimSpaceExact`.
- Bytes.TrimSpaceExact: ASCII spaces and ASCII upper case only; Unicode spaces and case mapping are not modelled.
- Bytes.EncodeFieldsInjective: for fields below 2^32 bytes, because at that length the code's conversion wraps (`Bytes.InjectiveExactly`).
- Agreement.EcdhExchange: X25519 is an uninterpreted parameter, so that the two keys agree on a nonzero point is a condition.
- Agreement.UniquePartner: for the CPACE scheme, because nothing is assumed of X25519.
- Agreement.SuccessHasPartner: over ideal tags, that is, without the probability that a tag is guessed or a secret found by trial.
- SessionSafety.EveryRunSafe: each authenticator call is one step; the code does not hold the session lock during Start and Step.
- FleetProgress.MatchingSessionsStream: gives a run; that every fair run gets there is not stated, since peers, network and scheduler may stall.
- SessionSafety.HelloExactlyOnce: says that hello was sent when nothing is under way, not that the scheduler lets the sender run.
- SessionObject.Session.IsAuthenticated: the channel check and the locked read are one step.
- SessionObject.Session.PublishRemote: the candidate bookkeeping of the same locked region is in `Candidates`.
- SessionObject.Session.EnterStreaming: its three locked regions run as one call here; `SessionGate` interleaves them.
- The session methods that only wait for or call the WebRTC library exist as steps of `SessionGate`, not as methods.
- RateLimit.WindowBound: credit is exact in nanoseconds; floating-point rounding in the token bucket, clocks that run backwards and rates so high that the interval rounds to zero are not modelled.
- Bridge.WaitingReaderReleased: gives a short releasing schedule; fairness of the Go scheduler is not modelled.
- Bridge.InOrderAndBounded: one direction, TCP to data channel; the inbound callback writes each message directly.
- Socks5.TargetTextInjective: host text is given; the text form of an IP address is a parameter.
- Broker.Registry.TryPair: send failures, keepalive and connection closing are not modelled.
- Real cryptography, randomness quality, and the timing of comparisons.
- ICE, DTLS, SCTP, websocket and HTTP layers, origin and proxy checks, SDP parsing.
- Session close errors, logging, command line, connection strings and configuration: they would add only easy members.
- SOCKS5 success and failure replies, listener loops and dialling.
