# Verified model of protonmail-go

This project models the stateful and arithmetic core of the protonmail-go client
library in Dafny and proves what its callers rely on.

- **SRP handshake.** `NumberTheory`, `Codec`, `Srp`, `SrpAgreement`, `SrpDisagreement`, `Password`, `Login`:
  the in-place little-endian codec, `generateProofs` with its sampling loops and bounds
  checks, and password hashing over Go slices. Fermat's little theorem is derived from the
  binomial expansion and Euclid's lemma. An honest server is written independently, from
  sections 2.5.3, 2.5.4 and 2.6 of RFC 5054, with the client's encodings (little-endian
  numbers, M1 = H(A|B|S), M2 = H(A|M1|S)). Every handshake in which the client gets its proofs
  is proved to end with both sides accepting each other exactly for the moduli N with
  2^(N-1) = 1 modulo N, every odd prime among them. The hash is arbitrary and the random source
  is an arbitrary list of draws.
- **Bulk importer.** `ImporterProtocol`, `ImporterSafety`, `ImporterTheorems`: the caller, the
  worker goroutine, the pipe and the two channels as a labelled transition system. A run is any
  sequence of enabled steps, so each theorem holds for every interleaving. `ImporterCode` is
  the Importer object with its mutable fields, waiting on an arbitrary schedule of the other
  threads; every state it reaches is proved to be a state of the transition system.
- **Requests, re-authentication, sessions, errors.** `Request`, `RequestTheorems`, `Session`,
  `Errors`: the recursive `do` over an arbitrary finite server trace and arbitrary callback
  effects. A call whose trace runs out is still waiting and has not returned.
- **Outgoing messages.** `SignedStream`, `Packages`, `PackagesTheorems`, `KeyChoice`: the
  one-pass signature writer with arbitrary failures, the key-distribution object over any
  sequence of calls, and key selection.
- **Label updates.** `Labels`: nil, empty and shared slices, and the algebra of updates.

Classes carry the code as it mutates its fields. Their methods are proved equal to a
specification function of the old state, about which the theorems are lemmas, or directly
against what the source promises.

Where the code and its comments differ, the code is modelled:

- `do` announces "a single re-auth + retry" (protonmail.go:196). Nothing counts retries:
  `RequestTheorems.RetriesUntilAuthorized` goes through any number of 401s, and
  `RequestTheorems.SingleRetryForAllIff` says for which requests the limit holds whatever the
  server does, and `RequestTheorems.SingleRetryIff` on which server traces.
- `Commit` says that a missing key is reported "without contacting the server"
  (import.go:90-92). `ImporterTheorems.MissingKeyCanBeReported` is a run in which the request is
  under way when it is; `ImporterTheorems.MissingKeyIsReportedAfterSending` shows that the stream
  has always been ended and its end of file delivered by then.
- `Logout` says a failure preserves the local session (auth.go:431-432). That holds for all
  server replies and callbacks exactly for clients without a callback or without credentials:
  `Session.LogoutFailureKeepsSessionIff`; `Session.LogoutCanLoseToken` is a failing run.
- `generateProofs` never checks that the modulus is prime (srp.go:110-111). What the handshake
  needs is the Fermat test for base 2 (`SrpDisagreement.HandshakesCompleteIff`), which odd primes
  pass and 341 passes too. For every modulus of l bits that fails it, l divisible by 8,
  `SrpDisagreement.ServerCanRefuse` is a run in which all of the client's checks pass and the
  server refuses; its hash has digests of l/8 bytes, the 256 of the library's at 2048 bits.
- A failed `newRequest` in the worker leaves nobody to read or close the pipe, so `Import`
  never returns: `ImporterTheorems.BuildFailureBlocksImport`. It is the only way to get stuck:
  `ImporterTheorems.StuckIffBuildFailed`.

## Model

| member | source | states |
|---|---|---|
| Codec.Reverse | srp.go:58-63 | the in-place loop leaves the mirror image of the buffer |
| Codec.ReversedTwice | srp.go:58-63 | reversing twice restores every buffer |
| Codec.Itoa | srp.go:65-71 | minimal bytes, reversed and padded, are the fixed-width little-endian digits; callable exactly when the number fits |
| Codec.Atoi | srp.go:73-76 | the value is the little-endian reading of the old bytes, and the caller's buffer ends reversed |
| Codec.BigEndianReversed | srp.go:73-76 | reversing before big.Int.SetBytes amounts to a little-endian reading |
| Codec.BytesFit | srp.go:66-68 | the padding length is non-negative if and only if n < 256^(l/8) |
| Codec.FixedIsPaddedBytes | srp.go:65-71 | the code's construction equals the independent fixed-width definition |
| Codec.DecodeFixed | srp.go:65-76 | decoding an encoding restores every number that fits |
| Codec.FixedDecode | srp.go:65-76 | encoding a decoding restores every byte string of the fixed width |
| NumberTheory.Euclid | srp.go:140-141 | a prime dividing a product divides a factor |
| NumberTheory.Fermat | srp.go:140-141 | a^(p-1) = 1 mod p for prime p not dividing a |
| NumberTheory.ReduceExponent | srp.go:140-141 | the exponent may be reduced modulo N-1 for every base whose (N-1)-th power is 1, N prime or not |
| Srp.RandomSource.Int | srp.go:117-120 | a draw below the maximum, or failure once the reader is exhausted |
| Srp.GenerateProofs | srp.go:85-160 | on every path, errors included, each of the three caller buffers ends reversed exactly once; the result is the handshake of the old bytes, with the multiplier hashed over the unreversed modulus |
| Srp.DrawLoop | srp.go:113-134 | the nested sampling loops return the specified secret and terminate on every finite source |
| Srp.FinishProofs | srp.go:136-159 | subtraction with one correction, reduced exponent, session, and both proofs over A, B and S |
| Srp.VerifyServerProof | srp.go:162-172 | success if and only if the string decodes to the expected proof; a decoding failure has its own error |
| SrpAgreement.DrawIsFirstAcceptable | srp.go:113-134 | the secret comes from the first acceptable draw; failure if and only if no draw is acceptable |
| SrpAgreement.SecretInRange | srp.go:113-134 | every secret used is some draw modulo N-1 with 2l < a < N-1, A = 2^a mod N, and u, hashed from A and B, is not zero |
| SrpAgreement.GenerateSucceedsIff | srp.go:93-134 | proofs are produced exactly for a modulus of l bits, a multiplier and a server ephemeral from 2 to N-2, and a draw with an exponent of at least 2l+1 and a scrambling parameter that is not zero |
| SrpAgreement.GenerateErrors | srp.go:93-134 | which error each first failing check gives, in that order; the generator check can never fail |
| SrpAgreement.NoNegativePadding | srp.go:94-159 | in every successful run the subtracted value lies in [0,N) and every encoded number fits, so no padding length is negative |
| SrpAgreement.SubtractedIsPower | srp.go:136-139 | removing k*2^x from the server's ephemeral leaves 2^b modulo N, in range after one addition |
| SrpAgreement.SessionsAgreeIff | srp.go:93-141 | the client's session equals the server's (A*v^u)^b mod N for all x, a, b, u and k if and only if 2^(N-1) = 1 modulo N |
| SrpAgreement.SessionsAgree | srp.go:93-141 | agreement for all x, a, b, u and k on a modulus that passes that test |
| SrpAgreement.AgreementForces | srp.go:136-141 | with x = b = 1 and u = N-1-a the client derives 1 and the server 2^(N-1), so one agreement at any a and k decides the test |
| SrpAgreement.OddPrimesPass | srp.go:110-111 | every odd prime passes the test |
| SrpAgreement.CompositeCanPass | srp.go:110-111 | 341 = 11 * 31 passes it too |
| SrpAgreement.TranscriptInjective | srp.go:143-147 | fixed widths make the hashed transcript injective in A, B and S |
| SrpAgreement.HandshakeAccepts | srp.go:85-160 | for every hash and every modulus passing the test, an honest server accepts M1 and answers with exactly the expected M2 |
| SrpAgreement.ServerAcceptsIffSessionsEqual | srp.go:128-147 | without a hash collision on the two transcripts, any server with the same B, sent in any number of bytes, accepts if and only if its session equals the client's |
| SrpAgreement.OtherLengthsAreRefused | srp.go:128-147 | a server that hashes an ephemeral of another length as sent refuses the client, which re-encodes it, unless the hash collides |
| SrpDisagreement.HandshakesCompleteIff | srp.go:85-160 | for l divisible by 8 and a modulus N of l bits: in every handshake the client's proofs are accepted and answered as expected, for all hashes, password hashes, draws and server secrets, if and only if 2^(N-1) = 1 modulo N; also when digests have l/8 bytes |
| SrpDisagreement.ServerCanRefuse | srp.go:85-160 | for every such modulus that fails the test a hash, a password hash and a draw are given for which the client produces proofs and the server holding its verifier refuses them |
| SrpDisagreement.EvenModulusFails | srp.go:94-96 | 2^(l-1) has l bits and fails the test, so such moduli exist for every accepted length |
| SrpDisagreement.CompositeModulusDisagrees | srp.go:110-111 | at the odd modulus 129 every range check passes and the sessions are 1 and 4 |
| Password.Append | password.go:26-36 | append writes in place exactly when capacity allows, and otherwise leaves the old array alone |
| Password.ExpandHash | password.go:22-39 | four digests of the unchanged input; with spare capacity the one byte after it ends up 3 and nothing else moves |
| Password.HashPassword | password.go:41-53 | the hash covers bcrypt output then modulus bytes as they stand; the salt's visible bytes survive |
| Password.PasswordHashExact | password.go:22-53 | with 64-byte digests the hash is 256 bytes whose k-th block covers bcrypt's output, the modulus and the byte k; bcrypt gets the salt and "proton"; versions 3 and 4 only |
| Login.RunSrp | srp.go:175-202 | the password is hashed with the modulus before the handshake reverses it; every error in its order |
| Login.LoginErrors | srp.go:175-202 | each failure is reported by the first step that fails, and the handshake runs at 2048 bits |
| Login.HandshakeHashIsExpanded | srp.go:196 | the handshake's hash is four digests of its input, each with its counter |
| Login.LoginAccepted | srp.go:175-202 | for a modulus passing the Fermat test, a server that registered the same password accepts the login and answers with the expected proof |
| ImporterCode.Importer.SendMetadata | import.go:161-174 | the result follows from the schedule of the other threads; on success the stream is the Metadata header and then the metadata, on failure it is aborted |
| ImporterCode.Importer.ImportMessage | import.go:59-75 | unknown and repeated keys are refused without effect; otherwise the flag is set first, the result follows from the schedule, and success puts exactly this key's header on the stream |
| ImporterCode.Importer.Write | import.go:55-75 | a finished part refuses without effect; otherwise the result follows from the schedule, and an accepted write is appended to the stream and to what was acknowledged for this key |
| ImporterCode.Importer.Close | import.go:77-88 | the closed flag decides alone whether ErrImporterClosed is returned |
| ImporterCode.Importer.Commit | import.go:94-110 | the result follows from the state and the schedule; success means a complete stream, its end of file and the worker's results; each failure comes with its cause; a second call is refused |
| ImporterCode.AwaitWriteIs | import.go:59-83 | a pipe write ends at the first moment when the pipe is closed, and fails, or the reader takes it, and succeeds; it blocks only if the schedule has no such moment |
| ImporterCode.WaitReturns | import.go:105-109 | once everything is sent, Commit returns whenever the worker gets to its end |
| ImporterSafety.StepKeepsInv | import.go:46-187 | every step of every thread keeps the stream, flag, outcome and channel invariants |
| ImporterTheorems.CommitMeansComplete | import.go:59-110 | in every interleaving, a nil-error Commit implies the stream is Metadata then exactly one part per key with the bytes acknowledged to the caller, ended, with end of file delivered |
| ImporterTheorems.ChannelProtocol | import.go:105-159 | one value on done, one on result if and only if that value is nil, no send blocks or meets a closed channel, and Commit never reads the zero value of a closed channel |
| ImporterTheorems.CommitReportsRequest | import.go:105-157 | in every run, an error from Commit was returned by building the request or by doJSON in that run, success comes with what doJSON returned without an error, and no Commit succeeds in a run in which either failed |
| ImporterTheorems.ServerErrorIsReported | import.go:105-149 | a run in which doJSON fails after the whole stream was delivered and Commit returns that error |
| ImporterTheorems.OneCommitPasses | import.go:77-97 | every Commit after the first returns ErrImporterClosed whatever the first returned; the key set is always the metadata's |
| ImporterTheorems.FirstCommitVerdict | import.go:77-109 | closing fails only if the reader is gone; otherwise the stream has ended and the outcome is the worker's verdict or a key whose part is not in the stream |
| ImporterTheorems.RunsExtend | import.go:59-103 | over any run flags, the closed bit, a gone reader, the stream and past outcomes are never undone |
| ImporterTheorems.MissingKeyIsReportedAfterSending | import.go:90-103 | the missing-key error comes after the whole request stream was delivered |
| ImporterTheorems.MissingKeyCanBeReported | import.go:90-103 | for every key set and key there is a run that reports it while the request is under way |
| ImporterTheorems.StepsDecreaseRank | import.go:59-159 | between two calls of the caller only finitely many steps can happen |
| ImporterTheorems.CallsReturn | import.go:59-166 | from any reachable state every run that starts no new call has bounded length, and one that cannot go on has returned from the call, unless building the request failed |
| ImporterTheorems.BuildFailureBlocksImport | import.go:127-166 | after a failed request build Import stays in its first write in every later state, with nothing on the stream and nobody at the other end |
| ImporterTheorems.StuckIffBuildFailed | import.go:127-166 | in every run, a call has no enabled step left if and only if building the request failed in that run and the worker has finished |
| ImporterTheorems.StrandedForever | import.go:127-166 | from a stranded Import no step ever follows |
| ImporterTheorems.BuildFailureStrands | import.go:127-131 | a failed request build can strand Import with its error unread on done |
| ImporterTheorems.OneMessageCanBeImported | import.go:59-188 | a successful import of one message is a possible run |
| Request.Client.SetRequestAuthorization | protonmail.go:139-144 | both headers are set from the client, or neither is touched |
| Request.Client.Perform | protonmail.go:198-241 | client, request and outcome after the recursive call equal the trace specification |
| Request.Client.PerformJson | protonmail.go:254-333 | the same for doJSON, with the body closed after classification |
| RequestTheorems.SendsMatchCallbacks | protonmail.go:198-241 | a returned response took exactly one more send than callback runs |
| RequestTheorems.AttemptsCarrySameBody | protonmail.go:185-187 | all attempts carry byte-identical bodies although each send consumes the one it was given |
| RequestTheorems.UnauthorizedOnlyIfNotRetryable | protonmail.go:209-240 | a 401 is returned only without Authorization, without a callback, or with a body that cannot be replayed |
| RequestTheorems.RetriesCarryNewCredentials | protonmail.go:224-237 | the attempt after each callback carries the credentials it left, or the previous headers when it left either string empty |
| RequestTheorems.RetriesUntilAuthorized | protonmail.go:196-241 | k successive 401s with succeeding callbacks give k callbacks, k+1 sends and the first other response, for every k |
| RequestTheorems.OutcomeAfterRetries | protonmail.go:198-241 | how a call ends after any number of retries, by the next reply: transport and callback errors are returned as they are, and any response but a 401 goes to the caller |
| RequestTheorems.OutcomeWithoutRetry | protonmail.go:198-222 | a request that cannot be retried ends with its one send, a 401 included |
| RequestTheorems.ReplayFailureIsReported | protonmail.go:231-237 | an error of GetBody after a successful callback is returned |
| RequestTheorems.CallbacksIff | protonmail.go:196-241 | the callback runs k times or more if and only if the request is retryable, its body replayable from the second time on, the first k replies are 401s and the first k-1 callbacks succeed |
| RequestTheorems.SingleRetryIff | protonmail.go:196-241 | the announced limit of one holds for a call unless a second 401 follows a successful callback on a replayable request |
| RequestTheorems.SingleRetryForAllIff | protonmail.go:196-241 | the limit of one holds for every server and every callback if and only if the request cannot be retried or its body cannot be produced again |
| RequestTheorems.BodiesClosedOnce | protonmail.go:191-241 | every response body is closed exactly once, except the one handed to the caller, which is open |
| RequestTheorems.NoBodyOpenWhileSending | protonmail.go:223-237 | whenever an attempt goes out, every body obtained before it is already closed |
| RequestTheorems.JsonClosesEveryBody | protonmail.go:254-333 | once doJSON returns, every body it obtained is closed exactly once |
| RequestTheorems.ClassifiedErrors | protonmail.go:267-331 | success exactly for a decodable 2xx without an error envelope; which sentinels errors.Is matches on a failure, by status and by surfaced code |
| RequestTheorems.ClassifiedValue | protonmail.go:267-331 | what a classified response carries: its own payload, or the surfaced code and message with the HTTP status of a failed response, or the bare status, or a decoding error |
| RequestTheorems.JsonOutcomeIs | protonmail.go:254-331 | doJSON returns errors of the call unchanged, and decodes exactly the 2xx responses without an error envelope to their own payload |
| RequestTheorems.UnauthorizedSurfaces | protonmail.go:270-307 | a 401 through doJSON always matches ErrUnauthorized, whatever its body |
| Errors.SentinelsMatched | errors.go:57-132 | through any number of %w layers, an APIError matches ErrUnauthorized exactly by code 8002 or 401 and otherwise what its HTTPError matches; an HTTPError matches by status 401, 404 or 429; a bare sentinel, as wrapped for an empty key ring, matches itself |
| Session.BuiltRequestsAreFaithful | protonmail.go:146-189 | requests from newRequest and newJSONRequest replay their own bytes; when a 401 to them can run the callback |
| Session.StreamsAreSentOnce | protonmail.go:209-222 | a pipe body is sent once, with no callback, and its 401 goes to the caller |
| Session.RefreshInsideCallback | auth.go:223-246 | inside the callback AuthRefresh sends one unauthenticated request and never re-enters the callback, for every server trace |
| Session.RefreshReentersIff | auth.go:223-246 | in any other state it runs the callback exactly on a 401 while the client holds credentials and has a callback |
| Session.CredentialsAfter | protonmail.go:223-237 | a finished call leaves the credentials of its last callback, or the old ones if none ran |
| Session.UnlockKeyRing | auth.go:351-375 | the loop collects exactly the entities of the active keys that unlock, in order; only an empty ring is an error |
| Session.UnlockableExact | auth.go:351-375 | membership in that ring, both directions |
| Session.AddressRingExact | auth.go:404-417 | an entity is in the stored ring if and only if some address has an active key that unlocks to it with the user's ring |
| Session.UnlockableConcat | auth.go:351-375 | the ring follows the order of the keys |
| Session.SessionClient.Unlock | auth.go:385-426 | client, stored ring and result equal the specified transition |
| Session.UnlockExact | auth.go:385-426 | a ring is returned and stored exactly when both requests decode, an active user key opens, and an active address key opens with the ring of the user's keys; it then holds exactly what the active address keys open to with that ring; otherwise the failed request's error or one matching ErrNoUnlockableKeys is returned |
| Session.UnlockOutcome | auth.go:385-426 | the ring is stored exactly on success and is never empty; the credentials are replaced even on failure, by the given ones or by those of the last callback of its requests |
| Session.SessionClient.Logout | auth.go:438-452 | client, stored ring and result equal the specified transition |
| Session.LogoutExact | auth.go:431-452 | Logout succeeds exactly on a decodable 2xx response without an error envelope, and then uid, token and ring are gone; otherwise the error of the request or of its response is returned |
| Session.LogoutFailureKeepsSessionIff | auth.go:431-446 | every failed Logout of a client keeps uid, token and ring, whatever the server and the callback do, if and only if it has no callback or lacks a uid or token |
| Session.FailedLogoutLeaves | auth.go:431-446 | a failed Logout keeps the ring and leaves the credentials of the last callback that ran |
| Session.LogoutCanLoseToken | auth.go:431-446 | a failing callback makes a failed Logout lose the token |
| SignedStream.SymmetricallyEncrypt | crypto.go:130-182 | a writer, with the packets before the data on the container, exactly when each of its two or three operations succeeds; the literal can close the container only without a signer |
| SignedStream.PlaintextWriter.Write | crypto.go:196-199 | accepted exactly when the container takes it; an accepted chunk is appended to the literal, and every chunk handed in is hashed |
| SignedStream.LiteralWriter.Close | crypto.go:160-176 | ends the literal, then closes what it wraps: the container, or nothing through noOpCloser |
| SignedStream.PlaintextWriter.Close | crypto.go:201-238 | succeeds exactly when signing and all of its operations do, and then leaves the complete packet stream; the container is closed once, or never, with a signer (whose literal must not close it) and without |
| SignedStream.OutgoingMessageWriter.Close | messages.go:547-557 | succeeds exactly when both closes do; the body is then stored from the finished stream, and otherwise untouched |
| SignedStream.StreamParses | crypto.go:144-225 | the container parses, by the grammar of section 11.3 of RFC 4880, to the literal of the accepted chunks with its signature |
| SignedStream.ChunkingIsInvisible | crypto.go:130-225 | every split of a plaintext into accepted writes gives the same message, signed over that plaintext |
| SignedStream.AcceptedWritesGiveMessage | crypto.go:130-225 | what a successful Close leaves after writes that were all accepted parses to their concatenation, signed over it |
| SignedStream.SignatureVerifiesIff | crypto.go:196-225 | over any log of accepted and refused writes, the stored signature verifies if and only if every refused chunk was empty, unless the two plaintexts share a signature |
| Packages.MessagePackageSet.Encrypt | messages.go:563-604 | which fields change on success and on each failure |
| Packages.MessagePackageSet.AddCleartext | messages.go:623-647 | the new package, the mask, and the packed keys the first time only |
| Packages.MessagePackageSet.AddInternal | messages.go:666-697 | the sealed package on success; a failure changes nothing |
| Packages.MessagePackageSet.AddRecipient | messages.go:666-697 | succeeds exactly when the entity has an encryption key to which the body key and every attachment key can be sealed; that key is the one encryptionKey chooses, and the package is stored and returned; otherwise nothing changes |
| PackagesTheorems.PackagesOpen | messages.go:649-697 | with any number of Encrypt calls, the package of a recipient last added by AddInternal opens with the key passed in that call to the body key then in force and to every attachment key |
| PackagesTheorems.OneKeyForAll | messages.go:623-697 | packed keys exist if and only if some AddCleartext ran; when one Encrypt got a key they are the keys, over the same attachments, that every internal recipient's package opens to with the key passed for that recipient |
| PackagesTheorems.BodyKeyIsCurrentIff | messages.go:563-647 | with any number of Encrypt calls, BodyKey is the key in force at the first AddCleartext, so it is current if and only if the calls have not changed the key since |
| PackagesTheorems.SecondEncryptLeavesStaleKey | messages.go:563-647 | a second Encrypt leaves BodyKey describing the first key |
| PackagesTheorems.CallsSucceedIff | messages.go:563-697 | in any run, which calls succeed: Encrypt with a key and without an unusable signer, AddCleartext always, AddInternal exactly when the key in force and every attachment key can be sealed to the recipient |
| PackagesTheorems.MimeTypeIsLast | messages.go:563-564 | the set carries the MIME type of its last Encrypt, even of one that failed |
| PackagesTheorems.PackedAlgorithms | messages.go:606-644 | BodyKey always names aes256, and each attachment key its own cipher |
| PackagesTheorems.TypeMask | messages.go:499-502 | Type has bit 1 exactly after a successful internal add, bit 4 exactly after a cleartext one, and no other; it is the OR of the current packages if and only if each kind added is that of some address's last successful add |
| PackagesTheorems.TypeMaskIsCurrent | messages.go:499-502 | that holds whenever no address is successfully added as two kinds |
| PackagesTheorems.TypeCanBeStale | messages.go:499-502 | an address added in the clear and then sealed leaves both bits in Type |
| PackagesTheorems.PackagesExact | messages.go:574-697 | Addresses holds the last successful add for each address, marked signed if and only if some Encrypt before that add had a usable signer, even after an unsigned one; a cleartext package carries no keys |
| KeyChoice.PrimaryIdentity | crypto.go:15-26 | the first identity marked primary in iteration order, or the first one when none is marked |
| KeyChoice.PrimaryIdentityStable | crypto.go:15-26 | with one identity marked primary the choice is the same for every map order |
| KeyChoice.EncryptionKey | crypto.go:54-86 | the two loops return the specified choice |
| KeyChoice.EncryptionKeyExact | crypto.go:54-86 | a subkey is chosen exactly when one is valid for encryption, able and unexpired, and it is the first newest one if and only if no newest key has the zero time and an eligible successor; otherwise the primary key, unless its identity's flags rule it out |
| KeyChoice.ZeroTimeCanHarm | crypto.go:58-68 | two eligible subkeys with the zero creation time: the first is the newest-first choice, and the condition fails |
| KeyChoice.PositiveTimesAreHarmless | crypto.go:58-68 | creation times after the zero time satisfy that condition |
| KeyChoice.SigningKey | crypto.go:90-116 | the first eligible subkey, else the primary key if it may sign, else failure |
| Labels.BuildLabelsSet | events.go:90-96 | exactly the slice's elements, nil included |
| Labels.DiffLabelIDs | events.go:103-124 | the pair verbatim, or duplicate-free differences for any iteration order, or nil and nil |
| Labels.Patch | events.go:129-162 | the new label set and every scalar field; no other message's labels change even when a slice is shared |
| Labels.UpdateMeans | events.go:98-162 | label by label, what each kind of update does: Patch prefers the full list and DiffLabelIDs the pair, and half a pair counts for nothing |
| Labels.DiffDescribesPatch | events.go:98-162 | applying the reported delta gives Patch's result if and only if the three slices are not all present, or agree |
| Labels.AlwaysDescribesIff | events.go:98-162 | that holds for every message if and only if the three slices are not all present |
| Labels.ThreeSlicesCanDisagree | events.go:103-162 | three contradictory slices make the two operations differ |
| Labels.FullListDeltaIsMinimal | events.go:111-123 | whenever a full list is given without a complete pair, its delta is disjoint and contained in every delta with Patch's effect |
| Labels.RunsCollapse | events.go:129-162 | any run of updates equals a last full list, if any, followed by one composed delta |

## Left out

- HTTP transport, redirects, JSON, multipart syntax, URL building and logging: they appear as arbitrary traces and abstract codecs.
- OpenPGP packets, bcrypt, SHA-512 and base64 internals: functions with only the laws needed (unsealing undoes sealing, decoding undoes encoding).
- decodeModulus and its signature check: one fallible function.
- Primality of the SRP modulus: the agreement theorems ask only for the Fermat test for base 2, which the source does not check either. Modulus lengths not divisible by 8 are outside the model because Go would panic or truncate there.
- Srp.GenerateProofs: the three input buffers are distinct; aliased buffers, which no caller passes, are not modelled.
- Srp.RandomSource.Int: the library's rejection sampling is one reduction of an arbitrary draw, so every value below the maximum can occur.
- ImporterCode.Importer.AwaitReader: a write the reader takes only in part before closing leaves no trace in the modelled stream.
- One caller: an Importer is used from one goroutine at a time, as the map without a lock requires.
- Request.Client.RunReauth: the callback is its effect on the credentials and its error; requests a callback sends on the same client are not part of the outer call's log. AuthRefresh inside the callback is treated separately.
- Request.Client.RoundTrip: a send consumes the whole remaining body.
- SignedStream.Container.Put: a failed low-level write puts nothing on the container; partial writes, buffering and partial body lengths are not modelled. An operation may succeed after an earlier one failed, whereas the base64 encoder underneath keeps failing; results about failed writes therefore cover more runs than can happen.
- Packages: package values are not aliased with the pointers Go returns, and failures of the encryption container inside Encrypt are part of SignedStream only.
- List, get and create wrappers of the other files, ListMessages, EventMessage.UnmarshalJSON, ImportResult.Err, options and timestamps: one request or one branch each.
- Timing, constant-time comparison, log redaction and cryptographic strength.
