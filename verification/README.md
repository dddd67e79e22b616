# Issuer verification model

This project models the logic of the Rust credential issuer and proves properties of it in Dafny. It covers four linked parts.

- **The hybrid envelope codec.** `Prelude.dfy`, `Cbor.dfy`, `HybridCodec.dfy` and `HybridEnvelope.dfy` hold a CBOR layer (definite-length heads of section 3 of RFC 8949, shortest heads of section 4.2.1), the length-prefixed bytes that both signatures cover, the credential wrapper and the two component containers. Encoders that grow a buffer and decoders that loop over keys are methods, each proved against a function; the theorems are about those functions.
- **The issuance service as a state machine.** `Service.dfy` has the shared state as a class whose methods are the lock regions of the handlers. `ServiceRuns.dfy` lets any number of requests interleave: each lock region is one step, and a request that lets go of the lock leaves a held value behind for its next region. `IssuanceRuns.dfy`, `IssuanceReach.dfy`, `ReplayRuns.dfy`, `TlsnRuns.dfy`, `CaptureRuns.dfy`, `EvidenceRuns.dfy` and `CauseRuns.dfy` prove properties of all runs. The build modelled is the macOS one, since that is the one that issues. `SdJwt.dfy` and `PidBinding.dfy` model the SD-JWT that is issued and the check of a presented PID, and `PresentedPid.dfy` says what an acceptable presentation is without the check's own functions.
- **The decision kernel and its adapter.** `IssuerCore.dfy` and `Adapter.dfy`.
- **Key generations and replay counters.** `HybridSigner.dfy` and `HybridRuns.dfy` for the hybrid signing identity across restarts and stale objects; `AppAttest.dfy` for App Attest instances across restarts and failed writes.

## Assumptions

Cryptography and library code enter as function-valued parameters, with what is assumed of them in a named predicate of each lemma that needs it:
`HybridSigner.Sound` (decryption undoes encryption, digests have 32 bytes), `HybridSigner.SchemesCorrect` (what is signed verifies), `HybridEnvelope.Unforged` (the two signatures presented verify for the bytes presented only if their holders signed those bytes, raw messages included), `SdJwt.Base64Faithful`, `SdJwt.JsonFaithful` (down to the depth of nesting that is issued, floats excepted), `SdJwt.SignerFaithful`, `AppAttest.ReadsBack`, and for one converse `PidBinding.SignedByIssuance` (the presented credential's signature verifies only if its text was signed for an issuance) and `PidBinding.NoCollision`, the only place where digests are assumed not to collide, and only on the disclosures presented. Random identifiers are assumed never to repeat within a run (`ServiceRuns.Legal`, `AppAttestRuns.Legal`); the issuance chain does not even need that. The clock, the verdict of the liveness provider, signature checks on requests and the success of signing and of file writes are arbitrary inputs of the steps. Text lengths are lengths in UTF-8.

## What turned out

- A failed capture session is documented as terminal (`rust/issuer-service/src/capture.rs:29`). It is not when two submissions were in flight. `CaptureRuns.ResolvedChangesExactly` says when a resolved session can still change: exactly if some submission for it is in flight and a reader is trusted, and, for a failed session, that submission has a liveness token to be vouched for and its clock has not run out. `CaptureRuns.InFlightDecides` says what each end of a submission makes of it. There are runs for all three changes: failed and then issued (`CaptureRuns.FailedThenIssued`), issued and then failed with its credentials kept (`CaptureRuns.IssuedThenFailed`), and issued again with other credentials (`CaptureRuns.IssuedThenReissued`).
- Generations stop naming one key pair at the largest `u64`, where the addition saturates, and nowhere else: over all histories different keys share a generation exactly there (`HybridRuns.GenerationSharedExactly`). A stale signer is silent even there.
- The post-quantum key of the envelopes also signs mdocs, as raw bytes. The signature domain keeps the two apart: no mdoc's signed bytes are an envelope's (`HybridTbs.SigStructureIsNoTbs`), so in every history what verifies as an envelope was signed as one (`HybridRuns.VerifiedInHistory`). The raw operation itself signs anything; an envelope's own bytes, signed raw, would be the one exception that `HybridEnvelope.VerifiedIsSigned` leaves.
- The Svipe PID configuration is accepted in scopes and by the kernel but has no encoder in the credential handler. `IssuanceReach.NonceUsedInVain` has a run in which it is granted and its nonce used up, with nothing issued under that nonce ever after. It is the only such configuration: `IssuanceReach.GrantedExactly` and `IssuanceReach.IssuedExactly` say what can be granted and what can be issued, and `IssuanceRuns.OnlySvipeLacksEncoder` compares them.
- A failed write of App Attest state is only logged by the service, so an accepted assertion can be accepted again after a restart; `AppAttestRuns.AcceptedTwice` is a run in which it is. `AppAttestRuns.ReplayAfterRestart` says exactly when that can still happen: as long as the key is not registered anew, if and only if the file holds for the key an instance that the assertion verifies against, with a lower counter. Every write stores the whole table, so one that succeeds before a restart, for whichever key, ends it for good (`AppAttestRuns.WrittenIsFinal`).
- The kernel reads no dates of key attestation evidence, only that it is there; `Kernel.DatedEvidence` lists the evidence whose dates count.
- The signatures of a wrapper cover its purpose, context, payload and disclosures, and not its key identifiers nor the generation it states (`HybridEnvelope.CoveredPartsExactly`). The verifier compares those with what it expects (`HybridEnvelope.VerifiesExactly`), so a wrapper given other legal key identifiers is refused by whoever expects the old ones and verifies with the same signatures for whoever expects the new ones (`HybridEnvelope.RelabelledVerifies`).

## Model

| member | source | states |
|---|---|---|
| Utf8.AsciiIsValid | rust/issuer-service/src/hybrid_codec.rs:634-639 | the ASCII texts the format writes are well-formed UTF-8, which is what a CBOR text item must be |
| Utf8.ValidExactly | rust/issuer-service/src/hybrid_codec.rs:634-639 | bytes are well formed exactly if they encode a text, whose length in bytes is theirs |
| Cbor.HeadIsShortest | rust/issuer-service/src/hybrid_codec.rs:423-434 | the head written for an argument is the shortest that reads as it, and the only one that short |
| Cbor.ParseInvertsEnc | rust/issuer-service/src/hybrid_codec.rs:423-434 | parsing an encoding followed by any bytes gives back the value and leaves exactly those bytes |
| Cbor.EncIsPrefixFree | rust/issuer-service/src/hybrid_codec.rs:423-434 | no encoding is a proper prefix of another, and different values have different encodings |
| Cbor.ReadStrictExact | rust/issuer-service/src/hybrid_codec.rs:423-434 | parse, require the end, encode again and compare accepts exactly the encodings, each as one value |
| Cbor.ReadStrictRefusals | rust/issuer-service/src/hybrid_codec.rs:423-434 | everything that is no encoding is refused, as malformed exactly if it does not parse |
| HybridTypes.PurposeTextRoundTrip | rust/issuer-service/src/hybrid_codec.rs:38-63 | the parser of purpose identifiers accepts a text as a purpose exactly if it is that purpose's identifier |
| HybridTbs.ByteBuffer.AppendComponent | rust/issuer-service/src/hybrid_codec.rs:553-558 | appends a four-byte length and the component, or refuses one too long and appends nothing |
| HybridTbs.ByteBuffer.EncodeContextField | rust/issuer-service/src/hybrid_codec.rs:560-567 | appends the tag and the value as a component, an absent value like an empty one |
| HybridTbs.EncodeFor | rust/issuer-service/src/hybrid_codec.rs:138-166 | the ten appended fields are the specified context encoding, with the same refusals |
| HybridTypes.ContextsAcceptedExactly | rust/issuer-service/src/hybrid_codec.rs:168-209 | which contexts each purpose accepts, and for which failing the refusal is a generation mismatch, a missing or an unsupported field |
| HybridTbs.ContextLayout | rust/issuer-service/src/hybrid_codec.rs:138-166 | which field stands under which of the ten tags |
| HybridTbs.ContextEncodingInjective | rust/issuer-service/src/hybrid_codec.rs:138-210 | equal context encodings mean equal contexts, absent and present options told apart, whatever the purposes |
| HybridTbs.BuildTbs | rust/issuer-service/src/hybrid_codec.rs:217-240 | builds the specified bytes to be signed and never reports a length overflow |
| HybridTbs.BuiltTbsInjective | rust/issuer-service/src/hybrid_codec.rs:217-240 | equal bytes to be signed mean equal purpose, context and payload |
| HybridTbs.CommittedPayloadInjective | rust/issuer-service/src/hybrid_codec.rs:600-621 | the committed payload fixes the payload and the ordered disclosures |
| HybridTbs.TbsInjective | rust/issuer-service/src/hybrid_codec.rs:212-240 | two envelopes with equal bytes to be signed agree on purpose, every context field, payload and ordered disclosures |
| HybridTbs.SignableExactly | rust/issuer-service/src/hybrid_codec.rs:212-240 | an envelope can be signed exactly if payload and disclosures commit to at most 4096 bytes and the context is one its purpose accepts |
| HybridTbs.TbsStartsWithDomain | rust/issuer-service/src/hybrid_codec.rs:217-240 | whatever is signed for an envelope starts with the signature domain |
| HybridTbs.SigStructureIsNoTbs | rust/issuer-service/src/main.rs:4002-4008 | the bytes an mdoc has signed are never those of an envelope |
| HybridEnvelope.ByteArrayExact | rust/issuer-service/src/hybrid_codec.rs:648-660 | reading a list of byte strings back from CBOR succeeds exactly on lists that were written |
| HybridEnvelope.ReadDistinct | rust/issuer-service/src/hybrid_codec.rs:438-452 | the loop with a set of keys seen so far reads what its specification reads |
| HybridEnvelope.ReadPositional | rust/issuer-service/src/hybrid_codec.rs:536-550 | the loop that expects key i + 1 at place i reads what its specification reads |
| HybridEnvelope.BothReadingsAgree | rust/issuer-service/src/hybrid_codec.rs:438-452 | the seen-set loop with its order check and the positional loop accept the same key sequences, 1 to n in order, and read the same fields |
| HybridEnvelope.Encode | rust/issuer-service/src/hybrid_codec.rs:334-388 | the encoder as it runs computes the specified wrapper or refusal |
| HybridEnvelope.Decode | rust/issuer-service/src/hybrid_codec.rs:415-500 | the decoder as it runs computes the specified result |
| HybridEnvelope.EncodedExact | rust/issuer-service/src/hybrid_codec.rs:334-388 | encoding succeeds exactly on legal parts that fit the size limit |
| HybridEnvelope.WrapperCodecExact | rust/issuer-service/src/hybrid_codec.rs:334-500 | decoding for a purpose and context gives an envelope exactly if encoding that envelope gives those bytes, so each wrapper has one accepted spelling |
| HybridEnvelope.WrapperLayout | rust/issuer-service/src/hybrid_codec.rs:365-388 | which part stands under which of the eleven keys |
| HybridEnvelope.DecodeComponent | rust/issuer-service/src/hybrid_codec.rs:512-551 | the container decoder as it runs computes the specified fields or refusal |
| HybridEnvelope.ComponentExact | rust/issuer-service/src/hybrid_codec.rs:502-551 | container encoding and decoding are inverse for any values |
| HybridEnvelope.PublicKeyCodecExact | rust/issuer-service/src/hybrid_codec.rs:243-287 | public-key containers decode to a key pair exactly if that pair encodes to them |
| HybridEnvelope.SignatureCodecExact | rust/issuer-service/src/hybrid_codec.rs:289-332 | signature containers decode to signatures for a purpose exactly if those encode to them for it |
| HybridEnvelope.ContainersDisjoint | rust/issuer-service/src/hybrid_codec.rs:243-332 | no byte string is accepted by two of the three decoders |
| HybridEnvelope.SignableFitsWrapper | rust/issuer-service/src/hybrid_codec.rs:334-388 | what can be signed, with nonempty parts, legal key identifiers, nonzero generation and signatures of the right length, never exceeds the wrapper size |
| HybridEnvelope.ComponentsFit | rust/issuer-service/src/hybrid_codec.rs:502-510 | component encoders refuse only for illegal lengths, never for size |
| HybridEnvelope.VerifiesExactly | rust/issuer-service/src/hybrid_codec.rs:390-413 | bytes verify exactly if they encode an envelope of the expected purpose, context, key identifiers and one generation throughout under two signatures that verify over it |
| HybridEnvelope.EncodedVerifiesExactly | rust/issuer-service/src/hybrid_codec.rs:390-413 | for an encoded envelope, which of the comparisons and signatures a refusal names |
| HybridEnvelope.VerifiedIsSigned | rust/issuer-service/src/hybrid_codec.rs:390-413 | if the two presented signatures were not forged, what verifies is what the verifier expects, key identifiers included, and carries purpose, context, payload and disclosures that both keys signed, unless its very bytes were signed raw under the post-quantum key |
| HybridEnvelope.CoveredPartsExactly | rust/issuer-service/src/hybrid_codec.rs:212-240 | a signable envelope and any other have the same bytes to be signed exactly if they agree on purpose, context, payload and ordered disclosures, whatever their key identifiers and stated generations |
| HybridEnvelope.RelabelledVerifies | rust/issuer-service/src/hybrid_codec.rs:390-413 | a wrapper that verifies, with other legal key identifiers put in, verifies with the same signatures for whoever expects those and is refused by whoever expects the old ones |
| HybridSigner.StoredKeyReadsBack | rust/issuer-service/src/hybrid_signer.rs:215-297 | a stored key record reads back exactly |
| HybridSigner.LoadedExactly | rust/issuer-service/src/hybrid_signer.rs:259-297 | a record loads as a key exactly if it is that key's header under a nonce and its rest opens to the key's secret under that nonce and a wrapping key of 32 bytes; and when the wrapping key is what is blamed |
| HybridSigner.LoadedHeader | rust/issuer-service/src/hybrid_signer.rs:259-297 | what a record loads as fixes the record's clear part, byte for byte |
| HybridSigner.KeyFile.PersistKey | rust/issuer-service/src/hybrid_signer.rs:215-257 | grows the record in a buffer and replaces the file by it, or leaves the file |
| HybridSigner.KeyFile.FindOrCreate | rust/issuer-service/src/hybrid_signer.rs:56-104 | returns the signer of the current record, or writes its successor for a changed classical key |
| HybridSigner.UnreadableStops | rust/issuer-service/src/hybrid_signer.rs:56-104 | a record that cannot be read stops a start with its error |
| HybridSigner.IdentityExactly | rust/issuer-service/src/hybrid_signer.rs:56-104 | on no record or a readable one, exactly when a start succeeds, the signer it returns, named by the identifier of its key, and that the file then reads back as that key |
| HybridSigner.SignedEnvelopeExactly | rust/issuer-service/src/hybrid_signer.rs:126-173 | an envelope is emitted exactly if it is for the signer's identifiers and generation, can be signed and wrapped, the record holds the signer's key and both keys sign |
| HybridSigner.SignedEnvelopeVerifies | rust/issuer-service/src/hybrid_signer.rs:126-154 | what the signer emits verifies for that signer exactly if the signed context names its generation |
| HybridRuns.GenerationsNameKeys | rust/issuer-service/src/hybrid_signer.rs:56-104 | over all histories generations never fall, and rise with every key written below the largest |
| HybridRuns.SignersOfOneGeneration | rust/issuer-service/src/hybrid_signer.rs:56-104 | two signer objects of one generation below the largest have the same key, however far apart they were made |
| HybridRuns.ChangeRaisesGeneration | rust/issuer-service/src/hybrid_signer.rs:56-104 | in every history a successful start on a record of another classical key returns the new key, under a higher generation exactly if there is one; on its own key it returns the record's |
| HybridRuns.SaturatedGenerationIsShared | rust/issuer-service/src/hybrid_signer.rs:64-92 | some history of starts has two signer objects of the largest generation with different keys |
| HybridRuns.GenerationSharedExactly | rust/issuer-service/src/hybrid_signer.rs:56-104 | different keys share a generation in some history exactly if it is the largest |
| HybridRuns.EmissionsMatchSigners | rust/issuer-service/src/hybrid_signer.rs:161-173 | every signature emitted in any history was made with the emitting object's own key and generation |
| HybridRuns.StaleSignerIsSilent | rust/issuer-service/src/hybrid_signer.rs:161-173 | an object signs exactly if the record still holds the key it was made from |
| HybridRuns.EmitsExactly | rust/issuer-service/src/hybrid_signer.rs:126-173 | in every history an object emits an envelope exactly if the envelope is for it, the last key written is its own and both keys sign |
| HybridRuns.EmittedEnvelopesVerify | rust/issuer-service/src/hybrid_signer.rs:126-154 | in every history an emitted envelope verifies for its signer exactly if its context names the signer's generation |
| HybridRuns.ReleasedIsRecorded | rust/issuer-service/src/hybrid_signer.rs:126-154 | an envelope that is released carries one recorded signature of each key, both over it |
| HybridRuns.VerifiedInHistory | rust/issuer-service/src/hybrid_signer.rs:126-173 | in every history in which raw messages are those of mdocs, what verifies is what was expected, was endorsed by the classical key and signed as an envelope by the post-quantum one |
| Bits.SubsetByBits | rust/issuer-core/src/lib.rs:49-51 | the bitmask subset test holds exactly if every bit of one is a bit of the other |
| Powers.ComputeMask | rust/issuer-core/src/lib.rs:79-87 | the loop computes the mask of the taxonomy's bits |
| Powers.MaskBit | rust/issuer-core/src/lib.rs:79-87 | a bit is in the mask exactly if the taxonomy names it |
| Powers.PinnedMask | rust/issuer-core/src/lib.rs:68-87 | the pinned taxonomy covers the six lowest bits |
| Powers.UrnsNamePowers | rust/issuer-core/src/lib.rs:92-98 | the serialised names are exactly those of the named bits held |
| Powers.WireNarrowingIsNarrowing | rust/issuer-core/src/lib.rs:89-106 | for all pairs of bitmasks and any taxonomy whose names stand for one bit each, the names of one are among the other's exactly if its named bits are |
| Kernel.CommonWindowTight | rust/issuer-core/src/lib.rs:147-152 | the bounds of the window are the latest start and the earliest end among the evidence, each reached |
| Kernel.MayIssueExactly | rust/issuer-core/src/lib.rs:313-405 | the gate is open exactly if request and session match, are in order and meet the profile, and all evidence whose dates count is accepted and usable |
| Kernel.MayIssueExactlyInWindow | rust/issuer-core/src/lib.rs:313-405 | the gate is open exactly inside one computed window of time, empty if any timeless condition fails |
| Kernel.MayIssueIsConvex | rust/issuer-core/src/lib.rs:364-405 | between two instants at which a session may issue it may issue throughout |
| Kernel.CommandExactly | rust/issuer-core/src/lib.rs:408-430 | a command is for the session's own profile, subject and key, and on behalf of the delegator exactly for mandates, with the requested powers, nonempty and among the delegator's |
| Kernel.MandateStaysWithinGrant | rust/issuer-core/src/lib.rs:408-430 | every mandate the gate permits serialises to names within the delegator's grant |
| Adapter.KernelIsTold | rust/issuer-service/src/main.rs:3413-3516 | what the kernel is asked about: the format, assurance earned only by a proven chip read, a delegation and powers only for mandates, and evidence usable for a minute |
| Adapter.AuthorizeKernelExact | rust/issuer-service/src/main.rs:3360-3535 | the adapter accepts exactly if the profile is known, the clock has not run out, PID-bound and mandate profiles have a PID subject and chip-read profiles have evidence with all three verdicts; it returns a grant exactly for mandates, on behalf of the presented PID's subject, or of the chip's if a chip was read |
| Adapter.AuthorizeKernelRefusals | rust/issuer-service/src/main.rs:3360-3535 | which refusal is given, exactly: unknown profile, missing PID subject, missing chip evidence, or the kernel's own if the clock has run out or a verdict is negative |
| Adapter.ChipFormatsAgree | rust/issuer-service/src/main.rs:3360-3535 | the two chip-read formats are accepted or refused together |
| Adapter.GrantedMandateNarrows | rust/issuer-service/src/main.rs:3335-3349 | a granted mandate names powers, all within the delegator's grant, as bits and on the wire |
| Scopes.WordsExactly | rust/issuer-service/src/main.rs:2532-2534 | a scope's words are what stands between its spaces, in order, without the empty ones |
| Service.CheckScope | rust/issuer-service/src/main.rs:2520-2540 | the loop accepts a scope exactly if it has a word and all its words are allowed |
| Service.VolatileState.FindOffer | rust/issuer-service/src/main.rs:1123-1134 | finds an offer with the issuer state, or none exists |
| Service.VolatileState.ParLookup | rust/issuer-service/src/main.rs:1102-1144 | the first region of a pushed request answers as specified |
| Service.VolatileState.ParInsert | rust/issuer-service/src/main.rs:1145-1156 | the second region stores the request under a new identifier |
| Service.VolatileState.InsertOffer | rust/issuer-service/src/main.rs:1167-1201 | an offer without evidence is stored only for an allowed configuration other than the TLSNotary one |
| Service.VolatileState.BuildTlsnOffer | rust/issuer-service/src/main.rs:1229-1257 | a session is reserved and its offer stored together, or refused together |
| Service.VolatileState.RemovePushed | rust/issuer-service/src/main.rs:2057-2082 | the first region of authorization removes the request even if the client does not match |
| Service.VolatileState.InsertCode | rust/issuer-service/src/main.rs:2083-2094 | the second region stores an unconsumed code with the request's data |
| Service.VolatileState.Redeem | rust/issuer-service/src/main.rs:2127-2172 | a redemption uses its DPoP proof up, then consumes the code and stores one token, or refuses |
| Service.VolatileState.InsertNonce | rust/issuer-service/src/main.rs:2174-2178 | stores an unused nonce |
| Service.VolatileState.Grant | rust/issuer-service/src/main.rs:2284-2387 | evidence is used up before the kernel decides, and the nonce only after it agrees |
| Service.VolatileState.GrantCredential | rust/issuer-service/src/main.rs:2201-2387 | the region of a credential request as a whole |
| Service.VolatileState.InsertCapture | rust/issuer-service/src/main.rs:1429-1443 | stores a waiting session for its key |
| Service.VolatileState.SnapshotCapture | rust/issuer-service/src/main.rs:1555-1585 | the first region of a submission lets only a waiting, unexpired session through |
| Service.VolatileState.Decide | rust/issuer-service/src/main.rs:1640-1712 | with the attestation used up: the kernel and the signer in each format, then the session failed, issued or left |
| Service.VolatileState.Resolve | rust/issuer-service/src/main.rs:1587-1712 | the second region of a submission joins the two liveness verdicts, uses the attestation up and decides |
| ServiceRuns.CredentialRegion | rust/issuer-service/src/main.rs:2201-2387 | what a credential request can append and change, and that a grant rests on a live token of the holder's key covering the configuration and on an unused nonce |
| ServiceRuns.RedeemRegion | rust/issuer-service/src/main.rs:2127-2172 | what a redemption can append and change, and what an accepted one has checked |
| ServiceRuns.SubmissionRegion | rust/issuer-service/src/main.rs:1630-1712 | a submission changes only the ledger of attestations and its session, and uses an attestation up before it mints |
| IssuanceRuns.RunBacked | rust/issuer-service/src/main.rs:1102-2387 | in every interleaved run all tables and held requests are backed by history, and each event by the earlier events it needs |
| IssuanceRuns.IssuanceHasChain | rust/issuer-service/src/main.rs:2057-2387 | behind each issuance there are, in this order, a pushed request for an allowed scope, its code, its redemption by the same client and redirect with a verifier of the pushed challenge for a token of the holder's key covering the configuration, and a grant on that token and an issued nonce |
| IssuanceRuns.GrantedIsAllowed | rust/issuer-service/src/main.rs:2201-2387 | only allowed words are granted, the chip-read PID only with a trusted reader |
| IssuanceRuns.HeldGrantIssues | rust/issuer-service/src/main.rs:2389-2518 | a held grant is issued exactly if its configuration has an encoder and signing works |
| IssuanceRuns.OnlySvipeLacksEncoder | rust/issuer-service/src/main.rs:2389-2540 | of the configurations that can be granted the Svipe PID alone has no encoder |
| IssuanceRuns.IssuedIsAllowed | rust/issuer-service/src/main.rs:2389-2540 | only grantable configurations with an encoder are issued, so never the chip-read mdoc, the Svipe PID or an unlisted name |
| IssuanceReach.IssuableIsIssued | rust/issuer-service/src/main.rs:1102-2540 | for each issuable configuration a legal run that issues it |
| IssuanceReach.GrantedExactly | rust/issuer-service/src/main.rs:1102-2540 | a configuration is granted in some run exactly if it is a word that scopes allow and, if read from a chip, a reader is trusted |
| IssuanceReach.IssuedExactly | rust/issuer-service/src/main.rs:2389-2540 | a configuration is issued in some run exactly if it can be granted and has an encoder |
| IssuanceReach.NonceUsedInVain | rust/issuer-service/src/main.rs:2383-2387 | a run that grants the Svipe PID and uses its nonce up, after which nothing is ever issued under that nonce |
| ReplayRuns.SingleUse | rust/issuer-service/src/main.rs:2061-2387 | in every legal run a request_uri gives at most one code, a code at most one token, a nonce at most one grant and one credential, a DPoP proof is accepted once over both endpoints and an attestation once over its three uses |
| ReplayRuns.RunGuarded | rust/issuer-service/src/main.rs:2061-2387 | tables, held requests and ledgers rule out any repetition of what the history holds |
| ReplayRuns.LedgersOnlyGrow | rust/issuer-service/src/main.rs:2129-2386 | between any two moments ledgers only grow, codes only become consumed, nonces only used, tokens stay |
| TlsnRuns.RunProvenance | rust/issuer-service/src/main.rs:1120-1257 | offers carry evidence exactly if they are for the TLSNotary profile, reserved sessions are exactly theirs and all different, and evidence on a request, code, token or held request is some offer's, under a scope naming that profile |
| TlsnRuns.ScanHasOneAnswer | rust/issuer-service/src/main.rs:1123-1134 | a scan of the offers for an issuer state has one answer, in whatever order the table is walked |
| TlsnRuns.TlsnCredentialHasEvidence | rust/issuer-service/src/main.rs:2265-2275 | each TLSNotary credential rests on evidence of a reserved session that an offer carries |
| EvidenceRuns.RunRested | rust/issuer-service/src/main.rs:1630-2387 | in every run each grant on a chip read or a presented PID, and each minting of a capture, comes right after the use of that very evidence |
| EvidenceRuns.IssuedOnEvidence | rust/issuer-service/src/main.rs:2284-2387 | in every run each issuance has an earlier grant that carries the evidence its configuration needs and no other: a read proven in all three verdicts with a trusted reader for the chip-read PID, a binding for PID-bound and mandate ones, and for mandates a mandate on behalf of that binding's subject |
| EvidenceRuns.EvidenceIsOwn | rust/issuer-service/src/main.rs:1630-2387 | in every legal run no two grants or mintings, in whatever handler, rest on one attestation or binding |
| CauseRuns.RunCaused | rust/issuer-service/src/main.rs:1102-2387 | in every legal run each offer, pushed request, token, grant, session and minting comes of a step that met all the service's conditions in the state before it, expiry, PKCE method, grant type and scope included |
| CauseRuns.TlsnOfferExactly | rust/issuer-service/src/main.rs:3179-3259 | an offer on evidence is made exactly for a well-formed, signed and recent artifact with an identifier of 1 to 256 bytes and an unreserved session |
| CauseRuns.CreateOfferExactly | rust/issuer-service/src/main.rs:1167-1201 | an offer without evidence is made exactly for allowed words without a space, other than the TLSNotary configuration |
| CauseRuns.ParExactly | rust/issuer-service/src/main.rs:1102-1144 | the first region of a pushed request passes exactly for a code request with S256, an allowed scope and, if it names an offer, one known, not expired and in the scope |
| CauseRuns.RedeemExactly | rust/issuer-service/src/main.rs:2101-2172 | a code is redeemed exactly with the right grant type, an unused proof, and client, redirect and verifier as it was made for, once |
| CauseRuns.CredentialExactly | rust/issuer-service/src/main.rs:2201-2387 | a credential is granted exactly if the token, scope, proof, nonce and evidence fit the configuration |
| CauseRuns.AccessRefusals | rust/issuer-service/src/main.rs:2215-2283 | which refusal a credential request gets before its evidence is looked at: for the token and its key, for the proof and nonce, or for scope and missing notary evidence |
| CauseRuns.IssueExactly | rust/issuer-service/src/main.rs:2389-2518 | the end of a held request issues exactly for a configuration with an encoder and a working signer, and which error it answers otherwise |
| CauseRuns.SubmissionExactly | rust/issuer-service/src/main.rs:1555-1585 | a submission begins exactly on a known, waiting and unexpired session |
| CauseRuns.EvidenceNotarised | rust/issuer-service/src/main.rs:1206-1257 | in every legal run the evidence on an offer, request, code or token is of an artifact that was signed, well formed and recent when it was offered |
| CauseRuns.TlsnCredentialNotarised | rust/issuer-service/src/main.rs:2265-2275 | each TLSNotary credential issued rests on such an artifact |
| CauseRuns.MandateOnBehalf | rust/issuer-service/src/main.rs:2284-2387 | each mandate issued is on behalf of the subject of the PID its request presented, whose binding was used up right before the grant |
| CaptureRuns.SubmissionCases | rust/issuer-service/src/main.rs:1587-1712 | what a submission does to the sessions in all cases; the second kernel check never refuses after the first passed |
| CaptureRuns.RunCapturesSound | rust/issuer-service/src/main.rs:1429-1712 | in every interleaving a session has both formats or neither, is issued only with both, and has them bound to its own key on a fully proven read, both liveness verdicts and an attestation of its own; a held submission's session always exists |
| CaptureRuns.SessionsOnlyAdvance | rust/issuer-service/src/main.rs:1555-1712 | a session keeps its key and never returns to waiting |
| CaptureRuns.ResolvedIsFinal | rust/issuer-service/src/main.rs:1573-1579 | a resolved session that no submission in flight can turn never changes again |
| CaptureRuns.ResolvedChangesExactly | rust/issuer-service/src/main.rs:1555-1712 | after any run a resolved session changes in some continuation exactly if a submission in flight can turn it: with a trusted reader and, for a failed session, a liveness token, the provider configured and the clock not run out |
| CaptureRuns.InFlightDecides | rust/issuer-service/src/main.rs:1630-1712 | what the end of a submission in flight makes of its resolved session, and exactly when that is a change: an issued session fails or is issued again with other credentials, a failed one is issued |
| CaptureRuns.FailedThenIssued | rust/issuer-service/src/capture.rs:23-31 | a run in which a failed session is issued afterwards, although failed is documented as terminal |
| CaptureRuns.IssuedThenFailed | rust/issuer-service/src/main.rs:1640-1653 | a run in which an issued session fails afterwards and keeps its credentials |
| CaptureRuns.IssuedThenReissued | rust/issuer-service/src/main.rs:1703-1712 | a run in which an issued session is issued again with other credentials |
| Text.SplitUndoesJoin | rust/issuer-service/src/main.rs:2718-2721 | parts without the separator come back from their join |
| Text.JoinUndoesSplit | rust/issuer-service/src/main.rs:2718-2721 | joining the parts of a split text gives the text back |
| SdJwt.SignedPayloadReadsBack | rust/issuer-service/src/main.rs:3073-3119 | a compact signature gives its payload under exactly the keys its signature verifies under |
| SdJwt.IssueSdJwt | rust/issuer-service/src/main.rs:3700-3746 | the loop that grows disclosures and digests issues the specified credential text |
| SdJwt.IssuedTextSplits | rust/issuer-service/src/main.rs:3741-3745 | the credential text splits into the signed part, the disclosures in order and an empty end |
| PidBinding.ReadDisclosures | rust/issuer-service/src/main.rs:2816-2860 | the loop accepts exactly disclosures all committed and readable, and keeps the last value of each identity claim |
| PidBinding.Verify | rust/issuer-service/src/main.rs:2703-2882 | the check as it runs computes the specified answer |
| PidBinding.JwsExactly | rust/issuer-service/src/main.rs:3073-3119 | a text is read exactly as three parts whose third is a signature that verifies over the first two, the second holding the payload |
| PidBinding.ProofExactly | rust/issuer-service/src/main.rs:2792-2814 | a binding proof is accepted exactly if the holder's key signed claims naming this issuer, nonce, new holder and credential, in time |
| PidBinding.LastValueIsLastNamed | rust/issuer-service/src/main.rs:2851-2859 | the value kept for a claim is that of the last disclosure naming it, if that is a text |
| PidBinding.PayloadFields | rust/issuer-service/src/main.rs:3706-3726 | every field of an issued payload and no other |
| SdJwt.BoundExactly | rust/issuer-service/src/main.rs:3650-3726 | exactly the PID-bound attestation says that it is bound to a PID, and exactly the PID configurations are of the PID type |
| PidBinding.IssuedThenPresented | rust/issuer-service/src/main.rs:2703-2882 | an issued PID presented in its validity with any sequence of its disclosures holding the three identity ones and a well-bound proof, within the sizes, splits into those parts and is accepted |
| PidBinding.AcceptedExactly | rust/issuer-service/src/main.rs:2703-2882 | a presentation is accepted exactly if, within the sizes, it is a three-part text whose signature verifies under the trusted key with a PID payload in time, disclosures each committed in it giving the required identity, and a proof signed by the key in the payload over claims that bind it |
| PidBinding.RefusedExactly | rust/issuer-service/src/main.rs:2703-2882 | which refusal is given: the identity is what is refused exactly if all else holds, and the server is at fault exactly for its own malformed key |
| PidBinding.PayloadAcceptedExactly | rust/issuer-service/src/main.rs:2738-2763 | an issued payload is accepted exactly for its type, its issuer and its time |
| PidBinding.AcceptedWasIssued | rust/issuer-service/src/main.rs:2703-2882 | if the presented signature is over the text of an issuance and the disclosures' digests do not collide, an accepted presentation is that issuance in its time, under a signature that verifies, with a sequence of its own disclosures, the required identity among its claims and a proof by the holder it was issued to |
| AppAttest.AttestState.constructor | rust/issuer-service/src/app_attest.rs:100-108 | a start loads the table, empty if the file is missing or unreadable |
| AppAttest.AttestState.NewChallenge | rust/issuer-service/src/main.rs:1825-1831 | drops expired challenges and stores a new one for 300 seconds |
| AppAttest.AttestState.ConsumeChallenge | rust/issuer-service/src/main.rs:1863-1876 | removes the challenge in every case and accepts it only if it has not expired |
| AppAttest.AttestState.Register | rust/issuer-service/src/main.rs:1912-1926 | stores the instance at counter zero and saves the table |
| AppAttest.AttestState.VerifyAppAttestAssertion | rust/issuer-service/src/main.rs:1975-2010 | advances the counter of a verified assertion and saves the table, or changes nothing |
| AppAttest.AssertionExactly | rust/issuer-service/src/app_attest.rs:228-274 | an assertion is accepted exactly if the instance's key signed it for the instance's application with a higher counter, read from bytes 33 to 36 |
| AppAttest.RegistrationExactly | rust/issuer-service/src/main.rs:1877-1926 | a registration passes exactly with an attestation of at most 8192 bytes that attests the key for the identifier and the challenge, and starts at counter zero |
| AppAttestRuns.FileHoldsTable | rust/issuer-service/src/app_attest.rs:100-128 | when nothing is unsaved a restart loses no registration and no counter |
| AppAttestRuns.CountersIncrease | rust/issuer-service/src/app_attest.rs:265-274 | between two registrations of a key its accepted counters strictly increase, over any restarts that find everything saved |
| AppAttestRuns.AcceptedExactly | rust/issuer-service/src/app_attest.rs:228-274 | over any run whose restarts find everything saved, an assertion is accepted exactly if the key last registered signed it for its application with a counter above the last one accepted |
| AppAttestRuns.RunFounded | rust/issuer-service/src/main.rs:1863-2010 | over every run, restarts and failed writes included, each registration was attested and each accepted assertion was signed by a key registered under its identifier |
| AppAttestRuns.ChallengeBacksOneRegistration | rust/issuer-service/src/main.rs:1863-1926 | a registration has behind it a challenge handed out and taken once, before it expired, and no other registration has the same one, over any restarts and failed writes |
| AppAttestRuns.ReplayAfterRestart | rust/issuer-service/src/app_attest.rs:110-128 | after any legal run in which an assertion was accepted and its key not registered since, some legal continuation without a registration of the key accepts it again exactly if the file's table holds for the key an instance the assertion verifies against, with a lower counter |
| AppAttestRuns.WrittenIsFinal | rust/issuer-service/src/app_attest.rs:110-128 | once everything was written after the acceptance and before a restart, by whichever write, no such continuation exists |
| AppAttestRuns.AcceptedTwice | rust/issuer-service/src/main.rs:1975-2010 | for any attested registration and any assertion its key signed, a legal run that accepts that assertion twice: the write of its counter fails and the service restarts |

## Left out

- Cryptography, certificate chains and key storage in the Keychain: parameters with stated assumptions; the attestation object of App Attest and the claims of a chip-read attestation are only accepted or refused.
- HTTP, CORS, redirects, JSON parsing of requests and metadata documents: handlers start from parsed requests, and the `state` echo parameter is dropped.
- Cbor.ReadStrictExact: CBOR floats, simple values, tags and indefinite lengths are not values of the model; the format never writes them and every decoder of it refuses them, here as malformed where the program may call them non-canonical or find no map. The recursion limit of the CBOR library is not modelled.
- Cbor.ReadStrictRefusals: counts such items as refused already by the reader, where the program's reader may pass a canonical one on to a decoder that refuses it.
- HybridRuns.EmittedEnvelopesVerify: the post-quantum signer is a function, so hedged signing randomness is not modelled.
- HybridRuns.VerifiedInHistory: supposes that raw messages are those of mdocs, as the one caller passes them.
- PidBinding.IssuedThenPresented: the holder's key is a flat JSON object without floats, as the service normalises it.
- IssuanceRuns.IssuanceHasChain: a redirect URI and a verifier are compared as texts, and the S256 transform is a parameter, so an equal transform is all that is shown of the verifier.
- IssuanceReach.IssuedExactly: supposes that the TLSNotary identifier is the only one of its profile.
- ServiceRuns.SubmissionRegion: the App Attest gate before a submission is modelled apart, in `AppAttest.dfy`, and not joined to the capture sessions.
- The scan of offers during a pushed request and its check are one step, as they are one lock region; everything between regions may interleave.
- Evidence on a credential request that is refused answers one error whatever the reason; which of the error texts and status codes the service chooses is dropped.
- A restart of the issuance service, which loses all its volatile ledgers, is not a step; with one, proofs used before it can be used again.
- Network calls to the liveness provider and to the notification service: an arbitrary answer between two regions, and nothing.
- Reading a capture session or an offer, and expired entries in the service's tables, which it never removes.
- Building mdoc credentials, mandates and the hybrid credential's payload, age and expiry dates: value construction or calendar arithmetic. For mandates only the powers are modelled.
- File system errors beyond a failed or successful write, configuration loading, the other signing backends, the chain schema encoder, the Svipe client and the environment file reader: short checks or plumbing.
