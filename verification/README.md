# A verified model of ryke

ryke is a library for IKEv2 (RFC 7296), IKEv1 (RFC 2408 and RFC 2409) and
userspace ESP (RFC 4303), with both ends of every exchange. This project models
its messages, key schedules, exchanges and session tables in Dafny and proves
that the two ends agree: from the octets on the wire up to the derived keys and
the packets of the data plane, for every input and over every run.

`dafny verify dfyconfig.toml` checks all of it.

## How the model is built

- The cryptographic primitives are a parameter of every theorem: a table of
  functions (`Primitives.Table`) of which only fixed output lengths, "open undoes
  seal", "decrypt undoes encrypt" and "X25519 commutes" are known
  (`Primitives.Lawful`). Nothing is assumed about forgery or collisions.
  `Primitives.ToyIsLawful` gives one table that satisfies the assumptions, so
  they are consistent. MODP Diffie-Hellman is not a parameter: it is arithmetic
  on octet strings (`dh.dfy`). X.509 decoding and signatures are a second table,
  `CertPath.Pki`, of which nothing at all is known.
- Random draws, the clock, received datagrams and the success of sending are
  inputs of the steps.
- Objects that change are classes whose methods are proved equal to a step
  function; loops are methods proved equal to a recursive function. The theorems
  are about those functions.
- Integer widths, the truncating casts `as u8` and `as u16`, wrapping and
  saturating counters are written out. Where a cast can lose information the
  round trips ask that the length fits its field; those are the `...Fits` and
  `Sealable` predicates.

| part of the library | files |
|---|---|
| octets, primitives, generic payload header | `common.dfy`, `primitives.dfy`, `framing.dfy` |
| IKEv2 messages, payload bodies, Encrypted payload | `message.dfy`, `payload.dfy`, `sk.dfy`, `typed.dfy` |
| key schedule, Diffie-Hellman, suite selection | `keys.dfy`, `dh.dfy`, `negotiate.dfy` |
| IKE_SA_INIT | `exchange.dfy`, `exchange_agreement.dfy`, `exchange_exact.dfy` |
| IKE_AUTH, path building, CHILD rekey | `ike_auth.dfy`, `ike_auth_agreement.dfy`, `ike_auth_exact.dfy`, `ike_auth_any.dfy`, `sign.dfy`, `rekey.dfy` |
| EAP-MSCHAPv2 in IKE_AUTH | `eap.dfy`, `eap_auth.dfy`, `eap_run.dfy`, `eap_safety.dfy`, `eap_history.dfy`, `eap_answers.dfy` |
| fragmentation, ESP | `fragment.dfy`, `fragment_order.dfy`, `esp.dfy` |
| IKEv1 messages, key schedule, Phase 1 and 2 | `isakmp.dfy`, `payloads1.dfy`, `crypto1.dfy`, `phase1.dfy`, `phase2.dfy`, `quick.dfy` |
| the two servers, and whole handshakes against them | `server1.dfy`, `server2.dfy`, `handshake1.dfy`, `handshake.dfy` |

## Where code and documentation differ

- The comment above `decrypt_payloads` (src/ikev1/phase2.rs:83-87) gives HASH(3)
  without the Message ID; the code (src/ikev1/quick.rs:105-112) includes it, and
  so does the model.
- `prf_plus` lets its counter stick at 255 (src/crypto.rs:192-208). Up to 255
  blocks this is the recurrence of the standard; beyond, the standard defines
  nothing and the model follows the code.
- `EapResponder` is documented to verify the client's password and to reject an
  unknown identity (src/ikev2/eap_auth.rs:322-333), and its `user()` to be
  meaningful once authentication succeeds (src/ikev2/eap_auth.rs:397-399). The
  object keeps no phase: the final AUTH is compared with the code of whatever
  password and NT-response are stored, which in a new object are empty and zero
  (src/ikev2/eap_auth.rs:368-384, src/ikev2/eap_auth.rs:447-490). So success is for
  a user of the table exactly in runs where an identity of the table was accepted
  before, and otherwise for nobody (`EapHistory.SuccessForWhom`). A caller gets the
  promise by keeping the empty name out of its table and checking, when success is
  reported, that `user()` is one of its users.
- The IKEv1 server describes Phase 1 as half-open until HASH_I is verified
  (src/ikev1/server.rs:21-24), but answers Quick Mode as soon as message 1 is
  stored. A child therefore does not rest on HASH_I; `Server1.ChildRestsOn` says
  what it rests on.
- The IKEv2 server describes a two-message handshake and keeps the SA of the first
  message for the second (src/ikev2/server.rs:1-5). It does not drop that SA when
  IKE_AUTH succeeds (src/ikev2/server.rs:88-107), so any number of Established can
  follow one IKE_SA_INIT, and their children share one set of keys
  (`Server2.EstablishedAgain`, `EspTunnel.SpisDoNotKey`).
- Path building is greedy. It finds exactly the paths along the first listed
  issuers (`CertPath.ValidateChainExactly`); others can exist and be missed
  (`CertPath.GreedyMissesAPath`), and a malformed anchor can hide one
  (`CertPath.MalformedAnchorBlocks`).
- IKEv1 SA trees with an empty list print to octets the parser refuses
  (`Payloads1.SaRoundTrip` says exactly which trees survive).

## Model

| member | source | states |
|---|---|---|
| `Message.TypeCodes` | src/ikev2/message.rs:74-122 | a payload type survives its octet and back exactly when it is canonical (`Other` not standing for a known code) |
| `Message.HeaderRoundTrip` | src/ikev2/message.rs:182-216 | a header survives printing and parsing, whatever follows it, if and only if its codes are canonical and its version nibbles fit |
| `Message.HeaderFields` | src/ikev2/message.rs:182-216 | what parsing finds in any printed header, canonical or not: which fields change and to what |
| `Message.PayloadIter.Next` | src/ikev2/message.rs:249-290 | each call yields the head of what remains to be walked, or its error, and leaves the tail; an error ends the iteration |
| `Message.WalkTiles` | src/ikev2/message.rs:249-290 | on every byte string the walk ends; the payloads it yields stand back to back from offset 0, each with its length field, critical bit, data and announced type; no error exactly when the last one announces "no next payload" |
| `Message.EncodePayloadChain` | src/ikev2/message.rs:332-346 | the loop prints the chain that `ChainRoundTrip` reads back |
| `Message.ChainLength` | src/ikev2/message.rs:332-346 | a printed chain is as long as its bodies plus four octets each |
| `Message.ChainRoundTrip` | src/ikev2/message.rs:332-346 | walking a printed chain of fitting, canonically typed payloads gives back the same list, whatever octets follow it |
| `Message.MessageRoundTrip` | src/ikev2/message.rs:316-326 | a built message parses to its header, with the first type and the length filled in, and walks to its payloads |
| `Sk.GcmRoundTrip` | src/ikev2/sk.rs:43-60 | opening undoes sealing under a 36-octet SK_e, and the ciphertext is 16 octets longer |
| `Sk.SkRoundTrip` | src/ikev2/sk.rs:65-155 | what `build_encrypted_gcm` builds, `open_encrypted_gcm` opens to the same first type and inner octets; the header is readable |
| `Sk.SealOpen` | src/ikev2/sk.rs:65-155 | a whole payload chain printed and sealed by one side is the chain the other side opens and walks, without a walk error |
| `Sk.OpenEncryptedExactly` | src/ikev2/sk.rs:118-155 | for every message and key, what opens and to what, in terms of the octets: type and length fields, the tag over the first 32 octets under AES key and salt followed by IV, and the padding |
| `TypedChain.TypedRoundTrip` | src/ikev2/payload.rs:72-212 | every list of typed payloads (SA with proposals, transforms and key lengths, KE, Nonce, IDs, AUTH, Notify, TS, CP) printed, sealed, opened, walked and parsed comes back as the same list |
| `PayloadBodies.ScanKeyLength` | src/ikev2/payload.rs:89-110 | the attribute loop finds the last Key Length, skips other TV and TLV attributes, and refuses a TLV running past the end |
| `PayloadBodies.TransformRoundTrip` | src/ikev2/payload.rs:72-127 | a transform survives printing and parsing in front of anything, and its used length is exact |
| `PayloadBodies.ParseTransformList` | src/ikev2/payload.rs:140-168 | the counted loop equals the recursive parser of the transforms |
| `PayloadBodies.ProposalRoundTrip` | src/ikev2/payload.rs:140-186 | a proposal whose lengths and counts fit survives printing and parsing in front of anything |
| `PayloadBodies.ParseSaBody` | src/ikev2/payload.rs:195-204 | the offset loop equals the recursive parser of the proposals, errors included |
| `PayloadBodies.SaRoundTrip` | src/ikev2/payload.rs:195-212 | every SA tree whose parts fit survives printing and parsing |
| `PayloadBodies.MarkersAgree` | src/ikev2/payload.rs:107-212 | a reader that goes by the Last Substruc markers of section 3.3 of RFC 7296, which the parser itself ignores, finds in every printed SA the same proposals and transforms, each list ending where its marker says |
| `PayloadBodies.SpiReadersAgree` | src/ikev2/ike_auth.rs:137-143 | on every byte string the SA parser accepts, the fixed-offset reader returns an SPI exactly when the parsing reader does, and the same one |
| `PayloadBodies.SpiReadersExactly` | src/ikev2/rekey.rs:58-65 | for every byte string, the two readers agree on whether there is an SPI if and only if the string parses, is shorter than 12 octets, or has an SPI size other than 4 |
| `PayloadBodies.SpiReadersPart` | src/ikev2/ike_auth.rs:137-143 | a string on which the two readers part: the witness that the condition is needed |
| `PayloadBodies.EspOfferReads` | src/ikev2/ike_auth.rs:83-95 | both readers recover the SPI of the default CHILD SA offer from its octets, which parse to AES-GCM-16-256 without extended sequence numbers |
| `PayloadBodies.KeBytes` | src/ikev2/payload.rs:223-238 | a printed Key Exchange parses to itself |
| `PayloadBodies.IdBytes` | src/ikev2/payload.rs:276-291 | a printed Identification parses to itself |
| `PayloadBodies.AuthBytes` | src/ikev2/payload.rs:315-330 | a printed Authentication parses to itself |
| `PayloadBodies.NotifyRoundTrip` | src/ikev2/payload.rs:619-645 | a Notify whose SPI fits one octet of length survives printing and parsing |
| `PayloadBodies.TsRoundTrip` | src/ikev2/payload.rs:374-438 | traffic selector lists that fit survive printing and parsing |
| `PayloadBodies.SelectorsMean` | src/ikev2/payload.rs:350-372 | the two selectors the library sends are all of IPv4 and one host, for any protocol and port |
| `PayloadBodies.CpRoundTrip` | src/ikev2/payload.rs:473-545 | configuration payloads that fit survive printing and parsing |
| `PayloadBodies.ReplyReads` | src/ikev2/payload.rs:503-512 | a CFG_REPLY with any netmask and resolver, or without, survives printing and parsing, and the receiver reads the assigned address from it |
| `KeySchedule.PrfPlusLoop` | src/crypto.rs:192-208 | the loop with its saturating counter computes the block stream cut to the asked length |
| `KeySchedule.PrfPlusIsRfc` | src/crypto.rs:192-208 | for every length up to 8160 octets the result is the prefix of the T1, T2, ... recurrence of section 2.13 of RFC 7296 |
| `KeySchedule.PrfPlusPrefix` | src/crypto.rs:192-208 | shorter outputs are prefixes of longer ones |
| `KeySchedule.SessionKeysTileStream` | src/crypto.rs:244-279 | the seven SK_* slices have their lengths and concatenate back to prf+ keyed by the code of the shared secret under both nonces, over the nonces and both SPIs: nothing lost, nothing reused |
| `KeySchedule.ChildKeysTileStream` | src/crypto.rs:348-366 | the four CHILD slices have their lengths and concatenate back to the stream |
| `Dh.Modexp` | src/crypto.rs:71-79 | the result is exactly prime-width and encodes base^exp mod p |
| `Dh.PaddedIsFixed` | src/crypto.rs:71-79 | left zero-padding the shortest big-endian encoding gives the fixed-width one, for every number that fits |
| `Dh.ModpAgreement` | src/crypto.rs:71-97 | for any modulus and exponents, B's encoded value raised to a and A's raised to b are the same octets, encoding 2^(ab) mod p |
| `Dh.Shared` | src/crypto.rs:153-178 | a secret comes out exactly for peer values of the right length and, for MODP, in [2, p-2]; otherwise the stated error |
| `Dh.SharedAgreement` | src/crypto.rs:139-178 | in all three groups both sides compute one secret whenever each accepts the other's share |
| `Negotiate.SelectIsFirstBest` | src/ikev2/negotiate.rs:58-99 | selection takes the first proposal that has an acceptable suite, and in it the best one; None exactly when none has |
| `Negotiate.SelectEcho` | src/ikev2/negotiate.rs:44-99 | selecting from the echoed proposal of a chosen suite gives that suite back |
| `Negotiate.EchoFits` | src/ikev2/negotiate.rs:44-54 | the echoed proposal always fits its length fields |
| `SaInit.ParseSaInitLoop` | src/ikev2/exchange.rs:122-154 | the payload loop that overwrites its locals equals the fold over the walk, with errors in source order |
| `SaInit.SaInitReads` | src/ikev2/exchange.rs:180-191 | what the peer reads from any built SA_INIT message that fits: the header and every payload |
| `SaInitAgreement.RequestReads` | src/ikev2/exchange.rs:310-345 | the responder understands a request, with or without an echoed cookie, exactly as it was meant |
| `SaInitAgreement.SaInitAgreement` | src/ikev2/exchange.rs:310-434 | whenever the responder establishes, `initiator_complete` succeeds exactly when the responder's share is valid, and both sides then hold the same suite, SPIs, nonces, transcripts, hashes and seven keys; the keys have the lengths of the suite and are the stream of section 2.14 of RFC 7296 for the secret of the two shares |
| `SaInitAgreement.ResponseSays` | src/ikev2/exchange.rs:354-399 | an establishing response carries Message ID 0, both SPIs and the response flag, and with NAT detection the two address hashes, ours as source and the peer's as destination |
| `SaInitAgreement.CookieGate` | src/ikev2/exchange.rs:238-333 | on every request that parses, a cookie is asked for exactly when the policy demands one and the request does not echo the code of secret, SPI, nonce and peer address; and that code is what is asked for |
| `SaInit.OfferDhGroupExactly` | src/ikev2/exchange.rs:205-212 | the group of the first request is the one that the first DH transform of the first proposal names, and X25519 when there is none or it is unknown |
| `SaInitExact.SeenExactly` | src/ikev2/exchange.rs:122-156 | for every payload list, the scan succeeds exactly when every SA and KE parses, and has then seen the last SA, KE and nonce, the identifiers of the last hash announcement and the last cookie |
| `SaInitExact.RespondExactly` | src/ikev2/exchange.rs:310-398 | the responder on every octet string: it establishes if and only if the message says something, the cookie holds where one is demanded, a suite is selected, and the share is for its group and valid, with keys, sizes and state written out; it asks for a cookie or another group exactly when that is missing, and fails otherwise |
| `SaInitExact.CompleteExactly` | src/ikev2/exchange.rs:401-434 | the initiator on every octet string: it completes if and only if the response says something with a selectable suite and a valid share for its group, with keys, sizes and state written out |
| `SaInitAgreement.InitiatorRequestIsRequest` | src/ikev2/exchange.rs:215-220 | the library's own first request is one of the requests the agreement covers |
| `SaInitAgreement.AnswerCases` | src/ikev2/exchange.rs:316-353 | which of the cookie challenge, INVALID_KE_PAYLOAD and a final outcome a request gets, and how the initiator's next try follows from the octets of the answer |
| `SaInitAgreement.RetryConverges` | src/ikev2/exchange.rs:316-353 | an initiator that follows the answers sees at most one COOKIE and one INVALID_KE_PAYLOAD, in either combination, before a final outcome within three tries, and the same group every time |
| `EspTunnel.EspSa.SealPacket` | src/esp.rs:76-111 | one call equals the step function: counter up by one and a packet, or exhaustion and no change |
| `EspTunnel.EspRun` | src/esp.rs:76-146 | every run of `seal`: consecutive sequence numbers, 4-aligned plaintext, pairwise distinct nonces, failure without wrap once 2^32-1 is spent, and the mirrored SA opens each packet to its inner octets and next header |
| `EspTunnel.OpenPacket` | src/esp.rs:115-146 | the mirror of an SA opens any of its packets to what was sealed |
| `EspTunnel.OpenExactly` | src/esp.rs:115-146 | for every packet, what opens: our SPI, the tag under our key, salt and explicit IV over the first 8 octets, and a trailer that fits; another SPI and a failed tag have their own errors |
| `EspTunnel.NewEsp` | src/esp.rs:48-57 | keying succeeds exactly on 36 octets, which are the key and the salt, with the counter at 0 |
| `EspTunnel.ChildDirections` | src/esp.rs:163-177 | the first 36 octets of prf+ of SK_d and the nonces protect what the initiator sends, the next 36 what the responder sends, each under the SPI of its receiver |
| `EspTunnel.ChildrenPair` | src/esp.rs:163-177 | the children the two roles derive are each other's mirror, on the exchanged SPIs, with the keys in those directions |
| `EspTunnel.PairedTraffic` | src/esp.rs:163-177 | over mirrored children everything one end seals the other opens |
| `EspTunnel.SpisDoNotKey` | src/esp.rs:163-177 | children derived from one SK_d and one pair of nonces have the same keys and salts, whatever their SPIs |
| `Fragmentation.BuildFragmentsLoop` | src/ikev2/fragment.rs:27-86 | the loop equals the recursive split-and-seal specification |
| `Fragmentation.PiecesConcat` | src/ikev2/fragment.rs:27-86 | the pieces of a message concatenate back to it, the empty message making one piece |
| `Fragmentation.FragmentRoundTrip` | src/ikev2/fragment.rs:27-127 | a sealed fragment opens to its number, total, first octet and content |
| `Fragmentation.OpenFragmentExactly` | src/ikev2/fragment.rs:95-127 | for every message and key, what opens as a fragment and to what, in terms of the octets |
| `Fragmentation.FragmentIvsDiffer` | src/ikev2/fragment.rs:27-86 | two fragments of one message have the same IV only if they have the same number |
| `Fragmentation.OpenMessages` | src/ikev2/fragment.rs:132-157 | the opening loop equals opening each message, first error first |
| `Fragmentation.Join` | src/ikev2/fragment.rs:132-157 | the concatenating loop returns the contents of the fragments in their order |
| `Fragmentation.SortInPlace` | src/ikev2/fragment.rs:132-157 | the array of fragments is brought in place into the stable order by fragment number |
| `Fragmentation.ReassembleMessages` | src/ikev2/fragment.rs:132-157 | opening, the checks on totals and numbers, the in-place sort and joining together equal the reassembly function, errors included |
| `FragmentOrder.ReassembleExact` | src/ikev2/fragment.rs:132-157 | for arbitrary message lists, success exactly when all open and can be arranged as 1, 2, ..., total under one total; the result is read off any such arrangement |
| `FragmentOrder.ArrivalOrder` | src/ikev2/fragment.rs:132-157 | the messages all open in one order exactly when they do in another, and then the outcome is the same, result or error |
| `FragmentOrder.FragmentsRoundTrip` | src/ikev2/fragment.rs:27-157 | any permutation of the built fragments reassembles to the original first type and octets |
| `FragmentOrder.TooManyFragments` | src/ikev2/fragment.rs:27-157 | with more pieces than a 16-bit total counts, no arrival order is accepted |
| `CertPath.ValidateChainLoop` | src/ikev2/sign.rs:335-365 | the bounded loop with its inner scans equals the climb function |
| `CertPath.ValidateChainExactly` | src/ikev2/sign.rs:319-365 | for all inputs, success if and only if there is a path, of whatever length, each of whose links goes to the first listed intermediate that issued the certificate below, up to an anchor listed before any malformed one |
| `CertPath.ValidateChainIff` | src/ikev2/sign.rs:319-365 | success implies a path of in-window, signed certificates with CA intermediates up to an anchor, of at most intermediates+1 certificates; with unique issuers and parsing anchors, success exactly when any such path exists, of whatever length |
| `CertPath.Pigeonhole` | src/ikev2/sign.rs:335-365 | distinct certificates drawn from the intermediates are at most as many, which bounds the hops a loop-free path needs |
| `CertPath.GreedyMissesAPath` | src/ikev2/sign.rs:335-365 | with two issuers of one name, a path can exist that the greedy climb does not find: the concrete input |
| `CertPath.MalformedAnchorBlocks` | src/ikev2/sign.rs:335-365 | a malformed anchor listed first defeats an existing path, and listed last does not: the concrete input |
| `CertPath.CertAuthSound` | src/ikev2/sign.rs:372-395 | an accepted peer certificate is in its window, carries the name, verified the signature, and is pinned or has a path |
| `CertPath.CertAuthExactly` | src/ikev2/sign.rs:372-395 | the whole check as an if-and-only-if: pinned and in its window or at the foot of a first-issuer path, carrying the expected name, and the signer of the octets |
| `IkeAuth.OctetsBind` | src/ikev2/auth.rs:28-47 | what an AUTH binds: with nonces of one length, two ends sign equal octets exactly when they saw the same first message and the same nonce of the other side and hold the same code of the identity under SK_p |
| `IkeAuth.CtEq` | src/ikev2/ike_auth.rs:185-194 | the XOR/OR loop returns true exactly for equal strings |
| `IkeAuth.ParseAuthLoop` | src/ikev2/ike_auth.rs:145-177 | the payload loop equals the fold over the walk, errors included |
| `IkeAuthAgreement.ResponderAccepts` | src/ikev2/ike_auth.rs:345-393 | over an agreed SA the responder accepts the PSK request and learns exactly the identity and SPI in it |
| `IkeAuthAgreement.InitiatorAccepts` | src/ikev2/ike_auth.rs:446-459 | the initiator accepts the response and learns identity, SPI and assigned address |
| `IkeAuthAgreement.PskHandshake` | src/ikev2/ike_auth.rs:274-459 | request, processing and verification all succeed, each side learns exactly the other's identity and CHILD SPI and the assigned address, and the CHILD SAs mirror each other |
| `IkeAuthExact.ReadsExactly` | src/ikev2/ike_auth.rs:145-177 | which payloads are read from any walked list: the last ID, the last AUTH, all certificates that parse, the SPI of the last SA, the address of the last configuration that parses; and when reading succeeds |
| `IkeAuthExact.VerifyPskByOctets` | src/ikev2/ike_auth.rs:196-203 | the comparison by the constant-time loop is the comparison of the specification |
| `IkeAuthExact.ResponderAuthExactly` | src/ikev2/ike_auth.rs:345-393 | for every message and configuration, the responder accepts if and only if the request opens and reads, its AUTH proves the configured peer (for a PSK the code of section 2.15 of RFC 7296 written out, for certificates what `CertAuthExactly` says) over the first message, the responder's nonce and the identity under SK_pi, and ID, SPI and its own proof are there |
| `IkeAuthExact.InitiatorAuthExactly` | src/ikev2/ike_auth.rs:446-459 | the mirror for the initiator: over the second message, its own nonce and SK_pr; and what it then learns |
| `AuthHandshake.AuthHandshake` | src/ikev2/ike_auth.rs:274-470 | IKE_AUTH of any two configurations, pre-shared keys or certificates, matching or not: request, processing and verification each succeed if and only if the sender can sign and what it presents convinces the other end, and each learns exactly the other's identity and SPI |
| `AuthHandshake.LegacySignatureRefused` | src/ikev2/ike_auth.rs:230-272 | the raw ECDSA AUTH that a certificate holder sends to a peer that announced no SHA2-256 convinces no peer, however it is configured |
| `AuthHandshake.RequestReads` | src/ikev2/ike_auth.rs:145-302 | the responder reads of a request of any configuration exactly the identity, AUTH, certificates in order, and SPI that were put into it |
| `AuthHandshake.RequestAsks` | src/ikev2/ike_auth.rs:274-300 | a request carries a CERTREQ exactly when the peer is checked by certificate, with the hashes of the trust anchors |
| `AuthHandshake.AnchorHashes` | src/ikev2/ike_auth.rs:286-290 | the anchors of a CERTREQ are the hashes of those that parse, in order |
| `IkeAuthAgreement.GrantCarries` | src/ikev2/ike_auth.rs:362-393 | what a response grants: the SPI, TSi narrowed to the assigned host if there is one, TSr the full tunnel, and the assigned address with the first resolver |
| `IkeAuthAgreement.AuthHeaders` | src/ikev2/ike_auth.rs:101-114 | both IKE_AUTH messages carry Message ID 1 and both SPIs, and the flags say who sent which |
| `IkeAuthAgreement.GcmSuiteAgrees` | src/ikev2/sk.rs:25-32 | an established SA under AES-256-GCM has the 36-octet keys that the Encrypted payload demands |
| `Rekey.FindSaAndNonceLoop` | src/ikev2/rekey.rs:68-80 | the loop returns the last SA and nonce, an error of the walk before a missing payload |
| `Rekey.ResponseReads` | src/ikev2/rekey.rs:113-170 | the answer to any request the other end can process carries the echoed Message ID, its offer, its nonce and the chosen selectors |
| `Rekey.RekeyHeaders` | src/ikev2/rekey.rs:43-55 | both messages carry the two SPIs in order, the Message ID, the role of the sender and the direction |
| `Rekey.RekeyAgreement` | src/ikev2/rekey.rs:84-184 | whichever end starts it, request, response and completion yield mirrored ESP SAs on the new SPIs, the end that started sending under the first half of the new stream; the request names the SPI it replaces; the response TSi is the assigned host, or the initiator's own octets |
| `Eap.EapRoundTrip` | src/ikev2/eap.rs:41-61 | an EAP packet that fits survives printing and parsing |
| `Eap.ChallengeRoundTrip` | src/ikev2/eap.rs:70-88 | a challenge is read back with its identifier, challenge and name |
| `Eap.ResponseRoundTrip` | src/ikev2/eap.rs:91-129 | a response is read back with its identifier, peer challenge, NT-response and user |
| `EapAuth.EapInitiator.Handle` | src/ikev2/eap_auth.rs:234-319 | one call equals the initiator's step: new `server_verified` and `nt_response`, and the event |
| `EapAuth.EapResponder.Handle` | src/ikev2/eap_auth.rs:403-538 | one call equals the responder's step: which fields change follows from which payloads are present |
| `EapRun.Delivered` | src/ikev2/eap_auth.rs:104-132 | what `build_sk` seals at one end `decrypt` opens at the other, under the same Message ID |
| `EapRun.EapEstablishes` | src/ikev2/eap_auth.rs:219-538 | the joint run ends in exactly five rounds, the responder reporting success in the last and the initiator accepting its final message; Message IDs 1 to 5 each echoed; both hold the NT-response of the drawn challenges; the responder knows the user and the CHILD SPI; the CHILD SAs mirror each other |
| `EapRun.FreshEapEstablishes` | src/ikev2/eap_auth.rs:158-384 | the same, clause for clause, from the two constructors on, for a user of the table and its password |
| `EapSafety.FlagExact` | src/ikev2/eap_auth.rs:241-252 | after any run `server_verified` is set exactly when some message of it proved the server, and the configuration is unchanged |
| `EapSafety.InitiatorHistory` | src/ikev2/eap_auth.rs:234-319 | the whole state after any run of arbitrary messages with trust anchors: the flag says whether one of them proved the server, the NT-response is that of the last challenge answered after that, nothing else changes |
| `EapSafety.CredentialFirewall` | src/ikev2/eap_auth.rs:189-281 | over every run of arbitrary messages with trust anchors: nothing but failure before a message proved the server; the flag never goes back; success at message k if and only if a strictly earlier message proved the server (by method 14) and k carries, with SA and without EAP, the method 2 code keyed by the MSK of the password and of the NT-response to the last challenge answered |
| `EapSafety.FreshFirewall` | src/ikev2/eap_auth.rs:158-281 | the same from the constructor on, for every configuration with trust anchors |
| `EapSafety.InitiatorAdvances` | src/ikev2/eap_auth.rs:234-319 | whatever it is sent, the initiator answers only under the next Message ID |
| `EapSafety.ResponderEchoes` | src/ikev2/eap_auth.rs:403-538 | in any state and to any message, the responder answers only under the Message ID of the request |
| `EapHistory.ResponderHistory` | src/ikev2/eap_auth.rs:403-538 | the whole state after any run of arbitrary messages: user, password and challenge of the last accepted identity claim; NT-response of the last well-formed response under what was selected when it came; IDi and SPI of the last opening message; the EAP identifier counts EAP packets; nothing else changes |
| `EapHistory.TableUserExactly` | src/ikev2/eap_auth.rs:361-384 | from the constructor on, the stored user is a table entry exactly when an earlier message claimed a name of the table (or the table has the empty name with the empty password); otherwise user, password and challenge are still the constructor values |
| `EapHistory.SuccessExactly` | src/ikev2/eap_auth.rs:447-490 | success at any message of any run, as an if-and-only-if over the messages before it: an AUTH without EAP whose data is the code of the remembered password, NT-response and IDi |
| `EapHistory.SuccessForWhom` | src/ikev2/eap_auth.rs:403-538 | from the constructor on, when success is reported for a user of the table and when for nobody: two if-and-only-ifs over the messages of the run, decided by whether a claim was accepted before |
| `EapHistory.UnclaimedNt` | src/ikev2/eap_auth.rs:361-384 | in a run without an accepted claim the NT-response is zero, or that of the last response under the empty credential |
| `EapHistory.NobodyIsPossible` | src/ikev2/eap_auth.rs:403-538 | the case of success for nobody is inhabited, shown with toy primitives under which all codes are equal |
| `EapAnswers.OnIdentity` | src/ikev2/eap_auth.rs:503-517 | in every state, an identity fails if the name is unknown, and otherwise is sent the drawn challenge under the next identifier |
| `EapAnswers.OnResponse` | src/ikev2/eap_auth.rs:518-526 | in every state, a well-formed response fails if and only if its NT-response is not the one of the stored challenge, user and password; otherwise the answer carries the authenticator response for them |
| `EapAnswers.OnAck` | src/ikev2/eap_auth.rs:527-533 | the acknowledgement of Success gets EAP-Success under the client's identifier |
| `EapAnswers.OnOtherEap` | src/ikev2/eap_auth.rs:498-538 | every other EAP packet fails, and a response that does not parse is an error |
| `EapAnswers.OnOpening` | src/ikev2/eap_auth.rs:406-446 | an opening message is answered with the identity, the server's proof written out (shared-key code, or certificates and a signature of the method the peer can check) and an identity request |
| `EapAnswers.OnAuth` | src/ikev2/eap_auth.rs:447-494 | an AUTH without EAP succeeds if and only if its data is the MSK-keyed code written out, and the last answer carries our own code and what is granted |
| `EapAnswers.OnNothing` | src/ikev2/eap_auth.rs:403-412 | what does not open or parse is an error, and a message without SA, AUTH and EAP fails |
| `EapAnswers.RunOnResponse` | src/ikev2/eap_auth.rs:518-526 | at any message of any run: a response fails if and only if it is wrong for the credential and challenge of the last accepted claim |
| `EapAnswers.RunOnIdentity` | src/ikev2/eap_auth.rs:503-517 | at any message of any run: an identity fails if and only if its name is not in the table, and otherwise is challenged with what is drawn for it |
| `EapAnswers.OnEap` | src/ikev2/eap_auth.rs:254-319 | in every state, what the initiator answers to an EAP packet it lets through, packet kind by packet kind, under the next Message ID; what it does not let through fails |
| `EapAnswers.OnFinal` | src/ikev2/eap_auth.rs:254-283 | without EAP the initiator never replies, and succeeds if and only if the message passes the firewall and is the final one |
| `EapAnswers.ServerProofExactly` | src/ikev2/eap_auth.rs:189-216 | what proves a server to a client with trust anchors, as an if-and-only-if down to the certificate path, the name and the signed octets written out |
| `EapAnswers.DecryptExactly` | src/ikev2/eap_auth.rs:123-132 | a message is read if and only if it opens under the SK_e of the other side and its payload chain ends without an error |
| `EapAnswers.EapHeaders` | src/ikev2/eap_auth.rs:104-120 | every message of the exchange carries both SPIs in order, its Message ID, the role of its sender and its direction |
| `EapAnswers.StartAsks` | src/ikev2/eap_auth.rs:219-231 | the opening message carries identity and offer, no AUTH, and a CERTREQ exactly when told to |
| `EapAnswers.CertsOfExactly` | src/ikev2/eap_auth.rs:189-216 | the certificates the client collects are those of the message that parse, in order |
| `Isakmp.HeaderRoundTrip` | src/ikev1/isakmp.rs:66-93 | every ISAKMP header survives printing and parsing, whatever follows it |
| `Isakmp.ParsePayloadsLoop` | src/ikev1/isakmp.rs:111-129 | the offset loop equals the recursive parser, with the offsets in its errors |
| `Isakmp.EncodePayloads` | src/ikev1/isakmp.rs:134-149 | the loop prints the chain that `ChainRoundTrip` reads back, and returns its first type |
| `Isakmp.ChainRoundTrip` | src/ikev1/isakmp.rs:111-149 | parsing a printed chain gives it back and ignores any suffix after the last payload |
| `Isakmp.MessageRoundTrip` | src/ikev1/isakmp.rs:154-161 | a built message parses to its header, with first type and length filled in, and to its payloads |
| `Payloads1.AttributeRoundTrip` | src/ikev1/payloads.rs:108-140 | TV and TLV attributes that fit survive printing and parsing in front of anything |
| `Payloads1.ParseAttributeList` | src/ikev1/payloads.rs:152-160 | the loop over a shrinking slice equals the recursive parser |
| `Payloads1.ProposalRoundTrip` | src/ikev1/payloads.rs:210-235 | a fitting proposal parses back exactly when it has a transform; without one the parser reports truncation |
| `Payloads1.SaRoundTrip` | src/ikev1/payloads.rs:108-269 | a fitting SA tree survives printing and parsing if and only if none of its lists is empty |
| `Payloads1.IdBytes` | src/ikev1/payloads.rs:287-305 | a printed Identification parses to itself |
| `Crypto1.SkeyidChain` | src/ikev1/crypto1.rs:75-93 | SKEYID_d, _a and _e are numbers 0, 1 and 2 of one recurrence over SKEYID, each fed into the next |
| `Crypto1.DeriveCipherKeyLoop` | src/ikev1/crypto1.rs:109-122 | the loop returns the leading octets of SKEYID_e, or octet for octet those of the concatenated blocks K1, K2, ... of Appendix B of RFC 2409 |
| `Crypto1.CipherKeyExactly` | src/ikev1/crypto1.rs:109-122 | the AES-256 key written out: SKEYID_e for SHA2-256, and the first 32 octets of K1, K2 for SHA-1 |
| `Crypto1.KeymatLoop` | src/ikev1/crypto1.rs:127-141 | octet j of the material is octet j mod L of block j div L + 1 of the feedback recurrence |
| `Crypto1.PadToBlock` | src/ikev1/crypto1.rs:160-167 | padding keeps the data in front and aligns to 16 octets |
| `Crypto1.CbcRoundTrip` | src/ikev1/crypto1.rs:170-190 | decryption undoes encryption of any non-empty aligned text under usable keys |
| `Crypto1.CbcExactly` | src/ikev1/crypto1.rs:170-190 | on which keys, IVs and lengths encryption and decryption succeed, as an if-and-only-if |
| `Phase2.EncryptedRoundTrip` | src/ikev1/phase2.rs:66-101 | decryption gives back the encrypted payloads and the same next IV the sender holds; the zero padding is harmless |
| `Phase2.VerifiedExactly` | src/ikev1/phase2.rs:30-132 | for every payload list, `parse_encrypted` of `build_encrypted` accepts if and only if the list hashes like the list without its HASH payloads, which the receiver filters before recomputing; on acceptance both sides hold the same payloads and next IV. Lists without a HASH payload therefore always verify |
| `Phase1.SelectTransform` | src/ikev1/phase1.rs:69-93 | the nested loop with its `continue`s equals first-usable selection |
| `Phase1.SelectIsFirst` | src/ikev1/phase1.rs:69-93 | the selection is usable, no earlier transform of the offer is, and there is none exactly when no transform is usable |
| `Phase1.UsableExactly` | src/ikev1/phase1.rs:69-93 | a transform is usable with a hash and a group if and only if its attributes offer AES-CBC, 256 bits, that hash, that group and a supported authentication method |
| `Payloads1.AttrExactly` | src/ikev1/payloads.rs:143-195 | the value looked up is the number that the first attribute of the type stands for, in the short form or as two octets of the long one |
| `Phase1.AggressiveLockstep` | src/ikev1/phase1.rs:101-453 | the responder accepts message 1 exactly when the group is MODP and the share valid; the initiator accepts message 2 exactly when the responder's share is valid; then both states are equal in every field and message 3 verifies |
| `Phase1.StateFromPsk` | src/ikev1/phase1.rs:101-209 | an accepted message 1 leaves the key chain of the configured pre-shared key and of one Diffie-Hellman secret, and the IV of the two public values |
| `Phase1.RespondExactly` | src/ikev1/phase1.rs:101-209 | for every message 1: accepted exactly when it parses with its four payloads, its SA offers a usable transform and its share is valid for that group |
| `Phase1.HashIExactly` | src/ikev1/phase1.rs:252-279 | for every message 3, clear or encrypted: accepted exactly when its HASH is HASH_I written out |
| `Phase1.CompleteExactly` | src/ikev1/phase1.rs:390-453 | for every message 2: accepted exactly when it parses with its payloads, its share is valid and its HASH is HASH_R under the configured pre-shared key, written out; the state then has that SKEYID and the keys of the two shares, and message 3 proves HASH_I |
| `Phase1.Message2Says` | src/ikev1/phase1.rs:150-180 | message 2 echoes the one chosen transform, and carries the XAUTH vendor ID exactly for the XAUTH methods |
| `Quick.ChildrenMirror` | src/ikev1/quick.rs:117-124 | each side's outbound ESP SA is the other's inbound |
| `Quick.QuickLockstep` | src/ikev1/quick.rs:117-281 | over one shared Phase 1 state HASH(1), HASH(2) and HASH(3) verify, the IV chains are equal after every message, and the ESP SAs mirror each other |
| `Quick.Ikev1Lockstep` | src/ikev1/quick.rs:145-281 | Aggressive Mode and then Quick Mode, from message 1 to mirrored ESP SAs, for every PSK, identity, cookie, nonce and valid pair of shares |
| `Quick.RespondQuickExactly` | src/ikev1/quick.rs:230-268 | for every message 1: answered exactly when it proves HASH(1), written out, under the Phase 1 state and carries a nonce and an SPI; and what is then kept |
| `Quick.InitiatorCompletesExactly` | src/ikev1/quick.rs:185-209 | for every message 2: accepted exactly when it proves HASH(2), written out, and carries a nonce and an SPI; message 3 then carries HASH(3) and the child is derived from the two nonces and SPIs |
| `Quick.ChildDirections` | src/ikev1/quick.rs:117-124 | each direction is keyed by the SPI of its receiver: the feedback expansion over protocol, SPI and nonces |
| `Server1.Server.HandleOne` | src/ikev1/server.rs:80-132 | one call equals the step function on the two tables, for any datagram |
| `Server1.Server.TakeChild` | src/ikev1/server.rs:75-77 | returns the child of a cookie, if there is one, and removes it and nothing else |
| `Server1.StepEffect` | src/ikev1/server.rs:80-132 | the four ways any call can change the entry of a cookie, each tied to its event |
| `Server1.ChildrenHaveSessions` | src/ikev1/server.rs:80-132 | in every reachable state the cookies with a child are among those with a session |
| `Server1.EstablishedFrom` | src/ikev1/server.rs:80-132 | in every run, each ChildSaEstablished uses up one earlier QuickSaInit of its cookie with no Phase1SaInit in between; the child is the completion of that Quick state, built over the latest Phase 1 state |
| `Server1.ChildRestsOn` | src/ikev1/server.rs:108-128 | what a child rests on in any run: HASH(1) and HASH(3) under the SKEYID_a of the latest Phase 1 state, whose SKEYID is keyed by the configured pre-shared key, and not HASH_I |
| `Server1.ChildEstablishedExactly` | src/ikev1/server.rs:108-128 | in every run, a call reports ChildSaEstablished if and only if it is a Quick Mode datagram of that cookie, the session holds a Quick Mode state, and the datagram proves HASH(3) under it |
| `Server1.Phase1EstablishedExactly` | src/ikev1/server.rs:95-103 | in every run, a call reports Phase1Established if and only if it is an Aggressive Mode datagram of that cookie with a HASH and no SA, the cookie has a session, and the datagram proves HASH_I under its state |
| `Server1.Phase1SaInitExactly` | src/ikev1/server.rs:80-94 | in every run, a call opens a session if and only if it is an Aggressive Mode datagram of that cookie that Phase 1 accepts and the answer goes out |
| `Server1.QuickSaInitExactly` | src/ikev1/server.rs:105-121 | in every run, a call starts a Quick Mode if and only if its session is open and not in the middle of one, message 1 is accepted and the answer goes out |
| `Server1.PaidOnce` | src/ikev1/server.rs:108-128 | no QuickSaInit pays for two ChildSaEstablished |
| `Server1.ChildFrom` | src/ikev1/server.rs:75-132 | a child in the table was stored by the latest ChildSaEstablished of its cookie and has not been taken since |
| `Handshake1.ClientMeetsServer` | src/ikev1/server.rs:80-132 | from any server state and with any traffic under other cookies in between, the four messages of a client are answered by the four events in order, and its ESP SAs mirror the stored ones |
| `Handshake1.ThirdMessageIsOptional` | src/ikev1/server.rs:108-128 | a client with compatible keys that leaves out message 3 of Aggressive Mode gets Phase1SaInit, QuickSaInit and ChildSaEstablished, and mirrored ESP SAs |
| `Handshake1.ClientSends` | src/ikev1/quick.rs:145-211 | with compatible keys a client always gets to send all four messages |
| `Server2.Server.HandleOne` | src/ikev2/server.rs:81-111 | one call equals the step function on the two tables, for any datagram |
| `Server2.Server.TakeChild` | src/ikev2/server.rs:76-78 | returns the child of a pair, if there is one, and removes it and nothing else |
| `Server2.PlainAnswersFinally` | src/ikev2/exchange.rs:273-283 | without NAT detection and cookie policy the responder establishes or fails: the two other branches are never taken |
| `Server2.ChildrenHaveSessions` | src/ikev2/server.rs:81-111 | in every reachable state the SPI pairs with a child are among those with a session |
| `Server2.EstablishedFrom` | src/ikev2/server.rs:81-111 | in every run, each Established follows an answered IKE_SA_INIT of its SPI pair; its message opens under the latest one and carries an AUTH that proves the configured peer, written out; the identity reported is the one in it, and the child is derived from it |
| `Server2.EstablishedExactly` | src/ikev2/server.rs:88-107 | in every run, a call establishes a pair if and only if it is an IKE_AUTH datagram for it, the pair has a session that accepts it, and the answer goes out |
| `Server2.SaInitExactly` | src/ikev2/server.rs:81-92 | in every run, a call opens a session if and only if the datagram is an IKE_SA_INIT that says something acceptable and the answer goes out, and the pair is its SPI and the drawn one |
| `Server2.EstablishedAgain` | src/ikev2/server.rs:88-107 | any number of Established can follow one IKE_SA_INIT: every IKE_AUTH that the session accepts establishes the pair again, and all the children have the keys of that session, whatever their SPIs |
| `Server2.SessionWaits` | src/ikev2/server.rs:81-111 | whatever else the server is sent, a half-open SA is unchanged until its pair is opened again |
| `Handshake.PlainEstablishesIff` | src/ikev2/exchange.rs:215-434 | the server establishes on a client's first request exactly when the offer is acceptable, its first group is the group of the chosen suite, and the client's share is valid |
| `Handshake.DefaultReady` | src/ikev2/exchange.rs:90-103 | with the default offer those conditions hold for all secrets and nonces of both sides |
| `Handshake.ClientMeetsServer` | src/ikev2/server.rs:81-111 | from any server state and across other traffic, a client's IKE_SA_INIT and PSK IKE_AUTH end in SaInit and Established with its identity; it verifies the answer and learns identity and SPI; the CHILD SAs mirror each other and carry every packet both ways |

## Left out

- Internals of AES, GCM, CBC, HMAC, SHA, MD4, DES, X25519, RSA, ECDSA, DER and X.509, and the MSCHAPv2 functions: parameters, as described above. They are a table passed to each theorem rather than a module to be refined.
- That a code computed with a wrong key or over a tampered message differs from the right one: this needs unforgeability or collision resistance. What is proved is that each message is accepted exactly when its code is the right one, written out.
- AES-GCM's limit on plaintext length, and the difference between the library's crypto error strings: errors are an enumeration, one value per message of the source.
- Sockets, timeouts, clients and tunnels (src/transport.rs, src/tunnel.rs, src/ikev1/client.rs, src/ikev2/client.rs): only the message steps they call are modelled.
- The entropy source (src/entropy.rs): every draw is an arbitrary input.
- src/ikev2/natt.rs, src/ikev2/mobike.rs, src/ikev2/informational.rs, src/ikev1/modecfg.rs, src/role.rs: they build single payloads and constants from parts modelled here and keep no state of their own. NAT detection hashes appear as data of the SA_INIT response.
- src/ikev2/ike_rekey.rs: only the responder's half is in the library.
- `Phase1State::resume`, `peer_id_from_auth` and the other accessors: they copy or read fields and take no part in the exchanges; a resumed state has no transcript to verify HASH_I with.
- The trace printing in src/ikev2/rekey.rs:164-167.
- `next_id = msg_id + 1` in src/ikev2/eap_auth.rs:236 is modelled as wrapping at 2^32; a debug build stops there instead.
- Fragmentation.SortInPlace: the sort itself belongs to the standard library; the model sorts the array in place by insertion, which has the same stable result.
- Messages that bring about success for nobody, in the case described above, are not written out for real primitives: the exact condition covers all of them, and what a peer can compute is not part of the model.
