# Verification of the ADTP core

This project models the logic that ADTP's authorization rests on and proves what it promises. ADTP lets a
platform grant capabilities to agents in a signed root token; an agent passes on part of what it holds by signing a
RESTRICT block that names its parent by content hash and only adds caveats. A verifier walks from the leaf to the
root, checks linkage, signatures, time, revocation and authority, and then spends the nonce of a signed invocation.

`dafny verify dfyconfig.toml` checks everything.

## How the model is laid out

- **Canonical JSON.** `Json` parses RFC 8259 text into a tree that keeps how strings were escaped; `Jcs` says what a
  tree denotes and prints a value in the canonical form of RFC 8785; `Profile` is I-JSON on trees and `Reading` the
  order in which its faults and those of the syntax are met; `JcsWriter` is the canonicalizer as it runs;
  `TextEncoding` is the octet scan for bad escapes, related to the grammar in `EscapePairs`; `Utf8`, `Lex`,
  `Positional` and `Text` are what these stand on. `Canonicalizer` joins them: two documents have one canonical form
  exactly when they denote one value.
- **Resources.** `Uri` is the URI profile, `UriCanonical` what its outputs are, `UriCovers` the wildcard order on
  them, `UriRequests` what the guard on requests is worth, `UriOverlap` when two patterns have a request in common.
- **Credentials and chains.** `Credential`, `Blocks` (the wire form of a RESTRICT block), `Base64` and `Tokens` (that
  of a root token), `Chain` and `ChainPaths` (the walk and the prf paths it finds), `Roots` (issuing root tokens),
  `Issuance` and `Delegating` (minting, and what it does to the service), `DelegationDepth` (how far a root can be
  delegated).
- **Verification.** `Steps` and `Verifier` are the thirteen steps in their order; `Acceptance` states the same
  without steps; `Attenuation` relates a chain to its suffixes; `Grants` compares first-match with disjunction; `Pop`
  is proof of possession and the nonce cache.
- **Revocation and the service.** `Revocation`, `Registration`, `Cascading`; `Service` is the state machine over
  all of it, `MemoryStore` the objects that implement its actions.
- **Identity and audit.** `Base58`, `DidKey`, `Audit`.
- **Two concurrent protocols.** `Siem` (the export buffer around a post that may fail) and `Jwks` (coalesced key
  fetches with the lock, the network call and the hand-over as separate steps).

Objects that the program updates in place are classes here, and each of their methods is tied to a function of the old
state; theorems over whole runs are about the state machines made of those functions. A Dafny `char` is a Unicode
scalar value, so a Go string that is valid UTF-8 is a Dafny `string`; octets are `Bytes`. Content hashing, key
resolution and signature checking are parameters: hashes are assumed collision-free and never empty, signatures of
JSON objects to verify and to depend on the signing input alone, revocation entries that the platform mints for the
statuses and scopes it may set to be accepted, and the JSON of root tokens to be read back as the claims it was made
from (`Tokens.CompactPlatformIsGood` proves the rest of the compact form). `Consistency` shows that these assumptions
can be met (`HashesExist`, `HashersExist`, `IssuersExist`, `SignersExist`, `PlatformsExist`), by checks that refuse
what the code refuses: unknown statuses and scopes, and signatures over anything but an object. It also shows that one
delegated invocation is accepted.

## What the proofs found

Where a comment in the repository and the code differ, the model follows the code.

- A capability set is described as a disjunction. Step 8 tries only the first capability that matches the request, so
  a narrow grant listed first can hide a wider one (`Grants.ShadowedGrant`). For a list of (ability, pattern) pairs the
  two readings agree on every request and under every choice of constraints exactly when no two pairs of one ability
  have overlapping patterns (`Grants.DisjunctionExactly`), and overlap is decided segment by segment on the canonical
  patterns (`UriOverlap.OverlapsExactly`).
- A token without a delegation_depth may not delegate, and issuance refuses to (`DelegationDepth.IssuanceRefuses`).
  The verifier does not enforce this. Over content-addressed stores of signed blocks, a chain of n hops on a stored
  root that passes steps 0 and 2 exists exactly when n is within the clamped depth, the weight limit leaves room, the
  root has an audience, and n is at most its delegation_depth if it has one (`DelegationDepth.HopsExactly`).
- A root token may be issued with more than a thousand capabilities and constraints
  (`Consistency.HeavyGrantNeverBuilds` is an instance). It is stored and registered, and no chain can be built on it;
  every other issued token is a sound chain of its own (`Roots.IssuedRoot`).
- A block has one encoding (`Blocks.OneEncoding`), a root token has not: its signature segment is read leniently, so
  that line ends and the spare bits of the last character are skipped. Two texts are read as one token exactly when
  they agree in everything else (`Tokens.SameTokenExactly`), and every token has another text
  (`Tokens.AnotherSpelling`). The spellings have different CIDs and pass the same checks on the chain
  (`Tokens.SpellingsVerifyAlike`), so a revocation by CID concerns one of them, whereas one by audience concerns all.
- The nonce cache is there to defeat replay. It does for every invocation this code mints, as long as no attempt
  pauses for 240 seconds or more between its clock readings (`Pop.MintedNeverReplayed`). In general one
  invocation can be accepted twice exactly when its exp is later than iat - 60 and no later than iat + 60 plus the
  longest pause between an attempt's clock reading and its cache call: `Pop.ReplayExactly` (which also settles the
  edge case of an invocation accepted in its very last second).
- Within one revocation list the first of several entries with the same subject and sequence wins. The order of a list
  matters exactly when two different entries of one subject tie at the highest sequence listed for it and that
  sequence beats the cached one (`Revocation.ListOrderIrrelevant`).
- A delegation is stored before its chain is built. When the chain is refused the block stays in the store,
  unregistered. A later reconciliation pass, whenever it comes, registers the block exactly when its chain fits the hard
  cap of 100 hops and the weight limit (`Delegating.PassRegisters`): a block refused for the configured depth is made
  good, one refused for its weight never is (`Consistency.HeavyDelegationStaysUnregistered` is an instance).
- A cascade posts entry by entry and requests may come between any two (`Service.CompromiseInStages`). The entries
  stay posted when the emergency channel then fails; only the closing audit record is missing
  (`Cascading.ExecuteCascade`).
- A parameter_schema or a caveat of an unknown type is stored with its payload in canonical form, so that a minted
  block parses back to itself exactly when the payloads were canonical to begin with (`Issuance.MintParses`,
  `Issuance.MintSettles`).
- The guard that keeps wildcards out of requests reads the resource as it was sent. What passes it is concrete in
  canonical form (`UriRequests.RequestIsConcrete`), and every concrete canonical URI is the canonical form of some
  resource that passes it (`UriRequests.AdmissibleSpelling`).

## Model

| member | source | states |
|---|---|---|
| Canonicalizer.CanonicalizeBytes | internal/signing/jcs.go:67-91 | the canonicalizer from octets to octets gives the canonical form of the value the document denotes and fails exactly when there is none, with the first error: of the encoding scan, then in reading order of the tokens, then of trailing data |
| Reading.ReadExactly | internal/signing/jcs.go:192-312 | reading token by token gives the first fault of the tree on well-formed text, the rest of the text when there is none, and an error on any other text |
| Canonicalizer.AcceptedExactly | internal/signing/jcs.go:67-91 | a document is accepted if and only if it is UTF-8, well-formed JSON, every surrogate escape is paired, and throughout the tree no object repeats a key and no number has a point or an exponent |
| Profile.FaultsExactly | internal/signing/jcs.go:243-312 | there is a first fault, a repeated key or a non-integer, if and only if the document leaves the profile |
| JcsWriter.DenotesExactly | internal/signing/jcs.go:243-370 | a document of grammar-conforming numbers denotes a value if and only if it keeps to the profile |
| Canonicalizer.SameFormSameValue | internal/signing/jcs.go:67-91 | two accepted documents have equal canonical octets if and only if they denote the same value |
| Canonicalizer.CanonicalInjective | internal/signing/jcs.go:96-102 | canonical octets determine the value |
| Canonicalizer.CanonicalDenotes | internal/signing/jcs.go:67-91 | canonical octets are an accepted document that denotes the value they were made from |
| Canonicalizer.Idempotent | internal/signing/jcs.go:67-91 | canonicalizing a canonical form changes nothing |
| Canonicalizer.MemberOrderIrrelevant | internal/signing/jcs.go:243-292 | objects with the same members in any order denote the same value |
| Canonicalizer.SignatureInputBinds | internal/signing/sign.go:46-72 | two objects have the same signing input if and only if they differ at most in "sig" |
| JcsWriter.WriteString | internal/signing/jcs.go:320-352 | the writer appends the minimal-escape literal of the string |
| JcsWriter.WriteNumber | internal/signing/jcs.go:357-370 | a literal of the number grammar is written as the numeral of the integer it stands for, or refused when it has a point or an exponent |
| JcsWriter.Insert | internal/signing/jcs.go:277-280 | insertion keeps the UTF-16 order and adds exactly one entry |
| JcsWriter.SortEntries | internal/signing/jcs.go:277-280 | the result is the same entries in UTF-16 key order |
| JcsWriter.CanonicalizeDoc | internal/signing/jcs.go:192-233 | the text written for a value is the canonical text of what it denotes, and the error is its first fault in reading order |
| JcsWriter.CanonicalizeArray | internal/signing/jcs.go:294-312 | the text written for an array is the canonical text of what it denotes |
| JcsWriter.CanonicalizeObject | internal/signing/jcs.go:243-292 | the text written for an object is the canonical text of what it denotes; a repeated key is refused before its value is read |
| JcsWriter.SortedEntries | internal/signing/jcs.go:277-292 | entries in UTF-16 order are the fields of the object in canonical key order |
| JcsRoundTrip.ParseOfString | internal/signing/jcs.go:320-352 | reading back a written string literal and unescaping it gives the string |
| JcsRoundTrip.ParseOfPrint | internal/signing/jcs.go:192-312 | canonical text of any value, followed by anything that cannot extend it, parses to a tree that denotes the value |
| JcsRoundTrip.DocumentOfPrint | internal/signing/jcs.go:67-91 | canonical text is a whole document that denotes its value |
| JcsRoundTrip.PrintInjective | internal/signing/jcs.go:192-312 | different values have different canonical texts |
| Jcs.Utf16Injective | internal/signing/jcs.go:243-292 | the UTF-16 key of a member determines the member's name |
| Lex.CompareUnits | internal/signing/jcs.go:377-394 | the comparison loop computes the lexicographic order of code units |
| Lex.CompareTransitive | internal/signing/jcs.go:377-394 | that order is transitive |
| Lex.CompareFlip | internal/signing/jcs.go:377-394 | exchanging the operands negates the comparison |
| Lex.CompareZero | internal/signing/jcs.go:377-394 | two keys compare equal if and only if they are the same units |
| Lex.SortedUnique | internal/signing/jcs.go:277-280 | there is one strictly sorted enumeration of a set of keys |
| TextEncoding.Hex4At | internal/signing/jcs.go:170-188 | four hexadecimal octets are read as their value, within bounds, and anything else is refused |
| TextEncoding.CheckUnicodeEscape | internal/signing/jcs.go:136-160 | one escape is judged as the scan specifies and the index moves past what was read |
| TextEncoding.ValidateTextEncoding | internal/signing/jcs.go:125-167 | the loop over octets, with its moving index and in-string flag, gives the verdict of the scan and never reads out of bounds |
| TextEncoding.ScanAgrees | internal/signing/jcs.go:125-167 | the scan over octets and the same scan over characters agree on UTF-8 text |
| EscapePairs.EncodingAccepts | internal/signing/jcs.go:113-167 | a well-formed document passes the scan if and only if every surrogate escape in its strings belongs to an ordered pair |
| EscapePairs.ReplacementCollides | internal/signing/jcs.go:113-124 | without the scan, a lone surrogate and the replacement character would denote the same string |
| Utf8.DecodeOfEncode | internal/signing/jcs.go:320-352 | encoding text as octets loses nothing |
| Utf8.EncodeOfDecode | internal/signing/jcs.go:125-128 | octets that decode are the encoding of what they decode to |
| Uri.NormalizePath | internal/credential/capability.go:258-307 | the path loop computes the canonical path or the first error |
| UriCanonical.OutputIsCanonical | internal/credential/capability.go:116-143 | every output is rendered from well-formed components |
| UriCanonical.FixedPointsAreCanonical | internal/credential/capability.go:105-143 | the URIs that map to themselves are exactly those |
| UriCanonical.Idempotent | internal/credential/capability.go:105-143 | canonicalizing twice is canonicalizing once |
| UriCanonical.CanonicalizeKeepsMeaning | internal/credential/capability.go:105-143 | scheme and host up to case, effective port and decoded path octets are kept |
| UriCanonical.OutputProfile | internal/credential/capability.go:105-143 | lowercase scheme and host, no default port, no query or fragment, no dot-segment, only uppercase escapes of octets that are neither unreserved nor separators |
| UriCovers.SplitRecovers | internal/credential/uri_covers.go:64-75 | splitting a canonical URI recovers its scheme, authority and path |
| UriCovers.CoversReflexive | internal/credential/uri_covers.go:17-60 | every valid URI covers itself |
| UriCovers.CoversAntisymmetric | internal/credential/uri_covers.go:17-60 | canonical URIs that cover each other are equal |
| UriCovers.CoversTransitive | internal/credential/uri_covers.go:17-60 | coverage is transitive |
| UriCovers.CoversByCanonical | internal/credential/uri_covers.go:17-29 | coverage depends on canonical forms only and fails closed on invalid URIs |
| UriCovers.CoversIsInclusion | internal/credential/uri_covers.go:8-60 | for a child without "**", a parent covers it if and only if it covers every concrete URI the child covers |
| UriCovers.ReservedCoversNothing | internal/credential/uri_covers.go:14-16 | a pattern with a "**" segment covers no concrete URI |
| UriRequests.NormalizeSegments | internal/credential/capability.go:258-307 | path normalization works segment by segment |
| UriRequests.RequestIsConcrete | internal/verify/steps.go:354-366 | a resource that passes the wildcard guard as sent names one resource in canonical form |
| UriRequests.AdmissibleSpelling | internal/verify/steps.go:354-366 | every concrete canonical URI is the canonical form of a resource that passes the guard |
| UriRequests.RequestsDecideCoverage | internal/verify/steps.go:354-372 | for a child without "**", coverage is inclusion of the admissible requests |
| UriOverlap.OverlapsExactly | internal/credential/uri_covers.go:8-60 | two canonical patterns have an admissible request in common if and only if scheme and authority agree and their segments unify |
| Chain.BuildChain | internal/delegation/chain.go:82-138 | the loop over CIDs, seen set and weight computes the walk |
| Chain.ClampDepth | internal/delegation/chain.go:83-88 | the effective cap lies between 1 and 100 and is the configured one when that does |
| Chain.MemoryProofStore.Put | internal/delegation/chain.go:186-193 | octets are stored under their hash and nothing else changes |
| Chain.MemoryProofStore.PutVerified | internal/delegation/chain.go:198-204 | octets are stored if and only if they hash to the claimed CID |
| ChainPaths.BuildsExactly | internal/delegation/chain.go:82-138 | a chain is built if and only if the prf path reaches a root within the clamped depth and total weight 1000 |
| ChainPaths.PathUnique | internal/delegation/chain.go:82-138 | a leaf has at most one path to a root |
| ChainPaths.PathDistinct | internal/delegation/chain.go:93-102 | a path never repeats a CID |
| ChainPaths.PathShape | internal/delegation/chain.go:142-172 | a path is blocks, each naming the next, over one root token |
| ChainPaths.SuffixBuilds | internal/delegation/chain.go:82-138 | every suffix of a built chain is the chain of its own head |
| ChainPaths.BuildMonotone | internal/delegation/chain.go:82-138 | adding credentials or raising the cap never changes a built chain |
| ChainPaths.FailsAtFirstFault | internal/delegation/chain.go:94-131 | the walk reports an error if and only if it is the first check to fail along the prf links |
| ChainPaths.CycleNeverBuilds | internal/delegation/chain.go:98-101 | a leaf whose prf links lead into a cycle, or lie on one, has no chain under any cap |
| ChainPaths.PutExtends | internal/delegation/chain.go:186-193 | with a collision-free hash, storing never replaces a credential |
| Blocks.ConstraintBack | internal/credential/capability.go:572-639 | a caveat serialized and decoded again comes back |
| Blocks.BlockBack | internal/credential/restrict.go:57-68 | the JSON object of a block decodes to the block |
| Blocks.ParsesExactly | internal/credential/restrict.go:147-183 | octets parse to a block if and only if they are the canonical serialization of it, it is complete and its raw payloads are canonical and say the type, spelled in any case, that they have |
| Blocks.OneEncoding | internal/credential/restrict.go:172-182 | no two byte strings parse to the same block |
| Issuance.CreateRestrictBlock | internal/credential/restrict.go:88-141 | the checks in order, then a block that inherits the parent's window and CID, signed and serialized |
| Issuance.DelegateRestrict | internal/delegation/delegate.go:67-76 | an exhausted parent is refused; otherwise what is minted, and only that, is stored |
| Issuance.MintParses | internal/credential/restrict.go:88-183 | a minted block parses back to itself if and only if the payloads it carries are canonical |
| Issuance.MintSettles | internal/credential/restrict.go:88-192 | whenever payloads say the types they have, it parses to itself with the payloads made canonical, and the signature verifies over that |
| Issuance.ModelledMintParses | internal/credential/restrict.go:88-183 | so does any block minted with caveats of the eight kinds that carry no raw payload |
| Issuance.MintVerifies | internal/credential/restrict.go:129-192 | the signature of a minted block verifies over the block that carries it |
| Issuance.ParentCheckIsLinkage | internal/credential/restrict.go:213-233 | the block's check against its parent is step 2's linkage together with the presence of caveats, but for the sign of the depth |
| Issuance.MintExtends | internal/delegation/delegate.go:23-61 | a block minted from the head of a chain that passes steps 0 and 2 makes a longer chain that does, as minted and as stored |
| Issuance.MintedChain | internal/delegation/delegate.go:23-76 | stored, a minted block with its payloads made canonical has its parent's chain with itself in front, if and only if depth and weight leave room |
| Delegating.DelegationTakesEffect | api/v1/handlers.go:262-309 | a delegation in any reachable state registers the new credential under exactly its whole chain, or stores it and registers nothing when there is no room |
| Delegating.PassRegisters | internal/revocation/reconciliation.go:52-91 | after any further run, a pass registers a delegated block under an ancestor if and only if its chain fits the hard cap and the weight limit |
| Consistency.HeavyDelegationStaysUnregistered | api/v1/handlers.go:288-309 | an instance: one caveat on a root of weight 1000 makes a block that is stored and that no pass ever registers |
| Steps.Step6Revocation | internal/verify/steps.go:278-309 | in whatever order subjects are looked up, the step passes if and only if no CID or audience is denied, and reports some denied subject's error |
| Steps.Authorize | internal/verify/steps.go:354-396 | the search loop and the caveat loop compute the authorization of step 8 |
| Steps.NumericParam | internal/verify/steps.go:559-578 | a floating-point parameter counts as an integer if and only if it equals one in 64-bit range, and then as that one |
| Steps.FirstMatch | internal/verify/steps.go:368-376 | the capability found matches the request, and when none is found none matches |
| Verifier.Step10PoP | internal/verify/steps.go:433-449 | the invocation checks pass exactly as specified, and the nonce is spent exactly when they do, even if the channel binding then fails |
| Verifier.RunSteps | internal/verify/verifier.go:107-207 | the verdict, the error of the first failing step, and the nonce cache after the thirteen steps |
| Verifier.Verify | internal/verify/verifier.go:107-207 | the same, with or without an audit log; a log gets exactly one entry that records the outcome, and stays intact |
| Acceptance.AcceptsExactly | internal/verify/verifier.go:107-207 | an invocation is accepted if and only if one chain satisfies a flat list of conditions on linkage, trust, signatures, time, revocation, grant, presentation and registration |
| Consistency.SomeInvocationIsAccepted | internal/verify/verifier.go:107-207 | one instance, with constant parsers and signature checks that always pass: a one-hop delegation, exercised in time by its audience, is accepted |
| Acceptance.LinkagePointwise | internal/verify/steps.go:196-225 | step 2 passes if and only if every hop narrows its parent |
| Acceptance.SignaturesPointwise | internal/verify/steps.go:245-260 | step 4 passes if and only if every element is signed by its issuer |
| Acceptance.TemporalPointwise | internal/verify/steps.go:264-274 | step 5 passes if and only if now lies in every widened window |
| Acceptance.RevocationPointwise | internal/verify/steps.go:278-322 | step 6 passes if and only if no element's CID or audience is denied, or unknown at the HIGH tier |
| Acceptance.TrustSplit | internal/verify/steps.go:229-242 | steps 3 and 9 together say that the root is trusted directly or by a policy whose depth is kept |
| Attenuation.DelegatorsMayToo | internal/verify/steps.go:123-430 | when a leaf passes steps 0 to 9 for a request, every ancestor's chain is the suffix and passes them for that request with the same capability, one of the root's |
| Attenuation.GrantedExactly | internal/verify/steps.go:354-396 | step 8 grants if and only if the request is concrete, the first matching root capability permits it and so does every caveat |
| Attenuation.GrantNamesOneResource | internal/verify/steps.go:354-396 | a granted request names one canonical resource, covered by the capability and by every resource caveat |
| Grants.DisjunctionExactly | internal/verify/steps.go:368-384 | first match and disjunction agree on every admissible request, whatever constraints are put on a list of grants, if and only if no two of them overlap; constraints that a token may carry are enough to tell |
| Grants.FirstMatchIsSound | internal/verify/steps.go:368-384 | what the first match permits, some capability permits |
| Grants.FirstMatchSuffices | internal/verify/steps.go:368-384 | for one request that no two capabilities match, the two readings agree |
| Grants.ShadowedGrant | internal/verify/steps.go:368-384 | an instance in which a narrow grant hides an unlimited one |
| Attenuation.DepthBound | internal/verify/steps.go:94-109 | a root depth M bounds the hops by M and the leaf's depth-left by M minus the hops |
| DelegationDepth.HopsExactly | internal/verify/steps.go:94-109 | over addressed stores, a stored root carries a chain of n hops that passes steps 0 and 2 if and only if n is within the clamped depth, the weight limit and, if there is one, the root's delegation_depth |
| DelegationDepth.IssuanceRefuses | internal/delegation/delegate.go:23-35 | issuance refuses to delegate from a root if and only if it has no delegation_depth |
| Attenuation.LeafWindowDecides | internal/verify/steps.go:264-274 | on a linked chain step 5 passes if and only if it passes for the leaf alone |
| Pop.MemoryNonceCache.CheckAndStore | internal/verify/pop.go:88-99 | a live nonce is reported and kept, anything else is recorded afresh |
| Pop.VerifyInvocation | internal/verify/pop.go:143-198 | the checks in order; the cache changes only when they all pass, signature included, and the nonce is not live |
| Pop.NonceHeld | internal/verify/pop.go:88-99 | an accepted nonce stays recorded and is renewed only after its expiry |
| Pop.ReplayExactly | internal/verify/pop.go:143-198 | over all runs, an invocation can be accepted twice if and only if it is well signed and its lifetime falls in the replayable window |
| Pop.MintedNeverReplayed | internal/verify/pop.go:106-136 | a minted invocation is never accepted twice while attempts pause for less than 240 seconds |
| Revocation.MemoryRevocationCache.GetStatus | internal/revocation/cache.go:29-38 | the latest entry, or nothing when there is none or it reinstates |
| Revocation.MemoryRevocationCache.CurrentSeq | internal/revocation/cache.go:103-110 | the sequence of the latest entry, or 0 |
| Revocation.MemoryRevocationCache.Revoke | internal/revocation/cache.go:43-58 | the error, if any, and no change then; otherwise the entry replaces one of strictly lower sequence |
| Revocation.MemoryRevocationCache.UpdateFromList | internal/revocation/cache.go:66-88 | a refused list changes nothing; an accepted one raises the list sequence and applies every entry that is higher than the cached one |
| Revocation.LatestWins | internal/revocation/cache.go:43-88 | after any run the cache holds each subject's highest-sequence accepted entry, the first among equals |
| Revocation.CacheStepRaises | internal/revocation/cache.go:43-88 | a subject's entry is kept or replaced by one of strictly higher sequence |
| Revocation.ListOrderIrrelevant | internal/revocation/cache.go:75-86 | every order of a list has the same outcome if and only if no two different entries of a subject tie at its highest listed sequence above the cached one |
| Revocation.TieIsDecidedByOrder | internal/revocation/cache.go:75-86 | given such a tie, either entry is held after some order of the list |
| Registration.MemoryRegistrationIndex.Register | internal/revocation/cascade.go:154-164 | the loop registers the credential under every chain CID |
| Registration.RegisterAllPairs | internal/revocation/cascade.go:154-164 | registration adds exactly the pairs it names |
| Registration.MemoryRegistrationIndex.Contains | internal/revocation/reconciliation.go:36-45 | whether the pair is recorded |
| Registration.MemoryRegistrationIndex.FindDescendants | internal/revocation/cascade.go:168-179 | the registered credentials other than the CID itself, sorted by octets |
| Lex.SortSet | internal/revocation/cascade.go:171-178 | a set enumerated in any order and sorted is its one sorted enumeration |
| Registration.Reconcile | internal/revocation/reconciliation.go:52-91 | the nested loops compute the repaired index and the counters |
| Registration.ReconcilePairs | internal/revocation/reconciliation.go:52-78 | a pass adds exactly the pairs the listed credentials' chains call for |
| Registration.SecondPassIsIdle | internal/revocation/reconciliation.go:47-51 | a second pass changes nothing and reports zero repairs |
| Cascading.ExecuteCascade | internal/revocation/cascade.go:49-130 | the primary entry and then one entry per registered descendant are posted, each with the next sequence, pushed as one batch and reported; the log gets a record of the post and, unless the push fails, of the cascade |
| Cascading.CascadeDenies | internal/revocation/cascade.go:49-130 | afterwards the credential is COMPROMISED and its registered descendants CASCADE, with higher sequences, and nobody else is touched |
| Service.RunKeepsInv | api/v1/handlers.go:198-309 | every run of actions and of their stages keeps credentials under their hashes, the index pairing a credential only with itself and CIDs on its prf path, and every credential there was |
| Service.ReachableInv | api/v1/handlers.go:198-309 | so this holds in every state reachable from the empty service |
| Service.DelegateInStages | api/v1/handlers.go:288-309 | a delegation is a store followed by single registrations, so that the run theorems cover requests that come in between |
| Service.IssueInStages | api/v1/handlers.go:224-233 | the same for the issue of a root |
| Service.PassInStages | internal/revocation/reconciliation.go:52-91 | a reconciliation pass from a state that keeps the invariant is a run of single registrations |
| Service.CompromiseInStages | internal/revocation/cascade.go:49-130 | a cascade is a run of single posts |
| Service.ReconciledExactly | internal/revocation/reconciliation.go:52-91 | after a pass the descendants of c are exactly the stored credentials other than c whose chain at the hard cap contains c |
| Service.ReconcileTwice | internal/revocation/reconciliation.go:47-91 | repeating the pass at once repairs nothing |
| Service.CascadeCovers | internal/revocation/cascade.go:49-130 | a cascade after a pass denies the credential and everything that resolves through it |
| Service.DeniedOverRun | internal/revocation/cache.go:29-88 | a denied subject stays denied over any run without an accepted higher entry that lifts it |
| Service.RevocationHolds | internal/verify/steps.go:278-322 | over any such run every verification that looks the subject up at some moment of it, for a credential whose chain carries the subject, is refused |
| Service.ChainsPersist | store/memory/store.go:100-121 | a chain once built is the same chain to every later walk, also one that reads each credential at its own moment of a run, inline leaf or not |
| Service.ReadsAfterwards | internal/verify/verifier.go:107-207 | a verification against one later state is a case of one that runs during the run |
| Service.RevokedStaysRefused | internal/verify/verifier.go:107-207 | a credential that carries a denied subject at some time is refused from then on until the subject is lifted, by verifications that run while requests change the service too |
| Service.DescendantsStayRefused | internal/verify/verifier.go:107-207 | so is everything whose chain passes through that credential, stored later or not |
| Service.AcceptedIsAuthorized | internal/verify/verifier.go:107-207 | an accepted invocation was within the authority of every delegator on its chain |
| MemoryStore.MemoryBackend.PutCredential | store/memory/store.go:100-109 | the octets are stored under their hash, which is listed once |
| Roots.CreateUcan | internal/credential/ucan.go:82-118 | the checks on key and claims in order, capability by capability, then the token |
| Roots.IssuedRoot | api/v1/handlers.go:198-240 | an issued token is registered and is its own chain, from the platform to the agent, sound and in its window for exactly the requested seconds, if and only if it weighs at most 1000 |
| Consistency.HeavyGrantNeverBuilds | api/v1/handlers.go:198-240 | an instance: a grant of weight 1001 is issued, stored and registered, and has no chain |
| Base64.DecodeOfEncode64 | internal/credential/ucan.go:113-117 | base64url decoding undoes encoding on all byte strings |
| Base64.SameOctets | internal/credential/ucan.go:124-141 | two texts that decode are decoded alike if and only if their digits, line ends left out, agree up to the spare bits of the last |
| Tokens.CompactBack | internal/credential/ucan.go:89-141 | the compact text of a header, a payload and a signature is read back as those, with the first two segments as signing input |
| Tokens.TokenIsNoBlock | internal/delegation/chain.go:142-150 | what has the structure of a token is never taken for a block |
| Tokens.CompactPlatformIsGood | internal/credential/ucan.go:89-194 | a platform that writes compact tokens and can read back their JSON has its tokens read back as tokens |
| Tokens.SameTokenExactly | internal/credential/ucan.go:124-194 | two texts are read as the same token if and only if signing inputs are equal and signature segments agree but for line ends and spare bits |
| Tokens.AnotherSpelling | internal/credential/ucan.go:124-194 | every token has a second text |
| Tokens.SpellingsVerifyAlike | internal/verify/steps.go:123-430 | two spellings of a root have different CIDs, agree on steps 0 to 5 and 7 to 9, and differ in what step 6 looks up in the CID alone |
| MemoryStore.MemoryBackend.IssueCredential | api/v1/handlers.go:198-240 | a request from end to end: each refusal changes nothing, success stores the token and registers it under itself |
| MemoryStore.MemoryBackend.StoreAndRegister | api/v1/handlers.go:288-309 | the block is stored, and registered under its chain when there is one |
| MemoryStore.MemoryBackend.DelegateRestrict | api/v1/handlers.go:242-284 | a request from end to end: each refusal changes nothing, success is the delegation step for what was minted |
| MemoryStore.MemoryBackend.RevokeSubject | api/v1/handlers.go:422-478 | refusals change nothing; COMPROMISED on a credential cascades, anything else posts the next entry; the audit log gets the records of what was done |
| MemoryStore.MemoryBackend.UpdateFromList | store/memory/store.go:167-169 | the list step of the service |
| MemoryStore.MemoryBackend.ReconcileIndex | api/v1/handlers.go:533-547 | the reconciliation step of the service, with its report |
| Base58.Base58Encode | internal/identity/base58.go:36-59 | division, padding and in-place reversal, all within the reserved capacity, compute the encoding |
| Base58.Base58Decode | internal/identity/base58.go:63-83 | the digit loop computes the decoding and fails on any character outside the alphabet |
| Base58.ReverseInPlace | internal/identity/base58.go:54-57 | the swap loop reverses the cells in use |
| Base58.DecodeOfEncode | internal/identity/base58.go:36-83 | decoding undoes encoding on every byte string |
| Base58.EncodeOfDecode | internal/identity/base58.go:36-83 | encoding undoes decoding on every string over the alphabet |
| Base58.EncodedLength | internal/identity/base58.go:42-43 | the encoding of n octets has at most n * 138 / 100 + 1 characters |
| Base58.AlphabetSpelled | internal/identity/base58.go:11-14 | the digit characters spell the alphabet |
| DidKey.ParsesExactly | internal/identity/didkey.go:55-91 | an identifier parses to a key if and only if it is the identifier of that 32-byte key |
| DidKey.IdentifiersDistinct | internal/identity/didkey.go:55-60 | different keys have different identifiers |
| Audit.HashBinds | internal/audit/audit.go:92-111 | equal entry hashes come only from equal fields |
| Audit.MemoryAuditLog.Append | internal/audit/audit.go:115-139 | the log stays linked with increasing sequence numbers; a refused event uses up a number and changes nothing else |
| Audit.MemoryAuditLog.VerifyChain | internal/audit/audit.go:164-183 | the check passes if and only if every entry carries its own hash and its predecessor's |
| Audit.LastHashPinsLog | internal/audit/audit.go:164-183 | two intact logs that end in one hash have the same length and the same records |
| Siem.Exporter.Enqueue | internal/siem/siem.go:87-103 | the event is appended, the oldest dropped over the cap, a full batch signalled |
| Siem.Exporter.TakeBatch | internal/siem/siem.go:127-134 | a flush takes the whole buffer unless it is empty |
| Siem.Exporter.Requeue | internal/siem/siem.go:138-145 | a failed batch goes back in front, within the cap |
| Siem.RunKeepsInv | internal/siem/siem.go:87-147 | over any interleaving the buffer is the newest stretch of the stream within its cap, sent batches are disjoint increasing stretches, and an event is lost only when maxBuffered newer ones exist |
| Siem.SentOnce | internal/siem/siem.go:126-147 | no event is sent twice |
| Siem.TrimEvents | internal/siem/siem.go:90-94 | dropping events and dropping their positions agree |
| Jwks.StepKeepsInv | api/v1/oidc.go:190-219 | every step of every caller keeps mutual exclusion, single ownership of each fetch and the books on the running one |
| Jwks.OneFetchUnlocked | api/v1/oidc.go:190-219 | in every interleaving at most one caller is fetching, and it does not hold the lock |
| Jwks.OnlyFetchedKeys | api/v1/oidc.go:207-213 | cached keys and keys handed out were returned by a successful fetch |
| Jwks.WaiterGetsItsFetch | api/v1/oidc.go:197-201 | a released waiter gets what the fetch it joined returned |
| Jwks.WaiterIsReleased | api/v1/oidc.go:197-218 | under every fair schedule a waiter whose fetch has returned is released with that result, even if the network never answers again |
| Jwks.EveryCallReturns | api/v1/oidc.go:190-219 | under every fair schedule with a network that answers, all calls return |
| Jwks.CircleIsFair | api/v1/oidc.go:190-219 | taking turns in a circle is a fair schedule |

## Left out

- Blocks.ParsesExactly: integers have any size, where the library refuses those beyond 64 bits; and the library's nesting limit of 10000 levels, which binds raw payloads nested deeper, is not modelled. Names that match up to case only are modelled for "type", where they can be accepted; anywhere else they make octets that are refused for not being canonical.
- Steps.NumericParam: floating-point numbers are reals; infinities and not-a-number, which bound nothing, are parameters of another kind.
- Chain.BuildChain: a proof store that fails for other reasons than absence is a store without the credential.
- Cascading.ExecuteCascade: a registration index that fails, and an audit log that refuses these records, are not modelled; the in-memory ones never do.
- Registration.Reconcile: an index whose registration fails is not modelled; the in-memory one never does.
- Verifier.RunSteps: latency and the slow-verification callback are not modelled; the clock readings of steps 5, 8, 10 and 12 are separate inputs.
- MemoryStore.MemoryBackend.StoreAndRegister: its own result is for a call that runs undisturbed; what other requests between its stages can do to the state is covered by the runs of stages in Service.
- MemoryStore.MemoryBackend.RevokeSubject: likewise for an undisturbed call; an entry posted between reading a sequence and posting the next one makes the second post a refusal, which is a run of Post actions.
- MemoryStore.MemoryBackend.IssueCredential: making the JSON of a token and its Ed25519 signature is a parameter; the agent registry is one too, and the audit record of an issue or a delegation is not modelled.
- Ed25519, SHA-256, base32 and RSA: hashes and signatures are parameters with the properties stated above.
- 64-bit overflow of timestamps and sequence numbers: integers are unbounded, except where the expiry of an issued token is computed.
- HTTP routing, request limits, middleware, configuration, OIDC token claims, key stores and the daemon.
- The PostgreSQL backend, whose meaning is in SQL and whose sequence rules differ from the in-memory cache.
- Agent lifecycle, the authority matrix and reinstatement ordering: an entry's authority and signature are one predicate.
- Creation of revocation lists, entry hashes and list hashes; metering.
