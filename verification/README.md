# Verification model of the offline verifier

This project models the algorithmic cores of the offline evidence verifier in `verify-rs/` and proves
what they guarantee for every input. It is plain Dafny 4.11; `dafny verify dfyconfig.toml` checks all of it.

SHA-256 is a parameter `h: Bytes -> Digest` of every definition that hashes, so each theorem holds for
every hash function. A collision always exists for such a function, so no theorem says merely that one
exists: the soundness theorems name an executable function (`RootsCollision`, `PathsCollision`,
`HistoryCollision`, ...) that searches only the strings hashed in that very check and, when the conclusion
fails, returns two different ones with equal hash. Signature schemes, MACs and X.509 field access are
function-valued records (`Crypto`, `Pki`). JSON documents enter as typed records whose optional members are
the ones a document may lack or carry undecodably; the CBOR exchange of a counterparty-assurance run is
modelled from its raw bytes, decoded by the in-model decoder. Clocks are parameters.

| file | what it holds |
|---|---|
| `Bytes.dfy`, `Sorting.dfy`, `Decimals.dfy` | byte strings and their order, stable sorting by key, digit strings as numbers |
| `MerkleTree.dfy`, `MerkleProof.dfy`, `MerklePosition.dfy` | the tree, path and proof recursions of RFC 9162, the two bottom-up checkers that refine them, and proofs that state a size other than the tree's |
| `History.dfy` | checkpoint chains, dense and sparse, and entry inclusion |
| `CertPath.dfy` | the pruned depth-first search for a certificate path |
| `CborHead.dfy`, `CborWire.dfy`, `CborScan.dfy`, `CborCanonical.dfy` | deterministic CBOR: heads, emitter, iterative scanner, recursive decoder, canonical form |
| `CivilTime.dfy` | canonical UTC and what it spells, days-from-civil arithmetic, the normalised byte order |
| `KeyLog.dfy`, `KeyLogEntries.dfy` | replay of the key log, and what a log means read off its entries |
| `Intervals.dfy`, `Grants.dfy` | intent intervals, status replay of a grant, mandate walk |
| `Verdict.dfy`, `VerdictMeaning.dfy` | trust-relative verdict dimensions, and when each has which value |
| `FloatText.dfy` | canonical number text |
| `Documents.dfy`, `Envelopes.dfy` | the signed CBOR documents of a counterparty-assurance exchange, and which bytes are a signed envelope |
| `B28.dfy`, `B28Results.dfy`, `B28Meaning.dfy` | the staged run over the exchange's bytes, what a consumable run binds, and exactly when a run is consumable |

Main results, hardest first:

* the consistency and inclusion loops accept exactly what the top-down recursions accept; acceptance
  against a known tree forces the true prefix root (or leaf and path); generated proofs are accepted and no
  other length is;
* a counterparty-assurance exchange is consumable exactly when, read off its bytes, the right keys signed the right
  documents, every validity window contains the present, every digest is of the document presented, all documents are
  about one tenant, delegation, agent, grant and registration, and every authority object is shown in its state under
  the pinned root (`B28Meaning.AssuredIff`); a signature there means `ed25519` or `p256` over the closed form of the
  signed bytes (`Envelopes.SignedIff`);
* a chain of accepted checkpoints pins one append-only history, an entry accepted under any checkpoint of it is the
  head history's entry at that index, and each checkpoint is signed by a key the log's entries put in force;
* a key log replays exactly when each entry is backed by keys its predecessors put in force, and a key is active
  exactly as the entries say: from its own leaf and time until a revocation;
* the certificate search ends on every pool and answers true exactly when there is a path whose every step is signed
  by a valid issuer that may issue at that depth;
* the CBOR emitter, the stack scanner and the decoder agree; the encoding is prefix-free, order-independent
  and injective up to map order;
* each verdict dimension has each value exactly when the document says so and a named key verifies what needs
  verifying; verdicts are weak without anchors, weak in every dimension whose own category has no usable key whatever the
  other tables hold, blind to every anchor a document does not name, and monotone in the anchors;
* intervals are never inverted, and both bounds are earliest proven times: the upper for any checkpoint that contains
  the leaf, the lower for those and the last one before it; from records, chain and leaf, a verified grant authorised
  the class at every instant, in microseconds, of a non-empty interval; the mandate walk finds the one head exactly
  when there is one;
* two consumable runs with one reservation are for one action and challenge and one replay key, one transcript digest
  fixes the exchanged envelopes, one selection fixes twelve members of the passport and one grant eleven of the action,
  each down to the bytes or with a collision exhibited; four different keys play the four roles;
* canonical time stamps are exactly the spellings of calendar moments and compare as bytes as the instants they name;
* number text is equal exactly for equal sign and value, and has an exponent exactly outside [10^-4, 10^16).

Two properties one might expect do not hold of the code as it stands, and are stated with their exact condition:

* the size an authority state proof states is compared with nothing, so the last of two records is accepted as
  entry 2 of 3 (`MerklePosition.WrongSizeShiftsIndex`). The record is still in the table; its stated index is
  the table's exactly when the stated size leads nowhere or to that index (`MerklePosition.IndexBindsIff`);
* no stage compares the tenant of the agent's proof of possession (`B28Results.PopTenantIsFree`); every other
  document that names a tenant names the delegation's, so all do exactly when that one does
  (`B28Results.OneTenantForAllIff`).

Where the source comment on the carried-chain gate speaks of first-subject-match semantics, the code tries
every subject-matching certificate in both modes and tests "self-signed" as subject equal to issuer; the
model follows the code.

## Model

| member | source | states |
|---|---|---|
| MerkleProof.VerifyInclusion | verify-rs/src/merkle.rs:19-46 | the shifting loop accepts iff index < size, the leaf is 32 bytes, the proof has exactly the path length for (index, size), and the root claimed by the top-down recursion of section 2.1.3.1 of RFC 9162 is the given root |
| MerkleProof.InclusionComplete | verify-rs/src/merkle.rs:19-46 | the generated audit path of every entry of every tree is accepted |
| MerkleProof.InclusionSound | verify-rs/src/merkle.rs:19-46 | an entry accepted against the tree hash of a sequence is that sequence's element at the index and the path is the generated one, or a collision is exhibited |
| MerkleProof.InclusionUnique | verify-rs/src/merkle.rs:19-46 | two acceptances at one (index, size, root) have equal leaf and path, or a collision is exhibited |
| MerkleProof.SkipPromotions | verify-rs/src/merkle.rs:33-38 | the inner shift drops exactly the levels without a sibling, so the remaining sides are unchanged |
| MerkleTree.LevelSidesAreSides | verify-rs/src/merkle.rs:23-44 | walking up level by level visits the siblings the recursive split prescribes, for every index and size |
| MerkleTree.FoldIsClaimedRoot | verify-rs/src/merkle.rs:28-44 | folding upward computes the root of the top-down recursion |
| MerkleProof.VerifyConsistency | verify-rs/src/merkle.rs:49-79 | the loop accepts iff 0 < first <= second and, when they differ, the proof length and both roots are those of the recursion of section 2.1.4.1 of RFC 9162 |
| MerkleProof.ConsistencyWalk | verify-rs/src/merkle.rs:66-79 | from the seed on, the loop accepts iff the rest of the proof has the remaining length and folds to both roots |
| MerkleProof.SkipPairs | verify-rs/src/merkle.rs:56-61 | shifting while the boundary is odd keeps the proof length and both claimed roots |
| MerkleProof.ConsistencySeed | verify-rs/src/merkle.rs:81-92 | the seed is the first proof element unless the boundary is the leftmost node, where it is a 32-byte first root |
| MerkleProof.ConsistencyStep | verify-rs/src/merkle.rs:94-113 | one step fails iff the last node is 0, and otherwise leaves exactly the remaining acceptance condition for both running hashes |
| MerkleTree.RootsUp | verify-rs/src/merkle.rs:56-61 | an even boundary gives the same proof length and the same claimed roots one level up |
| MerkleTree.RootsAreFolds | verify-rs/src/merkle.rs:63-70 | at an odd boundary the claimed roots are the full fold and the left-siblings-only fold of one audit path |
| MerkleProof.ConsistencySound | verify-rs/src/merkle.rs:49-113 | if the second root is the tree hash of D and the proof is accepted, the first root is the tree hash of D[..m], or a collision is exhibited |
| MerkleProof.ConsistencyComplete | verify-rs/src/merkle.rs:49-113 | the generated proof is accepted for every prefix, powers of two included, and no accepted proof has another length |
| MerklePosition.InclusionAtAnySize | verify-rs/src/b28.rs:674-685 | whatever tree size an accepted proof states, its entry is in the tree at the position its index and size lead to and its path is that entry's, or a collision is exhibited |
| MerklePosition.PositionAccepts | verify-rs/src/b28.rs:674-685 | conversely the entry at that position is accepted under that index and size |
| MerklePosition.WrongSizeShiftsIndex | verify-rs/src/b28.rs:674-685 | the last of two entries is accepted as entry 2 of 3, for every hash and every pair |
| MerklePosition.IndexBindsIff | verify-rs/src/b28.rs:674-685 | every acceptance at (index, size) is of the tree's entry at that index, or exhibits a collision, iff the position the stated size leads to is none or that index |
| MerklePosition.PositionHasSides | verify-rs/src/b28.rs:674-685 | the position is the one leaf of the tree with the same sides as the stated index and size |
| History.CheckChainConsistency | verify-rs/src/lib.rs:672-681 | accepts iff the proof and both roots decode and the consistency proof is accepted |
| History.CheckChainLink | verify-rs/src/lib.rs:683-704 | accepts iff the predecessor hashes, the back link fits the chain's density, sizes do not decrease, origins agree and a non-empty predecessor is consistent |
| History.CheckCheckpointChain | verify-rs/src/lib.rs:706-727 | accepts iff the chain starts at genesis, every checkpoint is signed by a key of the log that is an issuer key active at the checkpoint's time and size, and every link passes |
| History.AdmittedIff | verify-rs/src/lib.rs:602-626 | a checkpoint is admitted by a good log iff the key entry that introduced its kid has material that verifies its signature over its message, is in force at its time and size by the entries, and is an issuer's |
| History.CheckpointsAreSigned | verify-rs/src/lib.rs:602-727 | so it is for every checkpoint of an accepted chain, with no revocation in the log below its size or effective before its time |
| History.ChainIsBound | verify-rs/src/lib.rs:683-727 | in an accepted chain the first checkpoint names no predecessor, each later one names the previous body's hash, or some hash when the chain is sparse, one origin runs through it and sizes never decrease |
| History.ChainIff | verify-rs/src/lib.rs:602-727 | a chain is accepted iff it starts at genesis, an issuer key in force by the log's entries signed every checkpoint, and each continues the one before: named, no smaller, of one origin, and consistent once the tree has an entry |
| History.SignersDescendFromGenesis | verify-rs/src/lib.rs:706-727 | the signer of every checkpoint of an accepted chain descends from the log's genesis key through issuer keys only and was introduced below the checkpoint's size |
| History.ChainPinsHistory | verify-rs/src/lib.rs:672-727 | if the head commits to a history, sizes never decrease and every earlier non-empty checkpoint's root is the tree hash of that prefix of it, dense or sparse, unless a collision is exhibited |
| History.CheckEntryInclusion | verify-rs/src/lib.rs:763-772 | accepts iff the proof decodes and the leaf over the payload's hash is included |
| History.AcceptedEntryIsInHistory | verify-rs/src/lib.rs:706-772 | an entry accepted under any checkpoint of the chain is the head history's entry at its leaf index, unless a collision is exhibited |
| CertPath.Search.WalkChain | verify-rs/src/tsa.rs:323-353 | terminates on every pool; true implies a certifying path exists, and when the bodies of the presented certificates encode it is true iff one does: each certificate is signed by the next, which is valid at the time and, with supplied roots, may issue at that depth; it ends at a root, or without roots takes a step and ends at a self-issued certificate |
| CertPath.Search.PathsAreCertifying | verify-rs/src/tsa.rs:293-353 | a path of the search is exactly one in which every issuer signs, is named and is valid, and with supplied roots is a CA allowed to sign certificates, within its path limit counted over the non-self-issued CA certificates below, with no extension on either side that is not understood |
| CertPath.Search.PushCandidates | verify-rs/src/tsa.rs:340-350 | stops iff gate mode meets a self-issued acceptable issuer; otherwise pushes exactly the acceptable issuers, each with the count below it |
| CertPath.Search.SignsAntitone | verify-rs/src/tsa.rs:313-317 | a link valid with some number of CA certificates below it is valid with fewer |
| CertPath.Search.ClosureRefutes | verify-rs/src/tsa.rs:328-353 | when the stack is empty, dominance pruning has lost no path |
| CertPath.Search.MeasureDrops | verify-rs/src/tsa.rs:333-336 | recording a first or smaller count makes the pair (unseen certificates, total of recorded counts) smaller |
| CborHead.WriteHead | verify-rs/src/cbor_wire.rs:115-132 | appends exactly the head of the major type and argument |
| CborHead.ReadHead | verify-rs/src/cbor_wire.rs:136-159 | reads the head at an offset, refusing tags, other simple values, reserved and indefinite lengths |
| CborHead.HeadRoundTrip | verify-rs/src/cbor_wire.rs:115-159 | a written head reads back as its major type and argument, whatever surrounds it |
| CborHead.HeadMinimal | verify-rs/src/cbor_wire.rs:115-159 | no admitted head for an argument is shorter than the written one, and no argument exceeds 64 bits |
| CborHead.HeadMonotone | verify-rs/src/cbor_wire.rs:115-132 | heads of one major type are ordered bytewise as their arguments |
| CborHead.TextKeyOrder | verify-rs/src/cbor_wire.rs:39-42 | encoded text keys sort shorter first, then bytewise |
| CborWire.WriteInt | verify-rs/src/cbor_wire.rs:26-37 | appends the integer's encoding or refuses one outside signed 64 bits |
| CborWire.WriteKey | verify-rs/src/cbor_wire.rs:74-83 | appends a text key, or an integer key when the profile admits it, and refuses others |
| CborWire.WriteValue | verify-rs/src/cbor_wire.rs:47-72 | succeeds iff the value has an encoding at the limit under the profile, and appends exactly it |
| CborWire.WriteMap | verify-rs/src/cbor_wire.rs:85-105 | succeeds iff all entries encode and no two keys do alike, and appends them in encoded-key order |
| CborScan.ScanString | verify-rs/src/cbor_wire.rs:163-168 | steps over a string iff it fits the buffer |
| CborScan.ScanContainer | verify-rs/src/cbor_wire.rs:170-183 | refuses overflow, too many members and too deep nesting; opens a non-empty container and pushes its count |
| CborScan.CompleteItem | verify-rs/src/cbor_wire.rs:193-202 | pops every container the finished item completes, without underflow, and reports whether any is left |
| CborScan.StructuralScan | verify-rs/src/cbor_wire.rs:204-222 | returns an offset iff the recursive decoder reads one well-formed item there within the depth, and its item count is within the budget |
| CborScan.ParseDepth | verify-rs/src/cbor_wire.rs:170-183 | a scanned item nests within the depth bound |
| CborCanonical.EmitterAndScannerAgree | verify-rs/src/cbor_wire.rs:47-222 | for whatever the emitter accepts and any trailing bytes, the scan returns the encoded length iff depth and budget reach the value's own depth and item count, and that depth is within the emitter's limit |
| CborCanonical.EncodedDenotes | verify-rs/src/cbor_wire.rs:47-105 | an encoding decodes to the value's normal form wherever it stands in a buffer |
| CborCanonical.PrefixFreeAndInjective | verify-rs/src/cbor_wire.rs:47-111 | no encoding is a proper prefix of another, and equal encodings have equal normal forms, across profiles and limits |
| CborCanonical.EntryOrderIrrelevant | verify-rs/src/cbor_wire.rs:85-105 | reordering map entries changes neither success nor bytes |
| CborCanonical.NormOnlyReorders | verify-rs/src/cbor_wire.rs:95-104 | the normal form of a map is a permutation of its entries with normal values |
| CborCanonical.NormEncodes | verify-rs/src/cbor.rs:40-56 | re-encoding the normal form gives the same bytes |
| CborCanonical.DecodeCbor | verify-rs/src/cbor.rs:50-56 | accepts exactly the canonical bytes of some value of UTF-8 text within the byte, depth and item caps, and returns the normal form of every value with those bytes |
| CborCanonical.DecodesCanonicalOnly | verify-rs/src/b28.rs:78-86 | strict decoding under any profile accepts exactly the canonical bytes within the caps and returns a value in normal form |
| CborCanonical.LookupNorm | verify-rs/src/b28.rs:91-97 | reading a member of a map commutes with normalisation, so equal encodings have equal members |
| CborCanonical.EncodedKeysDistinct | verify-rs/src/cbor_wire.rs:95-104 | a map that encodes has no two equal keys |
| CivilTime.CivilIsCalendar | verify-rs/src/lib.rs:286-293 | the era arithmetic equals counting years and months day by day, leap rules included |
| CivilTime.NextDayIsOneLater | verify-rs/src/lib.rs:260-270 | the successor of a valid date is valid and numbered one higher |
| CivilTime.OneDayApart | verify-rs/src/lib.rs:278-295 | the same time on the next calendar day is 86,400 seconds later, counting from the start of 1970 |
| CivilTime.EpochFitsI64 | verify-rs/src/lib.rs:278-295 | every canonical time stamp fits a signed 64-bit integer |
| CivilTime.MomentsAreCanonical | verify-rs/src/lib.rs:260-295 | every valid date, time of day and fraction of at most six digits spells a canonical stamp, counted as the calendar counts it |
| CivilTime.CanonicalIff | verify-rs/src/lib.rs:260-269 | the canonical stamps are exactly those spellings: never an empty fraction, a leap second, or more than six digits |
| CivilTime.OrdersAgree | verify-rs/src/action.rs:74-82 | byte order of normalised stamps is the order of instants, and they coincide exactly for one instant |
| KeyLogReplay.KeyLog.KeyCreated | verify-rs/src/lib.rs:399-422 | introduces a new key, self-signed at genesis and sponsored later, tainted unless an issuer signed; otherwise changes nothing |
| KeyLogReplay.KeyLog.KeyRotated | verify-rs/src/lib.rs:425-452 | introduces a successor of an active key that signed the envelope and the key, inheriting taint and no role; otherwise changes nothing |
| KeyLogReplay.KeyLog.KeyRevoked | verify-rs/src/lib.rs:454-467 | sets the revocation of an unrevoked key on an active key's signature; otherwise changes nothing |
| KeyLogReplay.ReplayKeyLog | verify-rs/src/lib.rs:469-501 | the log is good iff the list is well formed and every entry applies, and then is the log after all of them; it is always the log after some prefix |
| KeyLogReplay.StepKeepsValid | verify-rs/src/lib.rs:399-467 | every transition keeps the domains of keys and states equal and roles tainted |
| KeyLogReplay.ActivityOnlyShrinks | verify-rs/src/lib.rs:370-501 | over any run a key in the log keeps its material and taint, gains no point of activity, is active only above its leaf, and keeps its revocation |
| KeyLogReplay.IssuersAreSponsored | verify-rs/src/lib.rs:370-501 | in every replay state each issuer key is the genesis key or was introduced by an entry with a verifying signature of an active issuer key of a strictly smaller leaf |
| KeyLogReplay.IssuersDescendFromGenesis | verify-rs/src/lib.rs:370-501 | such sponsorship chains back to the genesis key through issuer keys only |
| KeyLogReplay.RolesNeverRotate | verify-rs/src/lib.rs:390-501 | in every replay state each recorder or SCITT key was created by an entry after genesis naming that role and signed by an issuer key active then, of a strictly smaller leaf; none has issuer authority or both roles |
| KeyLogEntries.ReplaysIff | verify-rs/src/lib.rs:390-501 | a list replays iff it is well formed and each entry is one its predecessors allow: the key new or known as the action demands, backed by a key in force that signed it, a role only by an issuer's backing, a rotation by the old key's own signature over the new |
| KeyLogEntries.GoodIff | verify-rs/src/lib.rs:351-501 | a list is a good log iff it begins with a creation at leaf 0, is numbered densely from 1, and each entry is one its predecessors allow |
| KeyLogEntries.ActiveIff | verify-rs/src/lib.rs:370-390 | in the log after n entries a key is active at a time and size iff one of them introduced it below that size and effective by that time and none revokes it below that size or effective before that time |
| KeyLogEntries.RevokedIsInactive | verify-rs/src/lib.rs:370-374 | after a revocation at a leaf, effective at a time, the key is active at no size above that leaf and at no time after, in any longer log |
| KeyLogEntries.UnrevokedIsActive | verify-rs/src/lib.rs:370-374 | a key no entry revokes is active exactly at sizes above its leaf and times from its effective time on |
| KeyLogEntries.EntriesOutliveRevocation | verify-rs/src/lib.rs:399-501 | every entry after the first of a good log rests on a key in force then, so never on one revoked below its leaf or before its time |
| KeyLogEntries.IssuerIff | verify-rs/src/lib.rs:399-452 | a key has issuer authority iff it is genesis, role-free and backed by an issuer, or the successor of one |
| Intervals.IndependentTimes | verify-rs/src/action.rs:990-1002 | each timed checkpoint gets a time some record proves, and no record proves an earlier one |
| Intervals.Clamp | verify-rs/src/action.rs:1028-1036 | in place, every row becomes the suffix minimum with the spelling of a row that attains it |
| Intervals.ClampedTimes | verify-rs/src/action.rs:1015-1039 | the rows are the suffix minima of the timed checkpoints in tree-size order |
| Intervals.ClampedOrdered | verify-rs/src/action.rs:1015-1039 | sizes and times never decrease along the rows, and each spelling normalises to its time |
| Intervals.IntervalFor | verify-rs/src/action.rs:1043-1053 | lower is the last row of size at most the leaf, upper the first of greater size |
| Intervals.IntervalsOrdered | verify-rs/src/action.rs:1015-1053 | lower <= upper whenever both exist, and both bounds move forward with the leaf index |
| Intervals.UpperIsEarliestProof | verify-rs/src/action.rs:990-1053 | the upper bound is the earliest time any record proves for any presented checkpoint containing the leaf, and is absent only if none proves any |
| Intervals.LowerIsEarliestProof | verify-rs/src/action.rs:990-1053 | the lower bound is the earliest time any record proves for the last presented of the greatest timed checkpoints of size at most the leaf, or for any checkpoint containing the leaf; it exists iff there is such a checkpoint |
| Intervals.SortKeepsLast | verify-rs/src/action.rs:1026-1027 | the sort by tree size is stable: the last row of each size stays last |
| Grants.DocsCover | verify-rs/src/action.rs:1312-1323 | true iff every effective time is readable and the document in force at the lower bound and each one taking effect inside are good |
| Grants.GrantChainVerified | verify-rs/src/action.rs:1302-1347 | true implies dense versions from 2, every revocation of the grant effective after the upper bound, and at every instant of the interval, in microseconds, a document in force that names the class, has a supported limit and is valid from the lower to the upper bound; with effective times in version order it is true iff so |
| Grants.CoverReachesEveryInstant | verify-rs/src/action.rs:1302-1323 | checking the document at the lower bound and those taking effect inside covers the document in force at every instant between |
| Grants.OneInForce | verify-rs/src/action.rs:1312-1323 | at every instant exactly one document is in force: the last revision to have taken effect, or the issued one |
| Grants.GrantVerifiedAtLeaf | verify-rs/src/action.rs:990-1347 | from records, chain and leaf: true implies authority at every instant of a proven interval, which is never inverted, and when revisions take effect in version order it is true iff so |
| Grants.ProvenIntervalHasInstants | verify-rs/src/action.rs:1015-1053 | the interval proven for a leaf is never inverted, whatever the records and the chain |
| Grants.ByHashIff | verify-rs/src/action.rs:1288-1292 | the table the walk follows holds exactly the carried hashes, each with the last grant carried under it |
| Grants.MandateId | verify-rs/src/action.rs:1288-1300 | ends on every transfer graph and returns the one mandate id iff following transfers reaches an untransferred grant |
| Grants.TransferKeepsMandate | verify-rs/src/action.rs:1288-1300 | a grant transferred from a carried parent has the parent's mandate or, like it, none |
| Verdict.DeriveSourceSignature | verify-rs/src/action.rs:224-244 | the scan yields asymmetric iff some proof is, else shared secret iff some MAC verifies, else none |
| Verdict.DeriveAccountability | verify-rs/src/action.rs:572-594 | the loop computes the greatest rank among qualifying bindings |
| Verdict.BestOf | verify-rs/src/action.rs:572-594 | some qualifying binding has the returned rank, none has a greater one, and none is returned iff none qualifies |
| Verdict.VerifiedMonotone | verify-rs/src/trust.rs:51-141 | enlarging the anchor tables keeps every verification |
| Verdict.WeakFloor | verify-rs/src/action.rs:813-856 | without a trust context no dimension of any document holds a value that needs a third party |
| Verdict.SourceGrounded | verify-rs/src/action.rs:224-274 | asymmetric means a signature that verifies under a named source key for an identity with exactly one bound key; shared secret a MAC that verifies under a named secret |
| Verdict.CategoryFloor | verify-rs/src/action.rs:224-357 | in every trust context whose table of a category holds no usable key, every dimension resting on that category is weak, whatever the other tables hold |
| Verdict.ComposedFloor | verify-rs/src/action.rs:489-856 | closed coverage needs the population table or both node tables, and eligibility also a table that proves time |
| Verdict.OnlyNamedAnchorsMatter | verify-rs/src/action.rs:813-856 | contexts that agree on the names a document gives, each in the category it is read from, derive one vector |
| Verdict.TrustMonotone | verify-rs/src/action.rs:813-856 | naming more anchors never weakens a dimension of any document |
| VerdictMeaning.SourceIff | verify-rs/src/action.rs:224-274 | asymmetric iff some proof is a signature under a named source key for an identity with exactly one bound key, shared secret iff none is but some proof is a MAC under a named secret, not recomputed iff withheld |
| VerdictMeaning.ControlIff | verify-rs/src/action.rs:289-303 | overlapping iff admitted or one controller, independent iff two controllers and an evaluator's signature |
| VerdictMeaning.ObservedIff | verify-rs/src/action.rs:305-331 | observed iff the scan was performed, authenticated, binds the batch and a named node signed it |
| VerdictMeaning.NodeBasisIff | verify-rs/src/action.rs:316-331 | a basis above log-witnessed iff an issued, dated attestation of it is signed under a named root |
| VerdictMeaning.BasisIff | verify-rs/src/action.rs:333-357 | the population basis iff a scoped proof is attested, the full-scan basis iff not and a complete gap-free scan is observed by a hardware-attested node |
| VerdictMeaning.CoverageIff | verify-rs/src/action.rs:337-357 | gapped iff a gap, fork, cursor gap or finding is open; closed iff none is and one of the two bases holds |
| VerdictMeaning.TemporalIff | verify-rs/src/action.rs:489-512 | proven by echo iff attested, and independently iff both bounds are attested and the intent's upper instant precedes the event's lower in microseconds |
| VerdictMeaning.SurfaceIff | verify-rs/src/action.rs:514-561 | each row's mechanism, control and coverage in terms of its evidence and an evaluator's signature |
| VerdictMeaning.AccountabilityIff | verify-rs/src/action.rs:563-594 | the rank is the greatest of a specific, attested and, from insurer up, grounded binding |
| VerdictMeaning.AssuranceIff | verify-rs/src/action.rs:598-619 | direct, deterministic and ambiguous linkage by the presented digest, the candidates, the nonce and observation |
| VerdictMeaning.PopulationIff | verify-rs/src/action.rs:702-712 | proven iff a complete index is attested, absent iff there is none |
| VerdictMeaning.RegistrationIff | verify-rs/src/action.rs:776-791 | registered iff covered, carried, receipted and attested; pending iff not and attempted on intent |
| VerdictMeaning.EligibleIff | verify-rs/src/action.rs:748-774 | eligible iff the facts verify and match over a known interval, nothing is open, the population is proven or scanned, time is proven, the document is linked and its receipt valid |
| VerdictMeaning.UnreadableIsWeakest | verify-rs/src/action.rs:847-856 | an unreadable document derives the weakest vector under any anchors |
| FloatText.SplitText | verify-rs/src/dispute.rs:110-116 | the string splitting recovers sign, digits, point and exponent of every well-formed lexeme |
| FloatText.KeepsSignAndValue | verify-rs/src/dispute.rs:109-137 | the text is a well-formed lexeme of the same sign and exactly the same value |
| FloatText.CanonicalText | verify-rs/src/dispute.rs:109-137 | two lexemes get one text iff they have equal sign and value |
| FloatText.ExponentIff | verify-rs/src/dispute.rs:122-137 | the text has an exponent iff the value is not zero and is at least 10^16 or below 10^-4 in size, and has no superfluous digit either way |
| FloatText.ModerateLexemesRewrite | verify-rs/src/dispute.rs:113-122 | every lexeme of moderate length and exponent is rewritten |
| B28Results.DecimalAtMostIsNumeric | verify-rs/src/b28.rs:733-735 | length-then-bytes comparison of canonical amounts is numeric <=, and anything else is refused |
| Documents.InspectCwt | verify-rs/src/b28.rs:331-358 | a readable envelope has a core valid for its schema whose canonical bytes are kept, and its key id and core are those of its own header and payload |
| Envelopes.DecodeIff | verify-rs/src/b28.rs:72-86 | strict decoding yields a value iff the bytes are its canonical encoding, within the caps, of UTF-8 text and in normal form |
| Envelopes.InspectIff | verify-rs/src/b28.rs:331-358 | bytes read as an envelope iff they are the tag and the canonical array of a header, an empty map, a claims set and 64 bytes, the header is the canonical map of EdDSA, the media type and the key id, the claims are the canonical map of a profile and the core, and the core is valid |
| Envelopes.SignedIff | verify-rs/src/b28.rs:368-376 | a document is read under a table of keys iff one of them, under its own identifier, verifies the envelope's signature over the canonical signature structure |
| Envelopes.RootIff | verify-rs/src/b28.rs:428-433 | under the pinned roots iff, besides, the document names the signing root's fingerprint |
| Envelopes.MembersAreRead | verify-rs/src/b28.rs:120-168 | every member a schema demands is carried once and read as carried: a number within 63 bits, positive where demanded, a string of the demanded length; no default is read in its place |
| Envelopes.SchemasAreDisjoint | verify-rs/src/b28.rs:98-125 | a core is valid for one schema only, whichever generation's name it carries |
| Envelopes.OneEnvelopeOneCore | verify-rs/src/b28.rs:331-376 | one envelope is of one core, one schema and one key id, whoever is asked |
| Documents.SignedMessageDeterminesDocument | verify-rs/src/b28.rs:331-371 | envelopes whose signatures are over one message have one key id, one core and one set of core bytes |
| Documents.SameFields | verify-rs/src/b28.rs:91-97 | values with equal encodings have equal members, up to map order for nested maps |
| B28.CheckpointHeadError | verify-rs/src/b28.rs:723-731 | no error iff the checkpoint equals the pinned head; undecided iff it is ahead of it |
| B28.VerifyState | verify-rs/src/b28.rs:674-685 | accepts iff the proof carries the claimed key, state, version and digest and the canonical bytes of exactly that record are included under the root |
| B28.Start | verify-rs/src/b28.rs:771-800 | passes iff the challenge is signed by its challenger, current and within local policy, and the presentation names its envelope, core and action by digest; exactly the challenge dimension is then marked |
| B28.Evaluation.ReadRoots | verify-rs/src/b28.rs:803-817 | keeps exactly the root documents the exchange carries, the successor link among them iff one is presented, and succeeds iff each is signed by a pinned root for its organisation |
| B28.Evaluation.Roots | verify-rs/src/b28.rs:803-830 | passes iff all root documents are for the delegation's tenant and organisation, which is the actor's, and the delegation is live |
| B28.Evaluation.ReadSignedDocs | verify-rs/src/b28.rs:849-856 | keeps the documents signed under the key the delegation or the passport names for each, and succeeds iff all four are |
| B28.Evaluation.Signatures | verify-rs/src/b28.rs:832-860 | passes iff the passport authority named by the delegation signed passport and snapshot, its action authority the reservation, and the passport's own key the proof of possession, the presentation and a holder proof of the same core |
| B28.Evaluation.CheckPassport | verify-rs/src/b28.rs:862-886 | passes iff the passport's key is neither authority's, it names the delegation and the actor, it and its template agree and are live, and its succession is accounted for |
| B28.Evaluation.Register | verify-rs/src/b28.rs:888-937 | passes iff the registrar's verified selection, the challenge, the proof of possession and the passport name one proposal, and the root consumed that challenge, selection and passport in time with the counter the authenticator reports |
| B28.Evaluation.CheckCheckpoint | verify-rs/src/b28.rs:939-979 | passes iff the checkpoint is registered, equals the pinned head, is fresh, is the one the snapshot and its proofs digest name, and the issuance log is its ancestor; pins the authority root |
| B28.Evaluation.AuthorityProofs | verify-rs/src/b28.rs:981-1026 | passes iff each of the thirteen objects derived from the documents, the successor pair when there is one and the counter head are proven in their states under the pinned root |
| B28.Evaluation.CheckAction | verify-rs/src/b28.rs:1028-1059 | passes iff grant and reservation are the delegation's for exactly this action and challenge, are live, and the amount is within the ceiling |
| B28.Evaluation.Finish | verify-rs/src/b28.rs:1061-1085 | passes iff the transcript digest is of this exchange, the times nest and no unevaluated dimension is required |
| B28.Evaluate | verify-rs/src/b28.rs:1092-1115 | from the raw bytes: a context to consume is yielded iff every fact of every stage holds; otherwise the reason is one of the first stage that does not hold, undecided iff local knowledge or time is missing; the vector marks exactly the dimensions of the stages that hold |
| B28.VectorMeans | verify-rs/src/b28.rs:548-557 | in the vector of any run, rejected or not, a dimension is verified iff its stage and all before it hold, the five unevaluated ones read so, and replay is never verified |
| B28Results.AmountsAreNumbers | verify-rs/src/b28.rs:164-169 | the canonical amounts are exactly the decimal spellings of natural numbers, of at most 78 digits |
| B28Results.AmountWithinCeiling | verify-rs/src/b28.rs:1028-1047 | in a consumable run the action's amount is at most the grant's ceiling as numbers |
| B28Results.TimesAreNested | verify-rs/src/b28.rs:771-1085 | challenge issue <= created <= now < expiry, lifetime within policy, reservation and checkpoint issued before the presentation, and the reservation expires with the action |
| B28Results.OneAuthority | verify-rs/src/b28.rs:803-1059 | every document of a consumable run is about one tenant, delegation, agent, grant and registration |
| B28Results.PopTenantIsFree | verify-rs/src/b28.rs:901-914 | issuance is decided alike for proofs of possession that differ only outside five compared members; the tenant is outside them |
| B28Results.OneTenantForAllIff | verify-rs/src/b28.rs:803-914 | all documents name one tenant iff the proof of possession names the passport's |
| B28Results.OneReservationOneAction | verify-rs/src/b28.rs:1048-1058 | two consumable runs with one reservation core have the same action and challenge bytes and contents, or a collision is exhibited, and always the same replay key |
| B28Results.ReplayKeyIsReservation | verify-rs/src/b28.rs:1048-1085 | the replay key is the reservation's own tenant, organisation, delegation and id |
| B28Results.TranscriptFixesExchange | verify-rs/src/b28.rs:1061-1068 | two consumable runs with one transcript digest carry the same challenge and reservation envelopes byte for byte and the same action, or a collision is exhibited |
| B28Results.NamedDigestBinds | verify-rs/src/b28.rs:701-712 | one digest over named members fixes each of those members, or a collision is exhibited |
| B28Results.SelectionFixesProposal | verify-rs/src/b28.rs:888-914 | two consumable runs whose selections name one proposal have passports agreeing on all twelve proposal members, or a collision is exhibited |
| B28Results.GrantFixesScope | verify-rs/src/b28.rs:1034-1043 | two consumable runs under one grant have actions agreeing on all eleven scope members, or a collision is exhibited |
| B28Results.ProvenStateIsTabled | verify-rs/src/b28.rs:674-691 | a state proof accepted under the root of a table of records is of a record in the table with the claimed key, state, version and digest, whatever size it states, or a collision is exhibited |
| B28Results.StatesAreTabled | verify-rs/src/b28.rs:981-1026 | against the table the pinned authority root commits to, each of the thirteen objects, the successor link and superseded predecessor, and the counter has a record in the state the run relies on, or a collision is exhibited |
| B28Results.AuthorityIsCurrent | verify-rs/src/b28.rs:993-1013 | in that table, unless a collision is exhibited, the delegation and the grant are active, the agent's head is this passport at its own revision, and the registrar's challenge is superseded |
| B28Results.IssuanceLogIsPrefix | verify-rs/src/b28.rs:956-961 | against the log the checkpoint commits to, the passport's issuance log root is a prefix root, or a collision is exhibited |
| B28Results.RolesAreSeparate | verify-rs/src/b28.rs:237-243 | with roots pinned by their hash, the root key, the two authority keys and the agent key of a consumable run are four different keys |

| B28Meaning.AssuredIff | verify-rs/src/b28.rs:771-1115 | every stage passes iff the exchange is consumable: signed by whom it must be, timely, about one tenant, delegation, agent, grant and registration, true to every digest it carries, with its succession, scope, amount and required dimensions in order, under the pinned head and with every authority object shown |
| B28Meaning.RecipientChallenges | verify-rs/src/b28.rs:188-229 | in a consumable run the challenger is the action's recipient, of the counterparty's organisation, which is the one granted; the reservation is issued and held, the unresolved exposure within the ceiling, and a successor is a different agent at revision 1 |
| B28Meaning.ContextNames | verify-rs/src/b28.rs:1061-1115 | what the replay store is asked to consume is named by the reservation: its key, the action's key and digest, and this presentation |
| B28Meaning.SignaturesIff | verify-rs/src/b28.rs:832-860 | the signature stage passes iff the delegation's passport key signed passport and snapshot, its action key the reservation, and the passport's agent key the presentation, the proof of possession and the passport itself |
| B28Meaning.RootsAreSigned | verify-rs/src/b28.rs:803-817 | the root documents, and a successor link when one is presented, are read iff a pinned root key of the organisation each names signed it |
| B28Meaning.ChallengeSigned | verify-rs/src/b28.rs:771-785 | the challenge is read under its challenger's identifier iff the pinned key of that identifier signed it |
| B28Meaning.AdminIff | verify-rs/src/b28.rs:611-668 | the registrar's assertion verifies with the recorded counter iff its P-256 key signed authenticator data and client hash for its site, with the user present and verified, exactly the recorded backup bits, and the recorded counter, which went up or is not kept |
| B28Meaning.ShownIff | verify-rs/src/b28.rs:981-1026 | the state stage passes iff each document, digest and identity it relies on is shown in its state under the authority root, the successor pair exactly when there is one, and the counter has not gone back |

## Left out

- Cryptographic primitives, base64, JWK, DER, CMS and PEM parsing: foreign crates, kept as functions and predicates.
- JSON and CBOR materialisation libraries: JSON documents are typed records; the recursive decoder with a UTF-8 check stands for the CBOR library.
- 64-bit widths in the Merkle checkers: indices and sizes are naturals; the loops only halve and subtract one where it cannot underflow.
- CborWire.WriteValue: refuses strings, arrays and maps of 2^63 members or more, which no vector of the source can have; the partly written buffer of a refused value is not described.
- CertPath.Search.WalkChain: exact only when every presented certificate that encodes has an encodable body; otherwise a body that fails to encode ends the search with false, as in the code.
- KeyLogReplay.ReplayKeyLog: takes the key entries as collected; selecting them from a bundle and sorting them by leaf is left out, and no result depends on that order.
- History.CheckCheckpointChain: the signed message of a checkpoint enters as a member; that it is the canonical form of the other members, over a closed member set, is left to the JSON canonicaliser, which is not part of this model.
- Grants.GrantChainVerified: root-signed revocations and revisions enter as lists; selecting and sorting them, and the conflict rule for duplicated versions, are left out.
- Verdict.TrustMonotone: excludes the mark, which the source deliberately withdraws; linkage, outcome, scope, history and the bundle-derived facts do not read trust and enter as they are.
- FloatText.CanonicalText: a power outside 32 bits, which the source cannot compute, is refused.
- B28.Evaluate: the WebAuthn client JSON, the canonical-origin rule, the COSE key and the signature primitives are parameters; the unit grammar of an action, the fixed disclaimer text of a presentation and the parsing of the local context and trust pack are left out; reasons carry no joined list of dimension names.
- B28.Evaluation.Register: a proposal digest that could not be computed would be refused here, where the source would stop; the same holds for the scope digest of an action.
- Documents.InspectCwt: a member a document lacks reads as null; the stages read only members its schema demands.
- Receipt body rules, lineage checks, export manifests, continuity assertions, certificate cross-checks, SCITT profile, disclosure table: branch-by-branch equality tests that would only add easy members.
- Signed refusals, acknowledgements and the mixed-generation scan of an exchange: short conjunctions over the same envelopes.
- WASM bindings, JavaScript, result rendering, fuzz targets: input, output and user interface.
