/** Counterparty assurance runs (verify-rs/src/b28.rs): the staged evaluation of the raw bytes of one
    exchange against local pins. */
module B28 {
  import opened Bytes
  import opened CborWire
  import opened Documents
  import opened MerkleTree
  import opened MerkleProof

  // ----- verdicts

  datatype Status = Indeterminate | Verified | NotEvaluated

  datatype Verdict = Fail | Undecided

  datatype Reason =
    | NoLocalChallengerKey | ChallengeSignatureOrProfileInvalid | ChallengeSignerMismatch | ChallengeNotCurrent | ChallengeExpired
    | ActionLifetimeExceedsLocalPolicy | PresentationNotStrictCwt | PresentationChallengeOrActionMismatch
    | RootAuthorityChainInvalid | RootOrTenantSubstitution | ActorOrganisationMismatch | AuthorityDelegationInactive
    | DelegatedOrAgentSignatureInvalid | PassportHolderCoreMismatch
    | AuthorityKeyRoleCollision | PassportBindingOrValidityInvalid | AgentSuccessorInvalid | PassportTemplateMismatch
    | TemplateAdminPopIssuanceInvalid | TemplateAdminPopConsumptionInvalid
    | AuthorityCheckpointUnregistered | LocalAuthorityHeadUnavailable | AuthorityCheckpointRollback
    | AuthorityCheckpointAheadOfLocalHead | AuthorityCheckpointFork | PassportIssuanceCheckpointUnregistered
    | PassportIssuanceLogNotAncestor | StatusCheckpointBindingInvalid | StatusCheckpointStale
    | AuthorityStateProofInvalid(name: Name) | ActionOutsideRootLimitGrant | AsaExactBindingOrValidityInvalid
    | TranscriptBindingInvalid | PresentationTimeOutsideChallenge | PresentationTimeOutsideAssurance
    | PresentationTimeOutsideLocalClock | RequiredDimensionNotEvaluated

  datatype Rejection = Rejection(verdict: Verdict, reason: Reason)

  /** Undecided, not a failure: what is missing is local, or the time is not right yet. */
  predicate Undecidable(r: Reason) {
    || r.NoLocalChallengerKey? || r.ChallengeNotCurrent? || r.ActionLifetimeExceedsLocalPolicy? || r.AuthorityCheckpointUnregistered?
    || r.LocalAuthorityHeadUnavailable? || r.AuthorityCheckpointAheadOfLocalHead? || r.PassportIssuanceCheckpointUnregistered?
    || r.StatusCheckpointStale? || r.RequiredDimensionNotEvaluated?
  }

  /** The verdict is the one of its reason. */
  predicate Coded(r: Rejection) {
    r.verdict == if Undecidable(r.reason) then Undecided else Fail
  }

  // Why each stage rejects.

  predicate StartReason(r: Reason) {
    || r.NoLocalChallengerKey? || r.ChallengeSignatureOrProfileInvalid? || r.ChallengeSignerMismatch? || r.ChallengeNotCurrent?
    || r.ChallengeExpired? || r.ActionLifetimeExceedsLocalPolicy? || r.PresentationNotStrictCwt?
    || r.PresentationChallengeOrActionMismatch?
  }

  predicate RootsReason(r: Reason) {
    r.RootAuthorityChainInvalid? || r.RootOrTenantSubstitution? || r.ActorOrganisationMismatch? || r.AuthorityDelegationInactive?
  }

  predicate SignaturesReason(r: Reason) {
    r.DelegatedOrAgentSignatureInvalid? || r.PassportHolderCoreMismatch?
  }

  predicate PassportReason(r: Reason) {
    r.AuthorityKeyRoleCollision? || r.PassportBindingOrValidityInvalid? || r.AgentSuccessorInvalid? || r.PassportTemplateMismatch?
  }

  predicate RegisterReason(r: Reason) {
    r.TemplateAdminPopIssuanceInvalid? || r.TemplateAdminPopConsumptionInvalid?
  }

  predicate HeadReason(r: Reason) {
    r.AuthorityCheckpointRollback? || r.AuthorityCheckpointAheadOfLocalHead? || r.AuthorityCheckpointFork?
  }

  predicate CheckpointReason(r: Reason) {
    || HeadReason(r)
    || r.AuthorityCheckpointUnregistered? || r.LocalAuthorityHeadUnavailable? || r.PassportIssuanceCheckpointUnregistered?
    || r.PassportIssuanceLogNotAncestor? || r.StatusCheckpointBindingInvalid? || r.StatusCheckpointStale?
  }

  predicate StatesReason(r: Reason) {
    r.AuthorityStateProofInvalid? || r.AgentSuccessorInvalid?
  }

  predicate FinishReason(r: Reason) {
    || r.TranscriptBindingInvalid? || r.PresentationTimeOutsideChallenge? || r.PresentationTimeOutsideAssurance?
    || r.PresentationTimeOutsideLocalClock? || r.RequiredDimensionNotEvaluated?
  }

  // ... and with which verdict: the ground facts the stages rely on.

  lemma {:induction false} StartCodes()
    ensures StartReason(NoLocalChallengerKey) && Coded(Rejection(Undecided, NoLocalChallengerKey))
    ensures StartReason(ChallengeSignatureOrProfileInvalid) && Coded(Rejection(Fail, ChallengeSignatureOrProfileInvalid))
    ensures StartReason(ChallengeSignerMismatch) && Coded(Rejection(Fail, ChallengeSignerMismatch))
    ensures StartReason(ChallengeNotCurrent) && Coded(Rejection(Undecided, ChallengeNotCurrent))
    ensures StartReason(ChallengeExpired) && Coded(Rejection(Fail, ChallengeExpired))
    ensures StartReason(ActionLifetimeExceedsLocalPolicy) && Coded(Rejection(Undecided, ActionLifetimeExceedsLocalPolicy))
    ensures StartReason(PresentationNotStrictCwt) && Coded(Rejection(Fail, PresentationNotStrictCwt))
    ensures StartReason(PresentationChallengeOrActionMismatch) && Coded(Rejection(Fail, PresentationChallengeOrActionMismatch))
  {
  }

  lemma {:induction false} RootsCodes()
    ensures RootsReason(RootAuthorityChainInvalid) && Coded(Rejection(Fail, RootAuthorityChainInvalid))
    ensures RootsReason(RootOrTenantSubstitution) && Coded(Rejection(Fail, RootOrTenantSubstitution))
    ensures RootsReason(ActorOrganisationMismatch) && Coded(Rejection(Fail, ActorOrganisationMismatch))
    ensures RootsReason(AuthorityDelegationInactive) && Coded(Rejection(Fail, AuthorityDelegationInactive))
  {
  }

  lemma {:induction false} SignaturesCodes()
    ensures SignaturesReason(DelegatedOrAgentSignatureInvalid) && Coded(Rejection(Fail, DelegatedOrAgentSignatureInvalid))
    ensures SignaturesReason(PassportHolderCoreMismatch) && Coded(Rejection(Fail, PassportHolderCoreMismatch))
  {
  }

  lemma {:induction false} PassportCodes()
    ensures PassportReason(AuthorityKeyRoleCollision) && Coded(Rejection(Fail, AuthorityKeyRoleCollision))
    ensures PassportReason(PassportBindingOrValidityInvalid) && Coded(Rejection(Fail, PassportBindingOrValidityInvalid))
    ensures PassportReason(AgentSuccessorInvalid) && Coded(Rejection(Fail, AgentSuccessorInvalid))
    ensures PassportReason(PassportTemplateMismatch) && Coded(Rejection(Fail, PassportTemplateMismatch))
  {
  }

  lemma {:induction false} RegisterCodes()
    ensures RegisterReason(TemplateAdminPopIssuanceInvalid) && Coded(Rejection(Fail, TemplateAdminPopIssuanceInvalid))
    ensures RegisterReason(TemplateAdminPopConsumptionInvalid) && Coded(Rejection(Fail, TemplateAdminPopConsumptionInvalid))
  {
  }

  lemma {:induction false} HeadCodes()
    ensures HeadReason(AuthorityCheckpointRollback) && Coded(Rejection(Fail, AuthorityCheckpointRollback))
    ensures HeadReason(AuthorityCheckpointAheadOfLocalHead) && Coded(Rejection(Undecided, AuthorityCheckpointAheadOfLocalHead))
    ensures HeadReason(AuthorityCheckpointFork) && Coded(Rejection(Fail, AuthorityCheckpointFork))
  {
  }

  lemma {:induction false} CheckpointCodes()
    ensures CheckpointReason(AuthorityCheckpointUnregistered) && Coded(Rejection(Undecided, AuthorityCheckpointUnregistered))
    ensures CheckpointReason(LocalAuthorityHeadUnavailable) && Coded(Rejection(Undecided, LocalAuthorityHeadUnavailable))
    ensures CheckpointReason(PassportIssuanceCheckpointUnregistered) && Coded(Rejection(Undecided, PassportIssuanceCheckpointUnregistered))
    ensures CheckpointReason(PassportIssuanceLogNotAncestor) && Coded(Rejection(Fail, PassportIssuanceLogNotAncestor))
    ensures CheckpointReason(StatusCheckpointBindingInvalid) && Coded(Rejection(Fail, StatusCheckpointBindingInvalid))
    ensures CheckpointReason(StatusCheckpointStale) && Coded(Rejection(Undecided, StatusCheckpointStale))
    ensures forall r | HeadReason(r) :: CheckpointReason(r)
  {
  }

  lemma {:induction false} FinishCodes()
    ensures FinishReason(TranscriptBindingInvalid) && Coded(Rejection(Fail, TranscriptBindingInvalid))
    ensures FinishReason(PresentationTimeOutsideChallenge) && Coded(Rejection(Fail, PresentationTimeOutsideChallenge))
    ensures FinishReason(PresentationTimeOutsideAssurance) && Coded(Rejection(Fail, PresentationTimeOutsideAssurance))
    ensures FinishReason(PresentationTimeOutsideLocalClock) && Coded(Rejection(Fail, PresentationTimeOutsideLocalClock))
    ensures FinishReason(RequiredDimensionNotEvaluated) && Coded(Rejection(Undecided, RequiredDimensionNotEvaluated))
  {
  }

  lemma {:induction false} OtherCodes()
    ensures StatesReason(AgentSuccessorInvalid) && Coded(Rejection(Fail, AgentSuccessorInvalid))
    ensures forall n :: StatesReason(AuthorityStateProofInvalid(n)) && Coded(Rejection(Fail, AuthorityStateProofInvalid(n)))
    ensures Coded(Rejection(Fail, ActionOutsideRootLimitGrant)) && Coded(Rejection(Fail, AsaExactBindingOrValidityInvalid))
  {
  }

  const UNEVALUATED: set<Dimension> := {NodeBasis, SourceBasis, CoverageBasis, HistoryDim, EvidenceReadiness}
  const EVALUATED: set<Dimension> := {PassportIdentity, LiveKeyControl, RootChain, TemplateAdminPop, FreshStatus, BindingDim,
                                      GrantDim, DelegationDim, ExactAction, AsaReservation, ChallengeDim, Transcript, Replay}

  /** The vector with exactly these dimensions verified. */
  function VectorOf(verified: set<Dimension>): map<Dimension, Status> {
    map d: Dimension | d in EVALUATED + UNEVALUATED ::
      if d in verified then Verified else if d in EVALUATED then Indeterminate else NotEvaluated
  }

  // ----- local pins and the exchange

  datatype Head = Head(sequence: nat, authorityRoot: Bytes, logRoot: Bytes, logSize: nat)

  datatype Pin = Pin(tenant: Bytes, organisation: Bytes, head: Head)

  datatype Input = Input(
    challenge: Bytes,
    presentation: Bytes,
    roots: map<Bytes, Anchor>,
    challengerKeys: map<Bytes, Bytes>,
    checkpoints: map<Bytes, Pin>,
    heads: map<(Bytes, Bytes), Head>,
    origin: Bytes,
    maxLifetime: nat,
    now: nat)

  // ----- the documents an exchange carries, as functions of its bytes

  function Core(x: Option<Cwt>): Value {
    if x.Some? then x.value.core else Null
  }

  function CoreBytes(x: Option<Cwt>): Bytes {
    if x.Some? then x.value.coreBytes else []
  }

  function ChallengeCwt(c: Crypto, i: Input): Option<Cwt> {
    SignedCwt(c, i.challenge, ChallengeCore, i.challengerKeys)
  }

  function Chal(c: Crypto, i: Input): Value {
    Core(ChallengeCwt(c, i))
  }

  function Action(c: Crypto, i: Input): Value {
    Field(Chal(c, i), ActionField)
  }

  function ActionBytes(c: Crypto, i: Input): Bytes {
    var b := Canonical(Action(c, i));
    if b.Some? then b.value else []
  }

  function Pres(c: Crypto, i: Input): Value {
    Core(InspectCwt(c, i.presentation, PresentationCore))
  }

  const ROOT_NAMES := [RootDelegation, RegistrationTemplate, AdminBinding, AdminChallenge, AdminConsumption, LimitGrant, AuthorityCheckpoint]

  function RootSchema(n: Name): Schema {
    if n == RegistrationTemplate then Template
    else if n == AdminBinding then Binding
    else if n == AdminChallenge then AdminChallengeDoc
    else if n == AdminConsumption then Consumption
    else if n == LimitGrant then Grant
    else if n == AuthorityCheckpoint then Checkpoint
    else if n == AgentSuccessor then Successor
    else Delegation
  }

  /** A document signed by a pinned root. */
  function RootDoc(c: Crypto, i: Input, n: Name): Option<Cwt> {
    match Field(Pres(c, i), n)
    case ByteString(raw) => RootCwt(c, raw, RootSchema(n), i.roots)
    case _ => None
  }

  function Root(c: Crypto, i: Input, n: Name): Value {
    Core(RootDoc(c, i, n))
  }

  predicate HasSuccessor(c: Crypto, i: Input) {
    Field(Pres(c, i), AgentSuccessor).ByteString?
  }

  predicate IsRoot(c: Crypto, i: Input, n: Name) {
    n in ROOT_NAMES || (n == AgentSuccessor && HasSuccessor(c, i))
  }

  function KeyNamed(v: Value, kid: Name, key: Name): map<Bytes, Bytes> {
    map[Raw(v, kid) := Raw(v, key)]
  }

  function PassportKeys(c: Crypto, i: Input): map<Bytes, Bytes> {
    KeyNamed(Root(c, i, RootDelegation), PassportAuthorityKid, PassportAuthorityKey)
  }

  function ActionKeys(c: Crypto, i: Input): map<Bytes, Bytes> {
    KeyNamed(Root(c, i, RootDelegation), ActionAuthorityKid, ActionAuthorityKey)
  }

  function PresentedCwt(c: Crypto, i: Input, n: Name, s: Schema, keys: map<Bytes, Bytes>): Option<Cwt> {
    match Field(Pres(c, i), n)
    case ByteString(raw) => SignedCwt(c, raw, s, keys)
    case _ => None
  }

  function PassportCwt(c: Crypto, i: Input): Option<Cwt> {
    PresentedCwt(c, i, Passport, Credential, PassportKeys(c, i))
  }

  function Holder(c: Crypto, i: Input): Value {
    Core(PassportCwt(c, i))
  }

  function AgentKeys(c: Crypto, i: Input): map<Bytes, Bytes> {
    KeyNamed(Holder(c, i), AgentKid, AgentKey)
  }

  function HolderProofCwt(c: Crypto, i: Input): Option<Cwt> {
    match Field(Pres(c, i), PassportHolderProof)
    case ByteString(raw) => InspectCwt(c, raw, Credential)
    case _ => None
  }

  const SIGNED_NAMES := [PassportHolderProof, AgentPop, StatusSnapshot, AsaField]

  function SignedSchema(n: Name): Schema {
    if n == PassportHolderProof then Credential
    else if n == AgentPop then Pop
    else if n == StatusSnapshot then Snapshot
    else AsaCore
  }

  /** A document signed by the agent or by an authority the delegation names. */
  function SignedDoc(c: Crypto, i: Input, n: Name): Option<Cwt> {
    PresentedCwt(c, i, n, SignedSchema(n), KeysFor(n, PassportKeys(c, i), ActionKeys(c, i), AgentKeys(c, i)))
  }

  function KeysFor(n: Name, psa: map<Bytes, Bytes>, act: map<Bytes, Bytes>, agent: map<Bytes, Bytes>): map<Bytes, Bytes> {
    if n == StatusSnapshot then psa else if n == AsaField then act else agent
  }

  function Doc(c: Crypto, i: Input, n: Name): Value {
    Core(SignedDoc(c, i, n))
  }

  function SelectionRaw(c: Crypto, i: Input): Bytes {
    Raw(Pres(c, i), AdminSelection)
  }

  function SelectionOf(c: Crypto, i: Input): Option<Value> {
    var v := Decode(SelectionRaw(c, i), 16_384);
    if v.Some? && ValidCore(c, Selection, v.value) then v else None
  }

  function Picked(c: Crypto, i: Input): Value {
    var v := SelectionOf(c, i);
    if v.Some? then v.value else Null
  }

  // ----- start

  /** The challenge is signed by its challenger, current, and within the local lifetime policy. */
  predicate ChallengeHolds(c: Crypto, i: Input) {
    && i.challengerKeys != map[] && ChallengeCwt(c, i).Some?
    && Field(Field(Chal(c, i), Challenger), AgentKid) == Text(ChallengeCwt(c, i).value.kid)
    && Num(Chal(c, i), IssuedAt) <= i.now < Num(Action(c, i), ExpiresAt)
    && Num(Action(c, i), ExpiresAt) - Num(Chal(c, i), IssuedAt) <= i.maxLifetime
  }

  /** The presentation names the challenge envelope, its core and its action by digest. */
  predicate PresentationBinds(c: Crypto, i: Input) {
    && InspectCwt(c, i.presentation, PresentationCore).Some?
    && Field(Pres(c, i), ChallengeEnvelopeHash) == ByteString(c.hash(i.challenge))
    && Field(Pres(c, i), ChallengeDigest) == ByteString(CoreDigest(c, CoreBytes(ChallengeCwt(c, i))))
    && Field(Pres(c, i), ActionDigest) == ByteString(CoreDigest(c, ActionBytes(c, i)))
  }

  method Start(c: Crypto, i: Input) returns (r: Option<Rejection>, vector: map<Dimension, Status>)
    ensures r.None? <==> ChallengeHolds(c, i) && PresentationBinds(c, i)
    ensures (r.Some? ==> StartReason(r.value.reason) && Coded(r.value))
    ensures vector == VectorOf(if ChallengeHolds(c, i) then {ChallengeDim} else {})
  {
    hide StartReason, Coded, VectorOf, SignedCwt, InspectCwt, Field, Canonical;
    StartCodes();
    vector := VectorOf({});
    if i.challengerKeys == map[] {
      return Some(Rejection(Undecided, NoLocalChallengerKey)), vector;
    }
    var challenge := SignedCwt(c, i.challenge, ChallengeCore, i.challengerKeys);
    if challenge.None? {
      return Some(Rejection(Fail, ChallengeSignatureOrProfileInvalid)), vector;
    }
    var doc := challenge.value.core;
    if Field(Field(doc, Challenger), AgentKid) != Text(challenge.value.kid) {
      return Some(Rejection(Fail, ChallengeSignerMismatch)), vector;
    }
    var action := Field(doc, ActionField);
    if Num(doc, IssuedAt) > i.now {
      return Some(Rejection(Undecided, ChallengeNotCurrent)), vector;
    }
    if i.now >= Num(action, ExpiresAt) {
      return Some(Rejection(Fail, ChallengeExpired)), vector;
    }
    if Num(action, ExpiresAt) - Num(doc, IssuedAt) > i.maxLifetime {
      return Some(Rejection(Undecided, ActionLifetimeExceedsLocalPolicy)), vector;
    }
    vector := VectorOf({ChallengeDim});
    var presentation := InspectCwt(c, i.presentation, PresentationCore);
    if presentation.None? {
      return Some(Rejection(Fail, PresentationNotStrictCwt)), vector;
    }
    var pres := presentation.value.core;
    if !(Field(pres, ChallengeEnvelopeHash) == ByteString(c.hash(i.challenge))
         && Field(pres, ChallengeDigest) == ByteString(CoreDigest(c, challenge.value.coreBytes))
         && Field(pres, ActionDigest) == ByteString(CoreDigest(c, ActionBytes(c, i)))) {
      return Some(Rejection(Fail, PresentationChallengeOrActionMismatch)), vector;
    }
    r := None;
  }

  // ----- the facts the later stages establish

  predicate SameTenant(v: Value, w: Value) {
    Field(v, OrganisationRoot) == Field(w, OrganisationRoot) && Field(v, Tenant) == Field(w, Tenant)
  }

  /** Every root document verifies, for the delegation's tenant and organisation, which is the actor's; the
      delegation is live. */
  predicate RootsHold(c: Crypto, i: Input) {
    && (forall n | IsRoot(c, i, n) :: RootDoc(c, i, n).Some? && SameTenant(Root(c, i, n), Root(c, i, RootDelegation)))
    && Field(Field(Action(c, i), Actor), OrganisationRoot) == Field(Root(c, i, RootDelegation), OrganisationRoot)
    && Within(Root(c, i, RootDelegation), ValidFrom, ValidTo, i.now)
  }

  /** The passport authority signed the passport and the snapshot, the action authority the reservation, and
      the passport's own key the holder proof of the same core, the proof of possession and the presentation. */
  predicate SignaturesHold(c: Crypto, i: Input) {
    && PassportCwt(c, i).Some? && HolderProofCwt(c, i).Some? && HolderProofCwt(c, i).value.core == Holder(c, i)
    && AllSigned(c, i) && SignedCwt(c, i.presentation, PresentationCore, AgentKeys(c, i)).Some?
  }

  predicate AllSigned(c: Crypto, i: Input) {
    forall k | 0 <= k < |SIGNED_NAMES| :: SignedDoc(c, i, SIGNED_NAMES[k]).Some?
  }

  const BINDING_PAIRS := [(OrganisationRoot, OrganisationRoot), (Tenant, Tenant), (AuthorityDelegationId, DelegationId)]
  const ACTOR_FIELDS := [Birthtag, Revision, AgentKid]
  const TEMPLATE_FIELDS := [TemplateId, TemplateVersion, Owner, Purpose, MandateDigest, ConfigDigest]

  predicate Agree(v: Value, w: Value, names: seq<Name>) {
    forall n | n in names :: Field(v, n) == Field(w, n)
  }

  /** The passport names no successor link and none is presented, or exactly the presented link, which names
      this passport and its proposal and is in effect. */
  predicate SuccessorMatches(c: Crypto, credential: Value, link: Option<Cwt>, now: nat) {
    match (Field(credential, AgentSuccessorDigest), link)
    case (Null, None) => true
    case (ByteString(digest), Some(x)) =>
      && digest == CoreDigest(c, x.coreBytes) && Field(x.core, SuccessorBirthtag) == Field(credential, Birthtag)
      && Field(x.core, SuccessorRevision) == Field(credential, Revision)
      && BytesOf(Field(x.core, SuccessorProposalDigest)) == NamedDigest(c, credential, PROPOSAL_FIELDS, PROPOSAL_DOMAIN)
      && UintOf(Field(x.core, EffectiveAt)).Some? && Num(x.core, EffectiveAt) <= now
    case _ => false
  }

  function SuccessorCwt(c: Crypto, i: Input): Option<Cwt> {
    if HasSuccessor(c, i) then RootDoc(c, i, AgentSuccessor) else None
  }

  /** The passport's key plays no other role, it names the delegation and the actor, it and its template are
      live and agree, and its succession is accounted for. */
  predicate PassportHolds(c: Crypto, i: Input) {
    var credential, delegation, template := Holder(c, i), Root(c, i, RootDelegation), Root(c, i, RegistrationTemplate);
    && Field(credential, AgentKey) != Field(delegation, PassportAuthorityKey) && Field(credential, AgentKey) != Field(delegation, ActionAuthorityKey)
    && (forall p | p in BINDING_PAIRS :: Field(credential, p.0) == Field(delegation, p.1))
    && Agree(credential, Field(Action(c, i), Actor), ACTOR_FIELDS) && Within(credential, ValidFrom, ValidTo, i.now)
    && SuccessorMatches(c, credential, SuccessorCwt(c, i), i.now)
    && Agree(credential, template, TEMPLATE_FIELDS) && Within(template, ValidFrom, ValidTo, i.now)
  }

  datatype CounterState = CounterState(before: nat, after: nat, eligible: bool, state: bool)

  function BigEndian32(b: Bytes): nat
    requires |b| == 4
  {
    var (x: int, y: int, z: int) := (b[0], b[1], b[2]);
    ((x * 256 + y) * 256 + z) * 256 + b[3]
  }

  /** Authenticator flags: user present and verified, no others but the two backup bits, and no backup state
      without eligibility; the counter must progress. */
  function AdminFlags(auth: Bytes, previous: nat): Option<CounterState>
    requires |auth| == 37
  {
    var flags, counter := auth[32], BigEndian32(auth[33..37]);
    var eligible, state := flags / 8 % 2 == 1, flags / 16 % 2 == 1;
    if flags < 32 && flags / 2 % 2 == 0 && flags % 2 == 1 && flags / 4 % 2 == 1 && (state ==> eligible) && CounterProgresses(previous, counter)
    then Some(CounterState(previous, counter, eligible, state)) else None
  }

  predicate AdminContext(admin: Value, picked: Value, now: nat) {
    && Field(admin, RoleField) == Text(Ascii("agent-registrar")) && Within(admin, ValidFrom, ValidTo, now)
    && Agree(picked, admin, [Tenant, BindingId, CredentialId])
    && Num(admin, ValidFrom) <= Num(picked, SelectedAt) <= now
  }

  /** The registrar's assertion over the selection's challenge, and the counter it reports. */
  function VerifyAdmin(c: Crypto, admin: Value, picked: Value, origin: Bytes, previous: nat, now: nat): Option<CounterState> {
    var client, auth := Raw(picked, ClientDataJson), Raw(picked, AuthenticatorData);
    if !AdminContext(admin, picked, now) || !c.originOk(origin, Raw(admin, RpId)) then None
    else if !c.clientOk(client, Raw(picked, ChallengeField), origin) || |auth| != 37 || auth[..32] != c.hash(Raw(admin, RpId)) then None
    else
      var counter := AdminFlags(auth, previous);
      if counter.Some? && c.p256(Raw(admin, CosePublicKey), auth + c.hash(client), Raw(picked, SignatureField)) then counter else None
  }

  /** The registrar picked exactly the passport's proposal, on the presented challenge, in time. */
  predicate IssuanceOk(c: Crypto, credential: Value, template: Value, admin: Value, challenge: Value, pop: Value, selection: Value) {
    var proposal := NamedDigest(c, credential, PROPOSAL_FIELDS, PROPOSAL_DOMAIN);
    && proposal.Some? && Field(selection, ProposedAgentDigest) == ByteString(proposal.value) == Field(pop, ProposedAgentDigest)
    && Agree(selection, template, [TemplateId, TemplateVersion])
    && Field(selection, BindingId) == Field(admin, BindingId) == Field(credential, PrincipalBindingId)
    && Agree(selection, challenge, [ChallengeId, ChallengeField, BindingId, TemplateId, TemplateVersion, ProposedAgentDigest])
    && Field(pop, ChallengeField) == Field(selection, ChallengeField) && Agree(pop, credential, ACTOR_FIELDS)
    && SameTenant(challenge, credential)
    && Within(admin, ValidFrom, ValidTo, Num(challenge, IssuedAt)) && Within(challenge, IssuedAt, ExpiresAt, Num(selection, SelectedAt))
  }

  predicate IssuanceHolds(c: Crypto, i: Input) {
    SelectionOf(c, i).Some? &&
    IssuanceOk(c, Holder(c, i), Root(c, i, RegistrationTemplate), Root(c, i, AdminBinding), Root(c, i, AdminChallenge), Doc(c, i, AgentPop), Picked(c, i))
  }

  function SignedCounter(consumption: Value): CounterState {
    CounterState(Num(consumption, SignCountBefore), Num(consumption, SignCountAfter), Field(consumption, BackupEligible) == Bool(true),
                 Field(consumption, BackupState) == Bool(true))
  }

  predicate DigestsMatch(c: Crypto, i: Input) {
    && Field(Holder(c, i), AdminSelectionDigest) == ByteString(CoreDigest(c, SelectionRaw(c, i)))
    && Field(Holder(c, i), AgentPopDigest) == ByteString(CoreDigest(c, CoreBytes(SignedDoc(c, i, AgentPop))))
  }

  /** The root consumed this challenge, selection and passport once, before it expired. */
  predicate ConsumptionHolds(c: Crypto, i: Input) {
    var consumption, challenge := Root(c, i, AdminConsumption), Root(c, i, AdminChallenge);
    && SameTenant(consumption, challenge) && Field(consumption, BindingId) == Field(Root(c, i, AdminBinding), BindingId)
    && Field(consumption, ChallengeId) == Field(challenge, ChallengeId)
    && Field(consumption, ChallengeDigest) == ByteString(CoreDigest(c, CoreBytes(RootDoc(c, i, AdminChallenge))))
    && Field(consumption, SelectionDigest) == ByteString(CoreDigest(c, SelectionRaw(c, i)))
    && Field(consumption, CredentialDigest) == ByteString(CoreDigest(c, CoreBytes(PassportCwt(c, i))))
    && Num(Picked(c, i), SelectedAt) <= Num(consumption, ConsumedAt) <= i.now && Num(consumption, ConsumedAt) < Num(challenge, ExpiresAt)
  }

  predicate RegistrationHolds(c: Crypto, i: Input) {
    var signed := SignedCounter(Root(c, i, AdminConsumption));
    && IssuanceHolds(c, i)
    && VerifyAdmin(c, Root(c, i, AdminBinding), Picked(c, i), i.origin, signed.before, i.now) == Some(signed)
    && DigestsMatch(c, i) && ConsumptionHolds(c, i)
  }

  function HeadOf(v: Value): Head {
    Head(Num(v, SequenceField), Raw(v, AuthorityRoot), Raw(v, LogRoot), Num(v, LogSize))
  }

  function PlaceOf(v: Value): (Bytes, Bytes) {
    (Raw(v, Tenant), Raw(v, OrganisationRoot))
  }

  /** The checkpoint against the pinned head: none exactly when they are the same; behind is a rollback,
      ahead is undecided, and the same sequence with other contents is a fork. */
  function CheckpointHeadError(cp: Head, head: Head): (r: Option<Rejection>)
    ensures r.None? <==> cp == head
    ensures (r.Some? ==> HeadReason(r.value.reason) && Coded(r.value)) && (r.Some? && r.value.verdict == Undecided <==> cp.sequence > head.sequence)
  {
    if cp.sequence < head.sequence then Some(Rejection(Fail, AuthorityCheckpointRollback))
    else if cp.sequence > head.sequence then Some(Rejection(Undecided, AuthorityCheckpointAheadOfLocalHead))
    else if cp.authorityRoot != head.authorityRoot || cp.logRoot != head.logRoot || cp.logSize != head.logSize
    then Some(Rejection(Fail, AuthorityCheckpointFork))
    else None
  }

  function ProofsBytes(c: Crypto, i: Input): Bytes {
    var b := Canonical(Field(Pres(c, i), StateProofs));
    if b.Some? then b.value else []
  }

  function CheckpointId(c: Crypto, i: Input): Digest {
    CoreDigest(c, CoreBytes(RootDoc(c, i, AuthorityCheckpoint)))
  }

  /** The passport was issued under a registered checkpoint of the same place whose log is an ancestor. */
  predicate IssuedUnderAncestor(c: Crypto, i: Input) {
    var cp, issuance := Root(c, i, AuthorityCheckpoint), Raw(Holder(c, i), IssuanceCheckpoint);
    var path := Siblings(Field(Pres(c, i), IssuanceConsistencyProof));
    issuance in i.checkpoints && path.Some? &&
    var issued := i.checkpoints[issuance];
    && (issued.tenant, issued.organisation) == PlaceOf(cp) && issued.head.sequence <= HeadOf(cp).sequence
    && ConsistencyAccepts(c.hash, issued.head.logSize, HeadOf(cp).logSize, issued.head.logRoot, HeadOf(cp).logRoot, path.value)
  }

  /** The checkpoint is registered, is the pinned head, is fresh, and the snapshot is of it and of these proofs. */
  predicate CheckpointHolds(c: Crypto, i: Input) {
    var cp, snapshot := Root(c, i, AuthorityCheckpoint), Doc(c, i, StatusSnapshot);
    && CheckpointId(c, i) in i.checkpoints && i.checkpoints[CheckpointId(c, i)] == Pin(PlaceOf(cp).0, PlaceOf(cp).1, HeadOf(cp))
    && PlaceOf(cp) in i.heads && i.heads[PlaceOf(cp)] == HeadOf(cp)
    && IssuedUnderAncestor(c, i)
    && SameTenant(snapshot, cp) && Field(snapshot, AuthorityDelegationId) == Field(Root(c, i, RootDelegation), DelegationId)
    && Field(snapshot, CheckpointDigest) == ByteString(CheckpointId(c, i))
    && Field(snapshot, ProofsDigest) == ByteString(c.hash(PROOFS_DOMAIN + ProofsBytes(c, i)))
    && Num(cp, IssuedAt) <= i.now <= Num(cp, IssuedAt) + Num(Chal(c, i), MaxCheckpointAge)
    && Field(cp, IssuedAt) == Field(snapshot, StatusAsOf) && i.now < Num(snapshot, ExpiresAt)
  }

  // ----- authority state

  /** What a membership proof must show: an object's key, digest, state and, if fixed, version. */
  datatype Claim = Claim(key: Bytes, digest: Bytes, state: Bytes, version: Option<nat>)

  const RECORD_FIELDS := {KeyField, StateField, VersionField, ObjectDigest}

  /** The proof carries exactly the claimed record. */
  predicate ProofStates(proof: Value, claim: Claim) {
    var value := Field(proof, ValueField);
    && IsDocument(proof, Some(Membership), Fields(Membership)) && IsDocument(value, None, RECORD_FIELDS)
    && UintOf(Field(proof, IndexField)).Some? && UintOf(Field(proof, TreeSize)).Some? && Num(proof, IndexField) < Num(proof, TreeSize)
    && Field(proof, KeyField) == ByteString(claim.key) == Field(value, KeyField) && Field(value, StateField) == Text(claim.state)
    && UintOf(Field(value, VersionField)).Some? && Num(value, VersionField) > 0
    && (claim.version.Some? ==> Num(value, VersionField) == claim.version.value)
    && Field(value, ObjectDigest) == ByteString(claim.digest)
  }

  /** ... and the record's canonical bytes are a leaf under the root. */
  predicate StateAccepts(c: Crypto, proof: Value, root: Bytes, claim: Claim) {
    var path, leaf := Siblings(Field(proof, PathField)), Canonical(Field(proof, ValueField));
    && ProofStates(proof, claim) && path.Some? && leaf.Some?
    && InclusionAccepts(c.hash, LeafHash(c.hash, leaf.value), Num(proof, IndexField), Num(proof, TreeSize), path.value, root)
  }

  method VerifyState(c: Crypto, proof: Value, root: Bytes, claim: Claim) returns (ok: bool)
    ensures ok == StateAccepts(c, proof, root, claim)
  {
    hide Field, IsDocument, Canonical, InclusionAccepts, Siblings;
    if !ProofStates(proof, claim) {
      return false;
    }
    var siblings := Siblings(Field(proof, PathField));
    if siblings.None? {
      return false;
    }
    var leaf := Canonical(Field(proof, ValueField));
    if leaf.None? {
      return false;
    }
    ok := VerifyInclusion(c.hash, c.hash([0] + leaf.value), Num(proof, IndexField), Num(proof, TreeSize), siblings.value, root);
  }

  function BigEndian64(n: nat): Bytes {
    seq(8, i => n / Shift(7 - i) % 256)
  }

  function Shift(bytes: int): (p: nat)
    ensures p > 0
  {
    if bytes <= 0 then 1 else 256 * Shift(bytes - 1)
  }

  datatype Object = Object(name: Name, claim: Claim)

  /** The thirteen authority objects of an exchange, each with the state it must be in. */
  function Objects(c: Crypto, i: Input): seq<Object> {
    var credential, delegation, template, grant := Holder(c, i), Root(c, i, RootDelegation), Root(c, i, RegistrationTemplate), Root(c, i, LimitGrant);
    var revision := Raw(credential, Birthtag) + BigEndian64(Num(credential, Revision));
    var grantId := Raw(grant, GrantId) + BigEndian64(Num(grant, GrantVersion));
    var passport := CoreDigest(c, CoreBytes(PassportCwt(c, i)));
    [Rooted(c, i, RootDelegation, Raw(delegation, DelegationId), ACTIVE),
     Rooted(c, i, RegistrationTemplate, Raw(template, TemplateId), ACTIVE),
     Object(Mandate, Claim(StateKey(c, Mandate, Raw(template, MandateDigest)), Raw(template, MandateDigest), ACTIVE, None)),
     Object(AgentConfig, Claim(StateKey(c, AgentConfig, Raw(template, ConfigDigest)), Raw(template, ConfigDigest), ACTIVE, None)),
     Rooted(c, i, AdminBinding, Raw(Root(c, i, AdminBinding), BindingId), ACTIVE),
     Object(AdminSelection, Claim(StateKey(c, AdminSelection, Raw(Picked(c, i), ChallengeId)), CoreDigest(c, SelectionRaw(c, i)), ACTIVE, None)),
     Rooted(c, i, AdminChallenge, Raw(Root(c, i, AdminChallenge), ChallengeId), SUPERSEDED),
     Rooted(c, i, AdminConsumption, Raw(Root(c, i, AdminConsumption), ChallengeId), ACTIVE),
     Object(AgentPop, Claim(StateKey(c, AgentPop, revision), CoreDigest(c, CoreBytes(SignedDoc(c, i, AgentPop))), ACTIVE, None)),
     Object(Passport, Claim(StateKey(c, AgentCredential, revision), passport, ACTIVE, None)),
     Object(AgentHead, Claim(StateKey(c, AgentHead, Raw(credential, Birthtag)), passport, ACTIVE, UintOf(Field(credential, Revision)))),
     Rooted(c, i, LimitGrant, grantId, ACTIVE),
     Object(GrantHead, Claim(StateKey(c, GrantHead, Raw(grant, GrantId)), CoreDigest(c, CoreBytes(RootDoc(c, i, LimitGrant))), ACTIVE, None))]
  }

  function Rooted(c: Crypto, i: Input, n: Name, id: Bytes, state: Bytes): Object {
    Object(n, Claim(StateKey(c, n, id), CoreDigest(c, CoreBytes(RootDoc(c, i, n))), state, None))
  }

  /** The successor link is current, and the predecessor is superseded at its next version. */
  function SuccessorObjects(c: Crypto, i: Input): seq<Object> {
    var link := Root(c, i, AgentSuccessor);
    [Object(AgentSuccessor, Claim(StateKey(c, AgentSuccessor, Raw(Holder(c, i), Birthtag)), CoreDigest(c, CoreBytes(RootDoc(c, i, AgentSuccessor))), ACTIVE, Some(1))),
     Object(PredecessorHead, Claim(StateKey(c, AgentHead, Raw(link, PredecessorBirthtag)), Raw(link, PredecessorCredentialDigest), SUPERSEDED,
                                   Some(Num(link, PredecessorRevision) + 1)))]
  }

  /** The counter head, at whatever version and digest its proof carries. */
  function CounterObject(c: Crypto, i: Input): Object {
    var value := Field(Field(Field(Pres(c, i), StateProofs), AdminCounter), ValueField);
    Object(AdminCounter, Claim(StateKey(c, AdminCounter, Raw(Root(c, i, AdminConsumption), BindingId)), Raw(value, ObjectDigest), ACTIVE,
                               Some(Num(value, VersionField))))
  }

  /** Every object whose state a run must prove. */
  function AllObjects(c: Crypto, i: Input): seq<Object> {
    Objects(c, i) + (if HasSuccessor(c, i) then SuccessorObjects(c, i) else []) + [CounterObject(c, i)]
  }

  function ProofOf(c: Crypto, i: Input, n: Name): Value {
    Field(Field(Pres(c, i), StateProofs), n)
  }

  predicate StatesHold(c: Crypto, i: Input, root: Bytes) {
    var counter := Field(ProofOf(c, i, AdminCounter), ValueField);
    && (forall k | 0 <= k < |AllObjects(c, i)| :: StateAccepts(c, ProofOf(c, i, AllObjects(c, i)[k].name), root, AllObjects(c, i)[k].claim))
    && (!HasSuccessor(c, i) ==> ProofOf(c, i, AgentSuccessor) == Null == ProofOf(c, i, PredecessorHead))
    && Fits(Fixed, Field(counter, ObjectDigest)) && Num(counter, VersionField) >= Num(Root(c, i, AdminConsumption), CounterVersion)
  }

  // ----- the action

  const ACTION_GRANT := [Operation, Unit, GrantId, GrantVersion]
  const ACTION_ASA := [AsaId, GrantId, GrantVersion, ExpiresAt]

  /** The grant is the delegation's, for this actor, recipient, operation, unit and scope; it is live, and the
      amount is within its ceiling. */
  predicate GrantHolds(c: Crypto, i: Input) {
    var grant, delegation, action := Root(c, i, LimitGrant), Root(c, i, RootDelegation), Action(c, i);
    var scope := NamedDigest(c, action, SCOPE_FIELDS, SCOPE_DOMAIN);
    && SameTenant(grant, delegation) && Field(grant, AuthorityDelegationId) == Field(delegation, DelegationId)
    && Field(grant, ActorBirthtag) == Field(Field(action, Actor), Birthtag)
    && Field(grant, RecipientOrganisationRoot) == Field(Field(action, Recipient), OrganisationRoot)
    && Agree(grant, action, ACTION_GRANT) && scope.Some? && Field(grant, ActionScopeDigest) == ByteString(scope.value)
    && Within(grant, ValidFrom, ValidTo, i.now) && Within(grant, WindowStart, WindowEnd, i.now)
    && DecimalAtMost(Raw(action, ValueField), Raw(grant, Ceiling))
  }

  /** The reservation is the delegation's, for exactly this action and challenge. */
  predicate AsaHolds(c: Crypto, i: Input) {
    var asa, delegation, action := Doc(c, i, AsaField), Root(c, i, RootDelegation), Action(c, i);
    && SameTenant(asa, delegation) && Field(asa, AuthorityDelegationId) == Field(delegation, DelegationId)
    && Agree(asa, action, ACTION_ASA)
    && Field(asa, ActionDigest) == ByteString(CoreDigest(c, ActionBytes(c, i)))
    && Field(asa, ChallengeDigest) == ByteString(CoreDigest(c, CoreBytes(ChallengeCwt(c, i))))
    && Within(asa, IssuedAt, ExpiresAt, i.now)
  }

  // ----- the transcript

  function TranscriptValue(c: Crypto, i: Input): Value {
    Map([Entry(Text(Spell(SchemaField)), Text(Ascii("swarrm-b28/transcript/v1"))),
         Entry(Text(Spell(ChallengeEnvelopeHash)), ByteString(c.hash(i.challenge))),
         Entry(Text(Spell(ChallengeDigest)), ByteString(CoreDigest(c, CoreBytes(ChallengeCwt(c, i))))),
         Entry(Text(Spell(ActionDigest)), ByteString(CoreDigest(c, ActionBytes(c, i)))),
         Entry(Text(Spell(AsaEnvelopeHash)), ByteString(c.hash(Raw(Pres(c, i), AsaField)))),
         Entry(Text(Spell(AsaDigest)), ByteString(CoreDigest(c, CoreBytes(SignedDoc(c, i, AsaField)))))])
  }

  predicate TranscriptHolds(c: Crypto, i: Input) {
    var created, transcript := Num(Pres(c, i), CreatedAt), Canonical(TranscriptValue(c, i));
    && transcript.Some? && Field(Pres(c, i), TranscriptDigest) == ByteString(c.hash(TRANSCRIPT_DOMAIN + transcript.value))
    && Num(Chal(c, i), IssuedAt) <= created < Num(Action(c, i), ExpiresAt)
    && Num(Doc(c, i, AsaField), IssuedAt) <= created && Num(Root(c, i, AuthorityCheckpoint), IssuedAt) <= created
    && Num(Doc(c, i, StatusSnapshot), StatusAsOf) <= created <= i.now
  }

  predicate FinishHolds(c: Crypto, i: Input) {
    TranscriptHolds(c, i) && Evaluable(Field(Chal(c, i), RequiredDimensions))
  }

  /** No required dimension is one this version does not evaluate. */
  predicate Evaluable(required: Value) {
    required.Array? ==> forall d | d in UNEVALUATED :: Text(DimensionText(d)) !in required.items
  }

  // ----- the staged evaluation

  class Evaluation {
    const c: Crypto
    const input: Input
    const challenge: Cwt
    const action: Value
    const actionBytes: Bytes
    const pres: Value
    var vector: map<Dimension, Status>
    var rooted: map<Name, Cwt>
    var signed: map<Name, Cwt>
    var credential: Option<Cwt>
    var selection: Option<Value>
    var selectionRaw: Bytes
    var headRoot: Bytes

    /** Which dimensions have been verified so far. */
    ghost var verified: set<Dimension>

    ghost predicate Valid()
      reads this
    {
      && vector == VectorOf(verified) && verified <= EVALUATED - {Replay}
      && ChallengeHolds(c, input) && PresentationBinds(c, input)
      && ChallengeCwt(c, input) == Some(challenge) && action == Action(c, input) && actionBytes == ActionBytes(c, input) && pres == Pres(c, input)
      && (forall n | n in rooted :: RootDoc(c, input, n) == Some(rooted[n]))
      && (forall n | n in signed :: SignedDoc(c, input, n) == Some(signed[n]))
      && (credential.Some? ==> PassportCwt(c, input) == credential)
      && (selection.Some? ==> SelectionOf(c, input) == selection && selectionRaw == SelectionRaw(c, input))
    }

    ghost predicate HasFixedRoots()
      reads this
    {
      && RootDelegation in rooted && RegistrationTemplate in rooted && AdminBinding in rooted && AdminChallenge in rooted
      && AdminConsumption in rooted && LimitGrant in rooted && AuthorityCheckpoint in rooted
    }

    ghost predicate HasRoots()
      reads this
    {
      HasFixedRoots() && (AgentSuccessor in rooted <==> HasSuccessor(c, input))
    }

    ghost predicate HasSigned()
      reads this
    {
      HasRoots() && credential.Some? && AgentPop in signed && StatusSnapshot in signed && AsaField in signed
    }

    constructor (c: Crypto, input: Input)
      requires ChallengeHolds(c, input) && PresentationBinds(c, input)
      ensures this.c == c && this.input == input
      ensures Valid() && verified == {ChallengeDim} && rooted == map[] && signed == map[]
    {
      hide VectorOf, ChallengeHolds, PresentationBinds, SignedCwt, RootDoc, SignedDoc, PassportCwt, SelectionOf, Pres, ActionBytes, Action;
      ChallengePresent(c, input);
      this.c, this.input := c, input;
      challenge, action, actionBytes, pres := ChallengeCwt(c, input).value, Action(c, input), ActionBytes(c, input), Pres(c, input);
      rooted, signed, credential, selection, selectionRaw, headRoot := map[], map[], None, None, [], [];
      vector := VectorOf({ChallengeDim});
      verified := {ChallengeDim};
    }

    method Mark(names: set<Dimension>)
      requires vector == VectorOf(verified) && names <= EVALUATED - {Replay}
      modifies this`vector, this`verified
      ensures vector == VectorOf(verified) && verified == old(verified) + names
    {
      vector := map d | d in vector.Keys + names :: if d in names then Verified else vector[d];
      verified := verified + names;
      assert vector == VectorOf(verified);
    }

    method ReadRoot(n: Name) returns (cwt: Option<Cwt>)
      requires Valid()
      ensures cwt == RootDoc(c, input, n)
    {
      hide VectorOf, ChallengeHolds, PresentationBinds, ChallengeCwt, SignedDoc, PassportCwt, SelectionOf, Field, Pres, ActionBytes, Action, RootCwt;
      var raw := BytesOf(Field(pres, n));
      cwt := if raw.Some? then RootCwt(c, raw.value, RootSchema(n), input.roots) else None;
    }

    /** Reads the root documents in order, the successor link last if there is one. */
    method ReadRoots() returns (ok: bool)
      requires Valid() && rooted == map[]
      modifies this`rooted
      ensures Valid() && (ok <==> forall n | IsRoot(c, input, n) :: RootDoc(c, input, n).Some?)
      ensures ok ==> forall n :: n in rooted <==> IsRoot(c, input, n)
    {
      hide VectorOf, ChallengeHolds, PresentationBinds, ChallengeCwt, RootDoc, SignedDoc, PassportCwt, SelectionOf, Field, Pres, ActionBytes, Action;
      for k := 0 to |ROOT_NAMES|
        invariant Valid() && (forall j | 0 <= j < k :: ROOT_NAMES[j] in rooted) && forall n | n in rooted :: n in ROOT_NAMES
      {
        var n := ROOT_NAMES[k];
        assert n in ROOT_NAMES && IsRoot(c, input, n);
        var cwt := ReadRoot(n);
        if cwt.None? {
          return false;
        }
        rooted := rooted[n := cwt.value];
      }
      assert HasFixedRoots() by {
        assert ROOT_NAMES[0] in rooted && ROOT_NAMES[1] in rooted && ROOT_NAMES[2] in rooted && ROOT_NAMES[3] in rooted;
        assert ROOT_NAMES[4] in rooted && ROOT_NAMES[5] in rooted && ROOT_NAMES[6] in rooted;
      }
      if Field(pres, AgentSuccessor).ByteString? {
        assert IsRoot(c, input, AgentSuccessor);
        var cwt := ReadRoot(AgentSuccessor);
        if cwt.None? {
          return false;
        }
        rooted := rooted[AgentSuccessor := cwt.value];
      }
      ok := true;
    }

    method Roots() returns (r: Option<Rejection>)
      requires Valid() && rooted == map[]
      modifies this`rooted, this`vector, this`verified
      ensures Valid() && (r.None? <==> RootsHold(c, input)) && (r.Some? ==> RootsReason(r.value.reason) && Coded(r.value))
      ensures verified == if r.None? then old(verified) + {RootChain, DelegationDim} else old(verified)
      ensures r.None? ==> HasRoots()
    {
      hide RootsReason, Coded, VectorOf, ChallengeHolds, PresentationBinds, ChallengeCwt, RootDoc, SignedDoc, PassportCwt, SelectionOf, Field, Pres,
           ActionBytes, Action, SameTenant, Within, HasSuccessor;
      RootsCodes();
      var ok := ReadRoots();
      if !ok {
        return Some(Rejection(Fail, RootAuthorityChainInvalid));
      }
      assert IsRoot(c, input, RootDelegation);
      var delegation := rooted[RootDelegation].core;
      if exists n | n in rooted :: !SameTenant(rooted[n].core, delegation) {
        return Some(Rejection(Fail, RootOrTenantSubstitution));
      }
      if Field(Field(action, Actor), OrganisationRoot) != Field(delegation, OrganisationRoot) {
        return Some(Rejection(Fail, ActorOrganisationMismatch));
      }
      if !Within(delegation, ValidFrom, ValidTo, input.now) {
        return Some(Rejection(Fail, AuthorityDelegationInactive));
      }
      Mark({RootChain, DelegationDim});
      r := None;
    }

    /** One presented document under the keys given for it. */
    method ReadSigned(n: Name, s: Schema, keys: map<Bytes, Bytes>) returns (cwt: Option<Cwt>)
      requires Valid()
      ensures cwt == PresentedCwt(c, input, n, s, keys)
    {
      hide VectorOf, ChallengeHolds, PresentationBinds, ChallengeCwt, RootDoc, SelectionOf, Field, Pres, ActionBytes, Action, SignedDoc, PassportCwt,
           SignedCwt;
      var raw := BytesOf(Field(pres, n));
      cwt := if raw.Some? then SignedCwt(c, raw.value, s, keys) else None;
    }

    method ReadHolder() returns (cwt: Option<Cwt>)
      requires Valid()
      ensures cwt == HolderProofCwt(c, input)
    {
      hide VectorOf, ChallengeHolds, PresentationBinds, ChallengeCwt, RootDoc, SelectionOf, Field, Pres, ActionBytes, Action, SignedDoc, PassportCwt,
           InspectCwt;
      var raw := BytesOf(Field(pres, PassportHolderProof));
      cwt := if raw.Some? then InspectCwt(c, raw.value, Credential) else None;
    }

    /** Reads the four documents signed under the given keys. */
    method ReadSignedDocs(psa: map<Bytes, Bytes>, act: map<Bytes, Bytes>, agent: map<Bytes, Bytes>) returns (ok: bool)
      requires Valid() && signed == map[]
      requires psa == PassportKeys(c, input) && act == ActionKeys(c, input) && agent == AgentKeys(c, input)
      modifies this`signed
      ensures Valid() && (ok <==> AllSigned(c, input))
      ensures ok ==> AgentPop in signed && StatusSnapshot in signed && AsaField in signed
    {
      hide VectorOf, ChallengeHolds, PresentationBinds, ChallengeCwt, RootDoc, SelectionOf, Field, Pres, ActionBytes, Action, SignedDoc, PassportCwt,
           PresentedCwt, PassportKeys, ActionKeys, AgentKeys, KeysFor, SignedSchema;
      for k := 0 to |SIGNED_NAMES|
        invariant Valid() && forall j | 0 <= j < k :: SIGNED_NAMES[j] in signed && SignedDoc(c, input, SIGNED_NAMES[j]).Some?
      {
        var n := SIGNED_NAMES[k];
        SignedDocIs(c, input, n);
        var cwt := ReadSigned(n, SignedSchema(n), KeysFor(n, psa, act, agent));
        if cwt.None? {
          return false;
        }
        signed := signed[n := cwt.value];
      }
      assert SIGNED_NAMES[1] in signed && SIGNED_NAMES[2] in signed && SIGNED_NAMES[3] in signed;
      ok := true;
    }

    method Signatures() returns (r: Option<Rejection>)
      requires Valid() && HasRoots() && signed == map[]
      modifies this`signed, this`credential, this`vector, this`verified
      ensures Valid() && HasRoots() && (r.None? <==> SignaturesHold(c, input)) && (r.Some? ==> SignaturesReason(r.value.reason) && Coded(r.value))
      ensures verified == if r.None? then old(verified) + {LiveKeyControl, PassportIdentity} else old(verified)
      ensures r.None? ==> HasSigned()
    {
      hide SignaturesReason, Coded, VectorOf, ChallengeHolds, PresentationBinds, ChallengeCwt, RootDoc, SelectionOf, Field, Pres, ActionBytes, Action,
           SignedDoc, PresentedCwt, HolderProofCwt, SignedCwt, AllSigned, KeyNamed, HasSuccessor;
      SignaturesCodes();
      var delegation := rooted[RootDelegation].core;
      var psa := KeyNamed(delegation, PassportAuthorityKid, PassportAuthorityKey);
      var act := KeyNamed(delegation, ActionAuthorityKid, ActionAuthorityKey);
      var passport := ReadSigned(Passport, Credential, psa);
      if passport.None? {
        return Some(Rejection(Fail, DelegatedOrAgentSignatureInvalid));
      }
      var holder := ReadHolder();
      if holder.None? {
        return Some(Rejection(Fail, DelegatedOrAgentSignatureInvalid));
      }
      if holder.value.core != passport.value.core {
        return Some(Rejection(Fail, PassportHolderCoreMismatch));
      }
      var agent := KeyNamed(passport.value.core, AgentKid, AgentKey);
      var ok := ReadSignedDocs(psa, act, agent);
      if !ok || SignedCwt(c, input.presentation, PresentationCore, agent).None? {
        return Some(Rejection(Fail, DelegatedOrAgentSignatureInvalid));
      }
      credential := passport;
      Mark({LiveKeyControl, PassportIdentity});
      r := None;
    }

    method CheckPassport() returns (r: Option<Rejection>)
      requires Valid() && HasSigned()
      modifies this`vector, this`verified
      ensures Valid() && HasSigned() && (r.None? <==> PassportHolds(c, input)) && (r.Some? ==> PassportReason(r.value.reason) && Coded(r.value))
      ensures verified == if r.None? then old(verified) + {BindingDim} else old(verified)
    {
      hide PassportReason, Coded, VectorOf, ChallengeHolds, PresentationBinds, ChallengeCwt, RootDoc, SignedDoc, PassportCwt, Field, Raw, Num, Pres,
           ActionBytes, Action, Ascii, Spell, CoreDigest, Canonical, NamedDigest, Agree, Within, SameTenant, HasSuccessor, SuccessorMatches,
           SelectionOf;
      PassportCodes();
      var doc, delegation, template := credential.value.core, rooted[RootDelegation].core, rooted[RegistrationTemplate].core;
      var actor := Field(action, Actor);
      if Field(doc, AgentKey) == Field(delegation, PassportAuthorityKey) || Field(doc, AgentKey) == Field(delegation, ActionAuthorityKey) {
        return Some(Rejection(Fail, AuthorityKeyRoleCollision));
      }
      if (exists p | p in BINDING_PAIRS :: Field(doc, p.0) != Field(delegation, p.1)) || !Agree(doc, actor, ACTOR_FIELDS)
         || !Within(doc, ValidFrom, ValidTo, input.now) {
        return Some(Rejection(Fail, PassportBindingOrValidityInvalid));
      }
      var link := if AgentSuccessor in rooted then Some(rooted[AgentSuccessor]) else None;
      assert link == SuccessorCwt(c, input);
      if !SuccessorMatches(c, doc, link, input.now) {
        return Some(Rejection(Fail, AgentSuccessorInvalid));
      }
      if !Agree(doc, template, TEMPLATE_FIELDS) || !Within(template, ValidFrom, ValidTo, input.now) {
        return Some(Rejection(Fail, PassportTemplateMismatch));
      }
      Mark({BindingDim});
      r := None;
    }

    method Register() returns (r: Option<Rejection>)
      requires Valid() && HasSigned()
      modifies this`vector, this`verified, this`selection, this`selectionRaw
      ensures Valid() && HasSigned() && (r.None? <==> RegistrationHolds(c, input)) && (r.Some? ==> RegisterReason(r.value.reason) && Coded(r.value))
      ensures verified == if r.None? then old(verified) + {TemplateAdminPop} else old(verified)
      ensures r.None? ==> selection.Some?
    {
      hide RegisterReason, Coded, VectorOf, ChallengeHolds, PresentationBinds, ChallengeCwt, RootDoc, SignedDoc, PassportCwt, Field, Raw, Num, Pres,
           ActionBytes, Action, Ascii, Spell, CoreDigest, Canonical, NamedDigest, Agree, Within, SameTenant, HasSuccessor, VerifyAdmin, Decode,
           ValidCore;
      RegisterCodes();
      var doc, template, admin := credential.value.core, rooted[RegistrationTemplate].core, rooted[AdminBinding].core;
      var challenge, consumption, pop := rooted[AdminChallenge].core, rooted[AdminConsumption].core, signed[AgentPop].core;
      selection, selectionRaw := None, Raw(pres, AdminSelection);
      var decoded := Decode(selectionRaw, 16_384);
      if decoded.None? || !ValidCore(c, Selection, decoded.value) {
        return Some(Rejection(Fail, TemplateAdminPopIssuanceInvalid));
      }
      var picked, proposal := decoded.value, NamedDigest(c, doc, PROPOSAL_FIELDS, PROPOSAL_DOMAIN);
      if !(proposal.Some? && Field(picked, ProposedAgentDigest) == ByteString(proposal.value)
           && Agree(picked, template, [TemplateId, TemplateVersion]) && Field(picked, BindingId) == Field(admin, BindingId)
           && Field(doc, PrincipalBindingId) == Field(admin, BindingId)
           && Agree(picked, challenge, [ChallengeId, ChallengeField, BindingId, TemplateId, TemplateVersion, ProposedAgentDigest])
           && Field(pop, ProposedAgentDigest) == ByteString(proposal.value) && Field(pop, ChallengeField) == Field(picked, ChallengeField)
           && Agree(pop, doc, ACTOR_FIELDS) && SameTenant(challenge, doc)
           && Within(admin, ValidFrom, ValidTo, Num(challenge, IssuedAt)) && Within(challenge, IssuedAt, ExpiresAt, Num(picked, SelectedAt))) {
        return Some(Rejection(Fail, TemplateAdminPopIssuanceInvalid));
      }
      var counter := SignedCounter(consumption);
      if VerifyAdmin(c, admin, picked, input.origin, counter.before, input.now) != Some(counter) {
        return Some(Rejection(Fail, TemplateAdminPopConsumptionInvalid));
      }
      if !(Field(doc, AdminSelectionDigest) == ByteString(CoreDigest(c, selectionRaw))
           && Field(doc, AgentPopDigest) == ByteString(CoreDigest(c, signed[AgentPop].coreBytes))) {
        return Some(Rejection(Fail, TemplateAdminPopIssuanceInvalid));
      }
      if !(SameTenant(consumption, challenge) && Field(consumption, BindingId) == Field(admin, BindingId)
           && Field(consumption, ChallengeId) == Field(challenge, ChallengeId)
           && Field(consumption, ChallengeDigest) == ByteString(CoreDigest(c, rooted[AdminChallenge].coreBytes))
           && Field(consumption, SelectionDigest) == ByteString(CoreDigest(c, selectionRaw))
           && Field(consumption, CredentialDigest) == ByteString(CoreDigest(c, credential.value.coreBytes))
           && Num(picked, SelectedAt) <= Num(consumption, ConsumedAt) <= input.now && Num(consumption, ConsumedAt) < Num(challenge, ExpiresAt)) {
        return Some(Rejection(Fail, TemplateAdminPopConsumptionInvalid));
      }
      selection := Some(picked);
      Mark({TemplateAdminPop});
      r := None;
    }

    method CheckCheckpoint() returns (r: Option<Rejection>)
      requires Valid() && HasSigned()
      modifies this`headRoot
      ensures Valid() && HasSigned() && (r.None? <==> CheckpointHolds(c, input)) && (r.Some? ==> CheckpointReason(r.value.reason) && Coded(r.value))
      ensures r.None? ==> headRoot == Raw(Root(c, input, AuthorityCheckpoint), AuthorityRoot)
    {
      hide CheckpointReason, HeadReason, Coded, VectorOf, ChallengeHolds, PresentationBinds, ChallengeCwt, RootDoc, SignedDoc, PassportCwt, Field,
           Raw, Num, Pres, ActionBytes, Action, Ascii, Spell, CoreDigest, Canonical, NamedDigest, Agree, Within, SameTenant, HasSuccessor,
           ConsistencyAccepts, Siblings, SelectionOf;
      CheckpointCodes();
      var checkpoint, doc, delegation := rooted[AuthorityCheckpoint].core, credential.value.core, rooted[RootDelegation].core;
      var digest, place, own := CoreDigest(c, rooted[AuthorityCheckpoint].coreBytes), PlaceOf(checkpoint), HeadOf(checkpoint);
      if digest !in input.checkpoints || input.checkpoints[digest] != Pin(place.0, place.1, own) {
        return Some(Rejection(Undecided, AuthorityCheckpointUnregistered));
      }
      if place !in input.heads {
        return Some(Rejection(Undecided, LocalAuthorityHeadUnavailable));
      }
      var head := input.heads[place];
      var mismatch := CheckpointHeadError(own, head);
      if mismatch.Some? {
        return mismatch;
      }
      var issuance := Raw(doc, IssuanceCheckpoint);
      if issuance !in input.checkpoints {
        return Some(Rejection(Undecided, PassportIssuanceCheckpointUnregistered));
      }
      var issued := input.checkpoints[issuance];
      if (issued.tenant, issued.organisation) != place || issued.head.sequence > own.sequence {
        return Some(Rejection(Undecided, PassportIssuanceCheckpointUnregistered));
      }
      var path := Siblings(Field(pres, IssuanceConsistencyProof));
      if path.None? {
        return Some(Rejection(Fail, PassportIssuanceLogNotAncestor));
      }
      var consistent := VerifyConsistency(c.hash, issued.head.logSize, own.logSize, issued.head.logRoot, own.logRoot, path.value);
      if !consistent {
        return Some(Rejection(Fail, PassportIssuanceLogNotAncestor));
      }
      var snapshot := signed[StatusSnapshot].core;
      if !(SameTenant(snapshot, checkpoint) && Field(snapshot, AuthorityDelegationId) == Field(delegation, DelegationId)
           && Field(snapshot, CheckpointDigest) == ByteString(digest)
           && Field(snapshot, ProofsDigest) == ByteString(c.hash(PROOFS_DOMAIN + ProofsBytes(c, input)))) {
        return Some(Rejection(Fail, StatusCheckpointBindingInvalid));
      }
      if input.now < Num(checkpoint, IssuedAt) || input.now - Num(checkpoint, IssuedAt) > Num(challenge.core, MaxCheckpointAge) {
        return Some(Rejection(Undecided, StatusCheckpointStale));
      }
      if Field(checkpoint, IssuedAt) != Field(snapshot, StatusAsOf) {
        return Some(Rejection(Fail, StatusCheckpointBindingInvalid));
      }
      if input.now >= Num(snapshot, ExpiresAt) {
        return Some(Rejection(Undecided, StatusCheckpointStale));
      }
      headRoot := head.authorityRoot;
      r := None;
    }

    /** Proves each object in turn and stops at the first whose proof fails. */
    method ProveObjects(objects: seq<Object>) returns (failed: Option<Name>)
      requires Valid()
      ensures failed.None? <==> forall k | 0 <= k < |objects| :: StateAccepts(c, ProofOf(c, input, objects[k].name), headRoot, objects[k].claim)
    {
      hide *;
      for k := 0 to |objects|
        invariant forall j | 0 <= j < k :: StateAccepts(c, ProofOf(c, input, objects[j].name), headRoot, objects[j].claim)
      {
        var ok := VerifyState(c, ProofOf(c, input, objects[k].name), headRoot, objects[k].claim);
        if !ok {
          return Some(objects[k].name);
        }
      }
      failed := None;
    }

    method AuthorityProofs() returns (r: Option<Rejection>)
      requires Valid() && HasSigned() && selection.Some?
      modifies this`vector, this`verified
      ensures Valid() && HasSigned() && (r.None? <==> StatesHold(c, input, headRoot))
      ensures r.Some? ==> StatesReason(r.value.reason) && Coded(r.value)
      ensures verified == if r.None? then old(verified) + {FreshStatus} else old(verified)
    {
      hide StatesReason, Coded, VectorOf, ChallengeHolds, PresentationBinds, ChallengeCwt, RootDoc, SignedDoc, PassportCwt, Field, Raw, Num, Pres,
           ActionBytes, Action, Ascii, Spell, CoreDigest, Canonical, NamedDigest, Agree, Within, SameTenant, HasSuccessor, Objects, SuccessorObjects,
           CounterObject, StateAccepts, ProofOf, SelectionOf;
      OtherCodes();
      AllObjectsProven(c, input, headRoot);
      var failed := ProveObjects(Objects(c, input));
      if failed.Some? {
        return Some(Rejection(Fail, AuthorityStateProofInvalid(failed.value)));
      }
      if AgentSuccessor in rooted {
        failed := ProveObjects(SuccessorObjects(c, input));
        if failed.Some? {
          return Some(Rejection(Fail, AuthorityStateProofInvalid(failed.value)));
        }
      } else if ProofOf(c, input, AgentSuccessor) != Null || ProofOf(c, input, PredecessorHead) != Null {
        return Some(Rejection(Fail, AgentSuccessorInvalid));
      }
      var value := Field(ProofOf(c, input, AdminCounter), ValueField);
      if !Fits(Fixed, Field(value, ObjectDigest)) || Num(value, VersionField) < Num(rooted[AdminConsumption].core, CounterVersion) {
        return Some(Rejection(Fail, AuthorityStateProofInvalid(AdminCounter)));
      }
      failed := ProveObjects([CounterObject(c, input)]);
      if failed.Some? {
        return Some(Rejection(Fail, AuthorityStateProofInvalid(AdminCounter)));
      }
      Mark({FreshStatus});
      r := None;
    }

    method CheckAction() returns (r: Option<Rejection>)
      requires Valid() && HasSigned()
      modifies this`vector, this`verified
      ensures Valid() && HasSigned() && (r.None? <==> GrantHolds(c, input) && AsaHolds(c, input))
      ensures r.Some? ==> Coded(r.value) && (if GrantHolds(c, input) then r.value.reason.AsaExactBindingOrValidityInvalid?
                                              else r.value.reason.ActionOutsideRootLimitGrant?)
      ensures GrantHolds(c, input) ==> verified == if r.None? then old(verified) + {GrantDim} + {AsaReservation, ExactAction} else old(verified) + {GrantDim}
      ensures !GrantHolds(c, input) ==> verified == old(verified)
    {
      hide Coded, VectorOf, ChallengeHolds, PresentationBinds, ChallengeCwt, RootDoc, SignedDoc, PassportCwt, Field, Raw, Num, Pres, ActionBytes,
           Action, Ascii, Spell, CoreDigest, Canonical, NamedDigest, Agree, Within, SameTenant, HasSuccessor, DecimalAtMost, SelectionOf;
      OtherCodes();
      var delegation, grant := rooted[RootDelegation].core, rooted[LimitGrant].core;
      var actor, recipient, scope := Field(action, Actor), Field(action, Recipient), NamedDigest(c, action, SCOPE_FIELDS, SCOPE_DOMAIN);
      if !(SameTenant(grant, delegation) && Field(grant, AuthorityDelegationId) == Field(delegation, DelegationId)
           && Field(grant, ActorBirthtag) == Field(actor, Birthtag)
           && Field(grant, RecipientOrganisationRoot) == Field(recipient, OrganisationRoot) && Agree(grant, action, ACTION_GRANT)
           && scope.Some? && Field(grant, ActionScopeDigest) == ByteString(scope.value)
           && Within(grant, ValidFrom, ValidTo, input.now) && Within(grant, WindowStart, WindowEnd, input.now)
           && DecimalAtMost(Raw(action, ValueField), Raw(grant, Ceiling))) {
        return Some(Rejection(Fail, ActionOutsideRootLimitGrant));
      }
      Mark({GrantDim});
      var asa := signed[AsaField].core;
      if !(SameTenant(asa, delegation) && Field(asa, AuthorityDelegationId) == Field(delegation, DelegationId) && Agree(asa, action, ACTION_ASA)
           && Field(asa, ActionDigest) == ByteString(CoreDigest(c, actionBytes))
           && Field(asa, ChallengeDigest) == ByteString(CoreDigest(c, challenge.coreBytes)) && Within(asa, IssuedAt, ExpiresAt, input.now)) {
        return Some(Rejection(Fail, AsaExactBindingOrValidityInvalid));
      }
      Mark({AsaReservation, ExactAction});
      r := None;
    }

    method Finish() returns (r: Option<Rejection>)
      requires Valid() && HasSigned()
      modifies this`vector, this`verified
      ensures Valid() && HasSigned() && (r.None? <==> FinishHolds(c, input)) && (r.Some? ==> FinishReason(r.value.reason) && Coded(r.value))
      ensures verified == if TranscriptHolds(c, input) then old(verified) + {Transcript} else old(verified)
    {
      hide FinishReason, Coded, VectorOf, ChallengeHolds, PresentationBinds, ChallengeCwt, RootDoc, SignedDoc, PassportCwt, Field, Raw, Num, Pres,
           ActionBytes, Action, Ascii, Spell, CoreDigest, Canonical, NamedDigest, Agree, Within, SameTenant, HasSuccessor, TranscriptValue, Evaluable,
           DimensionText, SelectionOf;
      FinishCodes();
      var transcript := Canonical(TranscriptValue(c, input));
      if transcript.None? || Field(pres, TranscriptDigest) != ByteString(c.hash(TRANSCRIPT_DOMAIN + transcript.value)) {
        return Some(Rejection(Fail, TranscriptBindingInvalid));
      }
      var created := Num(pres, CreatedAt);
      if !(Num(challenge.core, IssuedAt) <= created < Num(action, ExpiresAt)) {
        return Some(Rejection(Fail, PresentationTimeOutsideChallenge));
      }
      var asa, checkpoint, snapshot := signed[AsaField].core, rooted[AuthorityCheckpoint].core, signed[StatusSnapshot].core;
      if !(Num(asa, IssuedAt) <= created && Num(checkpoint, IssuedAt) <= created && Num(snapshot, StatusAsOf) <= created) {
        return Some(Rejection(Fail, PresentationTimeOutsideAssurance));
      }
      if created > input.now {
        return Some(Rejection(Fail, PresentationTimeOutsideLocalClock));
      }
      Mark({Transcript});
      if !Evaluable(Field(challenge.core, RequiredDimensions)) {
        return Some(Rejection(Undecided, RequiredDimensionNotEvaluated));
      }
      r := None;
    }
  }

  lemma {:induction false} SignedDocIs(c: Crypto, i: Input, n: Name)
    ensures SignedDoc(c, i, n) == PresentedCwt(c, i, n, SignedSchema(n), KeysFor(n, PassportKeys(c, i), ActionKeys(c, i), AgentKeys(c, i)))
  {
    hide PresentedCwt, PassportKeys, ActionKeys, AgentKeys;
  }

  lemma {:induction false} ChallengePresent(c: Crypto, i: Input)
    requires ChallengeHolds(c, i)
    ensures ChallengeCwt(c, i).Some?
  {
    hide SignedCwt, Field;
  }

  /** Proving the three lists one after the other proves them all. */
  lemma {:induction false} AllObjectsProven(c: Crypto, i: Input, root: Bytes)
    ensures (forall k | 0 <= k < |AllObjects(c, i)| :: Proven(c, i, root, AllObjects(c, i)[k]))
         <==> && (forall k | 0 <= k < |Objects(c, i)| :: Proven(c, i, root, Objects(c, i)[k]))
              && (HasSuccessor(c, i) ==> forall k | 0 <= k < |SuccessorObjects(c, i)| :: Proven(c, i, root, SuccessorObjects(c, i)[k]))
              && Proven(c, i, root, CounterObject(c, i))
  {
    hide Objects, SuccessorObjects, CounterObject, Proven, HasSuccessor;
    var first, second := Objects(c, i), if HasSuccessor(c, i) then SuccessorObjects(c, i) else [];
    var all := AllObjects(c, i);
    assert forall k | 0 <= k < |first| :: all[k] == first[k];
    assert forall k | 0 <= k < |second| :: all[|first| + k] == second[k];
    assert all[|all| - 1] == CounterObject(c, i);
  }

  predicate Proven(c: Crypto, i: Input, root: Bytes, o: Object) {
    StateAccepts(c, ProofOf(c, i, o.name), root, o.claim)
  }

  // ----- the run

  /** Everything a run that may be consumed has established. */
  predicate Assured(c: Crypto, i: Input) {
    && ChallengeHolds(c, i) && PresentationBinds(c, i) && RootsHold(c, i) && SignaturesHold(c, i) && PassportHolds(c, i)
    && RegistrationHolds(c, i) && CheckpointHolds(c, i) && StatesHold(c, i, Raw(Root(c, i, AuthorityCheckpoint), AuthorityRoot))
    && GrantHolds(c, i) && AsaHolds(c, i) && FinishHolds(c, i)
  }

  /** What the durable replay store is asked to consume. */
  datatype ConsumeContext = ConsumeContext(
    key: (Bytes, Bytes, Bytes, Bytes),
    actionKey: (Bytes, Bytes, Bytes),
    actionDigest: Bytes,
    presentationDigest: Bytes)

  function ContextOf(c: Crypto, i: Input): ConsumeContext {
    var delegation, action := Root(c, i, RootDelegation), Action(c, i);
    ConsumeContext((Raw(delegation, Tenant), Raw(delegation, OrganisationRoot), Raw(delegation, DelegationId), Raw(action, AsaId)),
                   (Raw(delegation, Tenant), Raw(Field(action, Actor), OrganisationRoot), Raw(action, ActionId)),
                   CoreDigest(c, ActionBytes(c, i)), c.hash(i.presentation))
  }

  predicate StatesShown(c: Crypto, i: Input) {
    CheckpointHolds(c, i) && StatesHold(c, i, Raw(Root(c, i, AuthorityCheckpoint), AuthorityRoot))
  }

  /** Why a run fails: a reason of the first stage that does not hold. */
  predicate FirstFailure(c: Crypto, i: Input, r: Reason) {
    if !(ChallengeHolds(c, i) && PresentationBinds(c, i)) then StartReason(r)
    else if !RootsHold(c, i) then RootsReason(r)
    else if !SignaturesHold(c, i) then SignaturesReason(r)
    else if !PassportHolds(c, i) then PassportReason(r)
    else if !RegistrationHolds(c, i) then RegisterReason(r)
    else if !CheckpointHolds(c, i) then CheckpointReason(r)
    else if !StatesShown(c, i) then StatesReason(r)
    else if !GrantHolds(c, i) then r.ActionOutsideRootLimitGrant?
    else if !AsaHolds(c, i) then r.AsaExactBindingOrValidityInvalid?
    else !FinishHolds(c, i) && FinishReason(r)
  }

  /** The dimensions a run verifies: each stage adds its own as long as it and all before it hold. */
  function Established(c: Crypto, i: Input): set<Dimension> {
    if ChallengeHolds(c, i) then AfterChallenge(c, i, {ChallengeDim}) else {}
  }

  function AfterChallenge(c: Crypto, i: Input, v: set<Dimension>): set<Dimension> {
    if PresentationBinds(c, i) && RootsHold(c, i) then AfterRoots(c, i, v + {RootChain, DelegationDim}) else v
  }

  function AfterRoots(c: Crypto, i: Input, v: set<Dimension>): set<Dimension> {
    if SignaturesHold(c, i) then AfterSignatures(c, i, v + {LiveKeyControl, PassportIdentity}) else v
  }

  function AfterSignatures(c: Crypto, i: Input, v: set<Dimension>): set<Dimension> {
    if PassportHolds(c, i) then AfterPassport(c, i, v + {BindingDim}) else v
  }

  function AfterPassport(c: Crypto, i: Input, v: set<Dimension>): set<Dimension> {
    if RegistrationHolds(c, i) then AfterRegistration(c, i, v + {TemplateAdminPop}) else v
  }

  function AfterRegistration(c: Crypto, i: Input, v: set<Dimension>): set<Dimension> {
    if StatesShown(c, i) then AfterStates(c, i, v + {FreshStatus}) else v
  }

  function AfterStates(c: Crypto, i: Input, v: set<Dimension>): set<Dimension> {
    if GrantHolds(c, i) then AfterGrant(c, i, v + {GrantDim}) else v
  }

  function AfterGrant(c: Crypto, i: Input, v: set<Dimension>): set<Dimension> {
    if AsaHolds(c, i) then AfterReservation(c, i, v + {AsaReservation, ExactAction}) else v
  }

  function AfterReservation(c: Crypto, i: Input, v: set<Dimension>): set<Dimension> {
    if TranscriptHolds(c, i) then v + {Transcript} else v
  }

  datatype Outcome = Outcome(rejection: Option<Rejection>, vector: map<Dimension, Status>, context: Option<ConsumeContext>)

  /** Runs the stages in order. A context to consume is yielded exactly when every fact holds; otherwise the reason is
      of the first stage that does not. A dimension is verified exactly when its stage and all before it hold. */
  method Evaluate(c: Crypto, i: Input) returns (o: Outcome)
    ensures o.context == if Assured(c, i) then Some(ContextOf(c, i)) else None
    ensures o.rejection.None? <==> o.context.Some?
    ensures o.rejection.Some? ==> FirstFailure(c, i, o.rejection.value.reason) && Coded(o.rejection.value)
    ensures o.vector == VectorOf(Established(c, i))
  {
    hide StartReason, RootsReason, SignaturesReason, PassportReason, RegisterReason, CheckpointReason, StatesReason, FinishReason,
         VectorOf, ChallengeHolds, PresentationBinds, RootsHold, SignaturesHold, PassportHolds, RegistrationHolds, CheckpointHolds,
         StatesHold, GrantHolds, AsaHolds, FinishHolds, TranscriptHolds, ContextOf, Raw, Root, ChallengeCwt, RootDoc, SignedDoc, PassportCwt,
         SelectionOf, Pres, ActionBytes, Action, HasSuccessor, SelectionRaw, Evaluation.HasRoots, Coded;
    FinishTranscript(c, i);
    var r, vector := Start(c, i);
    if r.Some? {
      return Outcome(r, vector, None);
    }
    var e := new Evaluation(c, i);
    r := e.Roots();
    if r.Some? { return Outcome(r, e.vector, None); }
    r := e.Signatures();
    if r.Some? { return Outcome(r, e.vector, None); }
    r := e.CheckPassport();
    if r.Some? { return Outcome(r, e.vector, None); }
    r := e.Register();
    if r.Some? { return Outcome(r, e.vector, None); }
    r := e.CheckCheckpoint();
    if r.Some? { return Outcome(r, e.vector, None); }
    r := e.AuthorityProofs();
    if r.Some? { return Outcome(r, e.vector, None); }
    r := e.CheckAction();
    if r.Some? { return Outcome(r, e.vector, None); }
    r := e.Finish();
    if r.Some? { return Outcome(r, e.vector, None); }
    o := Outcome(None, e.vector, Some(ContextOf(c, i)));
  }

  lemma {:induction false} FinishTranscript(c: Crypto, i: Input)
    ensures FinishHolds(c, i) ==> TranscriptHolds(c, i)
  {
    hide TranscriptHolds, Evaluable;
  }

  /** What each dimension stands for: its stage and all before it. */
  ghost predicate DimensionHolds(c: Crypto, i: Input, d: Dimension) {
    var rooted := ChallengeHolds(c, i) && PresentationBinds(c, i) && RootsHold(c, i);
    var signed := rooted && SignaturesHold(c, i);
    var registered := signed && PassportHolds(c, i) && RegistrationHolds(c, i);
    var granted := registered && StatesShown(c, i) && GrantHolds(c, i);
    match d
    case ChallengeDim => ChallengeHolds(c, i)
    case RootChain | DelegationDim => rooted
    case LiveKeyControl | PassportIdentity => signed
    case BindingDim => signed && PassportHolds(c, i)
    case TemplateAdminPop => registered
    case FreshStatus => registered && StatesShown(c, i)
    case GrantDim => granted
    case AsaReservation | ExactAction => granted && AsaHolds(c, i)
    case Transcript => granted && AsaHolds(c, i) && TranscriptHolds(c, i)
    case _ => false
  }

  lemma {:induction false} VectorReads(verified: set<Dimension>, d: Dimension)
    requires verified <= EVALUATED
    ensures d in VectorOf(verified)
    ensures VectorOf(verified)[d] == if d in verified then Verified
                                     else if d in {NodeBasis, SourceBasis, CoverageBasis, HistoryDim, EvidenceReadiness} then NotEvaluated
                                     else Indeterminate
  {
    assert d in EVALUATED + UNEVALUATED;
  }

  lemma {:induction false} EstablishedHolds(c: Crypto, i: Input, d: Dimension)
    ensures d in Established(c, i) <==> DimensionHolds(c, i, d)
  {
    hide ChallengeHolds, PresentationBinds, RootsHold, SignaturesHold, PassportHolds, RegistrationHolds, StatesShown, GrantHolds, AsaHolds,
         TranscriptHolds;
  }

  /** In the vector of any run, rejected or not, every dimension has a status: verified exactly when it holds, replay
      and the unevaluated ones never. */
  lemma {:induction false} VectorMeans(c: Crypto, i: Input, d: Dimension)
    ensures var v := VectorOf(Established(c, i));
            && d in v && (v[d] == Verified <==> DimensionHolds(c, i, d))
            && (v[d] == NotEvaluated <==> d in {NodeBasis, SourceBasis, CoverageBasis, HistoryDim, EvidenceReadiness})
    ensures Assured(c, i) && d in EVALUATED && d != Replay ==> VectorOf(Established(c, i))[d] == Verified
  {
    hide ChallengeHolds, PresentationBinds, RootsHold, SignaturesHold, PassportHolds, RegistrationHolds, CheckpointHolds, StatesHold, GrantHolds,
         AsaHolds, FinishHolds, TranscriptHolds, VectorOf, Established, Root, Raw;
    FinishTranscript(c, i);
    forall x ensures x in Established(c, i) <==> DimensionHolds(c, i, x) {
      EstablishedHolds(c, i, x);
    }
    VectorReads(Established(c, i), d);
  }
}
