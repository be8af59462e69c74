/** The signed documents of a counterparty-assurance exchange (verify-rs/src/b28.rs): CBOR maps with text
    keys, their strict decoding and schemas, the CWT envelopes that carry them, and their digests. */
module Documents {
  import opened Bytes
  import opened CborWire
  import opened CborScan
  import opened CborCanonical
  import opened MerkleTree

  /** The libraries: SHA-256, the key identifier, Ed25519, P-256 over a COSE key with a low-s DER signature,
      the canonical-origin rule, and the strict client JSON naming a challenge and an origin. */
  datatype Crypto = Crypto(
    hash: Hash,
    keyId: Bytes -> Bytes,
    ed25519: (Bytes, Bytes, Bytes) -> bool,
    p256: (Bytes, Bytes, Bytes) -> bool,
    originOk: (Bytes, Bytes) -> bool,
    clientOk: (Bytes, Bytes, Bytes) -> bool)

  function Ascii(s: string): Bytes {
    seq(|s|, i requires 0 <= i < |s| => s[i] as int % 256)
  }

  // ----- member names

  datatype Name =
    | SchemaField | ProfileField | Tenant | OrganisationRoot | DelegationId | PassportAuthorityKid
    | PassportAuthorityKey | ActionAuthorityKid | ActionAuthorityKey | ValidFrom | ValidTo | TemplateId
    | TemplateVersion | Owner | Purpose | MandateDigest | ConfigDigest | BindingId | CredentialId | CosePublicKey
    | RpId | RoleField | InitialState | ProposedAgentDigest | ChallengeId | ChallengeField | ClientDataJson
    | AuthenticatorData | SignatureField | SelectedAt | IssuedAt | ExpiresAt | ChallengeDigest | SelectionDigest
    | CredentialDigest | CounterVersion | SignCountBefore | SignCountAfter | BackupEligible | BackupState
    | ConsumedAt | Birthtag | Revision | AgentKid | AgentKey | AuthorityDelegationId | PrincipalBindingId
    | AdminSelectionDigest | AgentPopDigest | AgentSuccessorDigest | IssuanceCheckpoint | PredecessorBirthtag
    | PredecessorRevision | PredecessorCredentialDigest | SuccessorBirthtag | SuccessorRevision
    | SuccessorProposalDigest | EffectiveAt | GrantId | GrantVersion | ActorBirthtag | RecipientOrganisationRoot
    | Operation | Unit | ActionScopeDigest | KindField | Ceiling | WindowStart | WindowEnd | MaxUnresolvedExposure
    | SequenceField | AuthorityRoot | LogRoot | LogSize | CheckpointDigest | ProofsDigest | StatusAsOf | AsaId
    | ActionDigest | ReservationState | ActionId | Actor | ParameterSchema | ParameterDigest | ValueField | Source
    | Destination | Counterparty | Recipient | PolicyVersion | PolicyDigest | Nonce | Namespace | IdentifierDigest
    | PartyId | Challenger | ActionField | AcceptedEncodings | RequiredDimensions | MaxCheckpointAge
    | ChallengeEnvelopeHash | RootDelegation | RegistrationTemplate | AdminBinding | AdminSelection | AdminChallenge
    | AdminConsumption | AgentPop | AgentSuccessor | Passport | PassportHolderProof | LimitGrant
    | AuthorityCheckpoint | IssuanceConsistencyProof | StatusSnapshot | StateProofs | AsaField | TranscriptDigest
    | NonAssertion | CreatedAt | Mandate | AgentConfig | AdminCounter | AgentHead | PredecessorHead | GrantHead
    | AgentCredential | KeyField | StateField | VersionField | ObjectDigest | IndexField | TreeSize | PathField
    | AsaEnvelopeHash | AsaDigest

  function Spell(n: Name): Bytes {
    match n
    case SchemaField => Ascii("schema")
    case ProfileField => Ascii("profile")
    case Tenant => Ascii("tenant")
    case OrganisationRoot => Ascii("organisation_root")
    case DelegationId => Ascii("delegation_id")
    case PassportAuthorityKid => Ascii("passport_authority_kid")
    case PassportAuthorityKey => Ascii("passport_authority_key")
    case ActionAuthorityKid => Ascii("action_authority_kid")
    case ActionAuthorityKey => Ascii("action_authority_key")
    case ValidFrom => Ascii("valid_from")
    case ValidTo => Ascii("valid_to")
    case TemplateId => Ascii("template_id")
    case TemplateVersion => Ascii("template_version")
    case Owner => Ascii("owner")
    case Purpose => Ascii("purpose")
    case MandateDigest => Ascii("mandate_digest")
    case ConfigDigest => Ascii("config_digest")
    case BindingId => Ascii("binding_id")
    case CredentialId => Ascii("credential_id")
    case CosePublicKey => Ascii("cose_public_key")
    case RpId => Ascii("rp_id")
    case RoleField => Ascii("role")
    case InitialState => Ascii("initial_state")
    case ProposedAgentDigest => Ascii("proposed_agent_digest")
    case ChallengeId => Ascii("challenge_id")
    case ChallengeField => Ascii("challenge")
    case ClientDataJson => Ascii("client_data_json")
    case AuthenticatorData => Ascii("authenticator_data")
    case SignatureField => Ascii("signature")
    case SelectedAt => Ascii("selected_at")
    case IssuedAt => Ascii("issued_at")
    case ExpiresAt => Ascii("expires_at")
    case ChallengeDigest => Ascii("challenge_digest")
    case SelectionDigest => Ascii("selection_digest")
    case CredentialDigest => Ascii("credential_digest")
    case CounterVersion => Ascii("counter_version")
    case SignCountBefore => Ascii("sign_count_before")
    case SignCountAfter => Ascii("sign_count_after")
    case BackupEligible => Ascii("backup_eligible")
    case BackupState => Ascii("backup_state")
    case ConsumedAt => Ascii("consumed_at")
    case Birthtag => Ascii("birthtag")
    case Revision => Ascii("revision")
    case AgentKid => Ascii("agent_kid")
    case AgentKey => Ascii("agent_key")
    case AuthorityDelegationId => Ascii("authority_delegation_id")
    case PrincipalBindingId => Ascii("principal_binding_id")
    case AdminSelectionDigest => Ascii("admin_selection_digest")
    case AgentPopDigest => Ascii("agent_pop_digest")
    case AgentSuccessorDigest => Ascii("agent_successor_digest")
    case IssuanceCheckpoint => Ascii("issuance_checkpoint")
    case PredecessorBirthtag => Ascii("predecessor_birthtag")
    case PredecessorRevision => Ascii("predecessor_revision")
    case PredecessorCredentialDigest => Ascii("predecessor_credential_digest")
    case SuccessorBirthtag => Ascii("successor_birthtag")
    case SuccessorRevision => Ascii("successor_revision")
    case SuccessorProposalDigest => Ascii("successor_proposal_digest")
    case EffectiveAt => Ascii("effective_at")
    case GrantId => Ascii("grant_id")
    case GrantVersion => Ascii("grant_version")
    case ActorBirthtag => Ascii("actor_birthtag")
    case RecipientOrganisationRoot => Ascii("recipient_organisation_root")
    case Operation => Ascii("operation")
    case Unit => Ascii("unit")
    case ActionScopeDigest => Ascii("action_scope_digest")
    case KindField => Ascii("kind")
    case Ceiling => Ascii("ceiling")
    case WindowStart => Ascii("window_start")
    case WindowEnd => Ascii("window_end")
    case MaxUnresolvedExposure => Ascii("max_unresolved_exposure")
    case SequenceField => Ascii("sequence")
    case AuthorityRoot => Ascii("authority_root")
    case LogRoot => Ascii("log_root")
    case LogSize => Ascii("log_size")
    case CheckpointDigest => Ascii("checkpoint_digest")
    case ProofsDigest => Ascii("proofs_digest")
    case StatusAsOf => Ascii("status_as_of")
    case AsaId => Ascii("asa_id")
    case ActionDigest => Ascii("action_digest")
    case ReservationState => Ascii("reservation_state")
    case ActionId => Ascii("action_id")
    case Actor => Ascii("actor")
    case ParameterSchema => Ascii("parameter_schema")
    case ParameterDigest => Ascii("parameter_digest")
    case ValueField => Ascii("value")
    case Source => Ascii("source")
    case Destination => Ascii("destination")
    case Counterparty => Ascii("counterparty")
    case Recipient => Ascii("recipient")
    case PolicyVersion => Ascii("policy_version")
    case PolicyDigest => Ascii("policy_digest")
    case Nonce => Ascii("nonce")
    case Namespace => Ascii("namespace")
    case IdentifierDigest => Ascii("identifier_digest")
    case PartyId => Ascii("party_id")
    case Challenger => Ascii("challenger")
    case ActionField => Ascii("action")
    case AcceptedEncodings => Ascii("accepted_encodings")
    case RequiredDimensions => Ascii("required_dimensions")
    case MaxCheckpointAge => Ascii("max_checkpoint_age")
    case ChallengeEnvelopeHash => Ascii("challenge_envelope_hash")
    case RootDelegation => Ascii("root_delegation")
    case RegistrationTemplate => Ascii("registration_template")
    case AdminBinding => Ascii("admin_binding")
    case AdminSelection => Ascii("admin_selection")
    case AdminChallenge => Ascii("admin_challenge")
    case AdminConsumption => Ascii("admin_consumption")
    case AgentPop => Ascii("agent_pop")
    case AgentSuccessor => Ascii("agent_successor")
    case Passport => Ascii("passport")
    case PassportHolderProof => Ascii("passport_holder_proof")
    case LimitGrant => Ascii("limit_grant")
    case AuthorityCheckpoint => Ascii("authority_checkpoint")
    case IssuanceConsistencyProof => Ascii("issuance_consistency_proof")
    case StatusSnapshot => Ascii("status_snapshot")
    case StateProofs => Ascii("state_proofs")
    case AsaField => Ascii("asa")
    case TranscriptDigest => Ascii("transcript_digest")
    case NonAssertion => Ascii("non_assertion")
    case CreatedAt => Ascii("created_at")
    case Mandate => Ascii("mandate")
    case AgentConfig => Ascii("agent_config")
    case AdminCounter => Ascii("admin_counter")
    case AgentHead => Ascii("agent_head")
    case PredecessorHead => Ascii("predecessor_head")
    case GrantHead => Ascii("grant_head")
    case AgentCredential => Ascii("agent_credential")
    case KeyField => Ascii("key")
    case StateField => Ascii("state")
    case VersionField => Ascii("version")
    case ObjectDigest => Ascii("object_digest")
    case IndexField => Ascii("index")
    case TreeSize => Ascii("tree_size")
    case PathField => Ascii("path")
    case AsaEnvelopeHash => Ascii("asa_envelope_hash")
    case AsaDigest => Ascii("asa_digest")
  }

  // ----- reading a document

  /** A member of a map, null where there is none: validated documents have every member the stages read. */
  function Field(v: Value, n: Name): Value {
    var found := if v.Map? then Lookup(v.entries, Text(Spell(n))) else None;
    if found.Some? then found.value else Null
  }

  predicate HasField(v: Value, n: Name) {
    v.Map? && Lookup(v.entries, Text(Spell(n))).Some?
  }

  function TextOf(v: Value): Option<Bytes> {
    if v.Text? then Some(v.utf8) else None
  }

  function BytesOf(v: Value): Option<Bytes> {
    if v.ByteString? then Some(v.raw) else None
  }

  const MAX_INT := 0x7fff_ffff_ffff_ffff

  function UintOf(v: Value): Option<nat> {
    if v.Int? && 0 <= v.i <= MAX_INT then Some(v.i) else None
  }

  /** The payload of a string member and the number of an integer member. */
  function Raw(v: Value, n: Name): Bytes {
    match Field(v, n)
    case ByteString(b) => b
    case Text(t) => t
    case _ => []
  }

  function Num(v: Value, n: Name): nat {
    var u := UintOf(Field(v, n));
    if u.Some? then u.value else 0
  }

  predicate Within(v: Value, from: Name, until: Name, t: nat) {
    Num(v, from) <= t < Num(v, until)
  }

  // ----- canonical bytes and digests

  const CWT_PROFILE := Profile(true, true)

  function Canonical(v: Value): Option<Bytes> {
    Encode(v, MAX_DEPTH, CWT_PROFILE)
  }

  function Decode(data: Bytes, cap: nat): Option<Value> {
    DecodeStrict(data, MAX_DEPTH, cap, CWT_PROFILE)
  }

  /** The same value up to the order of map entries. */
  ghost predicate Same(v: Value, w: Value) {
    Norm(v, CWT_PROFILE) == Norm(w, CWT_PROFILE)
  }

  const CORE_DOMAIN := Ascii("swarrm-b28/core/v1") + [0]
  const STATE_DOMAIN := Ascii("swarrm-authority-state/v1") + [0]
  const PROPOSAL_DOMAIN := Ascii("swarrm-b28/agent-proposal/v1") + [0]
  const SCOPE_DOMAIN := Ascii("swarrm-b28/action-scope/v1") + [0]
  const TRANSCRIPT_DOMAIN := Ascii("swarrm-b28/transcript/v1") + [0]
  const PROOFS_DOMAIN := Ascii("swarrm-b28/proofs/v1") + [0]

  function CoreDigest(c: Crypto, core: Bytes): Digest {
    c.hash(CORE_DOMAIN + core)
  }

  function StateKey(c: Crypto, kind: Name, id: Bytes): Digest {
    c.hash(STATE_DOMAIN + Spell(kind) + [0] + id)
  }

  /** A map of the named members of a document. */
  function Selected(v: Value, names: seq<Name>): Value {
    Map(seq(|names|, i requires 0 <= i < |names| => Entry(Text(Spell(names[i])), Field(v, names[i]))))
  }

  function NamedDigest(c: Crypto, v: Value, names: seq<Name>, domain: Bytes): Option<Digest> {
    var b := Canonical(Selected(v, names));
    if b.Some? then Some(c.hash(domain + b.value)) else None
  }

  const PROPOSAL_FIELDS := [Tenant, Birthtag, Revision, AgentKid, AgentKey, Owner, Purpose, MandateDigest, ConfigDigest,
                            TemplateId, TemplateVersion, PrincipalBindingId]

  const SCOPE_FIELDS := [Actor, Operation, ParameterSchema, ParameterDigest, Unit, Source, Destination, Counterparty,
                         Recipient, PolicyVersion, PolicyDigest]

  // ----- dimensions of the verdict

  datatype Dimension =
    | PassportIdentity | LiveKeyControl | RootChain | TemplateAdminPop | FreshStatus | BindingDim | GrantDim
    | DelegationDim | ExactAction | AsaReservation | ChallengeDim | Transcript | Replay
    | NodeBasis | SourceBasis | CoverageBasis | HistoryDim | EvidenceReadiness

  function DimensionText(d: Dimension): Bytes {
    match d
    case PassportIdentity => Ascii("passport_identity")
    case LiveKeyControl => Ascii("live_key_control")
    case RootChain => Ascii("root_chain")
    case TemplateAdminPop => Ascii("template_admin_pop")
    case FreshStatus => Ascii("fresh_status")
    case BindingDim => Ascii("binding")
    case GrantDim => Ascii("grant")
    case DelegationDim => Ascii("delegation")
    case ExactAction => Ascii("exact_action")
    case AsaReservation => Ascii("asa_reservation")
    case ChallengeDim => Ascii("challenge")
    case Transcript => Ascii("transcript")
    case Replay => Ascii("replay")
    case NodeBasis => Ascii("node_basis")
    case SourceBasis => Ascii("source_basis")
    case CoverageBasis => Ascii("coverage_basis")
    case HistoryDim => Ascii("history")
    case EvidenceReadiness => Ascii("post_action_evidence_readiness")
  }

  // ----- schemas

  datatype Schema =
    | ActionCore | AgentRef | ResourceRef | PartyRef | ChallengeCore | AsaCore | PresentationCore | Delegation | Template
    | Binding | Selection | AdminChallengeDoc | Consumption | Pop | Credential | Successor | Grant | Checkpoint | Snapshot
    | Membership

  function Tail(s: Schema): Bytes {
    match s
    case ActionCore => Ascii("action-core/v1")
    case AgentRef => Ascii("agent-ref/v1")
    case ResourceRef => Ascii("resource-ref/v1")
    case PartyRef => Ascii("party-ref/v1")
    case ChallengeCore => Ascii("challenge-core/v1")
    case AsaCore => Ascii("asa-core/v1")
    case PresentationCore => Ascii("presentation-core/v1")
    case Delegation => Ascii("root-delegation/v1")
    case Template => Ascii("registration-template/v1")
    case Binding => Ascii("admin-binding/v1")
    case Selection => Ascii("admin-selection/v1")
    case AdminChallengeDoc => Ascii("admin-challenge/v1")
    case Consumption => Ascii("admin-consumption/v1")
    case Pop => Ascii("agent-pop/v1")
    case Credential => Ascii("agent-credential/v1")
    case Successor => Ascii("agent-successor/v1")
    case Grant => Ascii("limit-grant/v1")
    case Checkpoint => Ascii("authority-checkpoint/v1")
    case Snapshot => Ascii("status-snapshot/v1")
    case Membership => Ascii("authority-membership-proof/v1")
  }

  /** Either generation's spelling of a schema name. */
  predicate AcceptedName(v: Value, s: Schema) {
    v == Text(Ascii("swarrm-b28/") + Tail(s)) || v == Text(Ascii("swarrm/") + Tail(s))
  }

  predicate ProfileMatches(v: Value) {
    v == Text(Ascii("https://swarrm.ai/spec/eat/b28/cwt/v1")) || v == Text(Ascii("https://swarrm.ai/spec/eat/action/cwt/v2"))
  }

  const STATE_PROOFS := {RootDelegation, RegistrationTemplate, Mandate, AgentConfig, AdminBinding, AdminSelection, AdminChallenge,
                         AdminConsumption, AdminCounter, AgentPop, Passport, AgentHead, AgentSuccessor, PredecessorHead,
                         LimitGrant, GrantHead}

  const INLINE := {RootDelegation, RegistrationTemplate, AdminBinding, AdminChallenge, AdminConsumption, AgentPop, Passport,
                   PassportHolderProof, LimitGrant, AuthorityCheckpoint, StatusSnapshot, AsaField}

  function Fields(s: Schema): set<Name> {
    match s
    case ActionCore => {ActionId, AsaId, Actor, Operation, ParameterSchema, ParameterDigest, ValueField, Unit, Source, Destination,
                        Counterparty, Recipient, GrantId, GrantVersion, PolicyVersion, PolicyDigest, Nonce, ExpiresAt}
    case AgentRef => {OrganisationRoot, Birthtag, Revision, AgentKid}
    case ResourceRef => {Namespace, IdentifierDigest}
    case PartyRef => {PartyId, OrganisationRoot}
    case ChallengeCore => {ProfileField, Challenger, ActionField, AcceptedEncodings, RequiredDimensions, MaxCheckpointAge, IssuedAt}
    case AsaCore => {Tenant, OrganisationRoot, AuthorityDelegationId, AsaId, ActionDigest, ChallengeDigest, GrantId, GrantVersion,
                     ReservationState, IssuedAt, ExpiresAt}
    case PresentationCore => INLINE + {ProfileField, ChallengeEnvelopeHash, ChallengeDigest, ActionDigest, AdminSelection,
                                       AgentSuccessor, IssuanceConsistencyProof, StateProofs, TranscriptDigest, NonAssertion, CreatedAt}
    case Delegation => {Tenant, OrganisationRoot, DelegationId, PassportAuthorityKid, PassportAuthorityKey, ActionAuthorityKid,
                        ActionAuthorityKey, ValidFrom, ValidTo}
    case Template => {Tenant, OrganisationRoot, TemplateId, TemplateVersion, Owner, Purpose, MandateDigest, ConfigDigest, ValidFrom, ValidTo}
    case Binding => {Tenant, OrganisationRoot, BindingId, CredentialId, CosePublicKey, RpId, RoleField, ValidFrom, ValidTo, InitialState}
    case Selection => {Tenant, BindingId, TemplateId, TemplateVersion, ProposedAgentDigest, CredentialId, ChallengeId, ChallengeField,
                       ClientDataJson, AuthenticatorData, SignatureField, SelectedAt}
    case AdminChallengeDoc => {Tenant, OrganisationRoot, ChallengeId, BindingId, TemplateId, TemplateVersion, ProposedAgentDigest,
                               ChallengeField, IssuedAt, ExpiresAt}
    case Consumption => {Tenant, OrganisationRoot, BindingId, ChallengeId, ChallengeDigest, SelectionDigest, CredentialDigest,
                         CounterVersion, SignCountBefore, SignCountAfter, BackupEligible, BackupState, ConsumedAt}
    case Pop => {Tenant, Birthtag, Revision, AgentKid, ProposedAgentDigest, ChallengeField}
    case Credential => {Tenant, OrganisationRoot, AuthorityDelegationId, Birthtag, Revision, AgentKid, AgentKey, Owner, Purpose,
                        MandateDigest, ConfigDigest, TemplateId, TemplateVersion, PrincipalBindingId, AdminSelectionDigest,
                        AgentPopDigest, AgentSuccessorDigest, IssuanceCheckpoint, ValidFrom, ValidTo}
    case Successor => {Tenant, OrganisationRoot, PredecessorBirthtag, PredecessorRevision, PredecessorCredentialDigest,
                       SuccessorBirthtag, SuccessorRevision, SuccessorProposalDigest, EffectiveAt}
    case Grant => {Tenant, OrganisationRoot, GrantId, GrantVersion, AuthorityDelegationId, ActorBirthtag, RecipientOrganisationRoot,
                   Operation, Unit, ActionScopeDigest, KindField, Ceiling, WindowStart, WindowEnd, ValidFrom, ValidTo, MaxUnresolvedExposure}
    case Checkpoint => {Tenant, OrganisationRoot, SequenceField, AuthorityRoot, LogRoot, LogSize, IssuedAt}
    case Snapshot => {Tenant, OrganisationRoot, AuthorityDelegationId, CheckpointDigest, ProofsDigest, StatusAsOf, ExpiresAt}
    case Membership => {KeyField, ValueField, IndexField, TreeSize, PathField}
  }

  /** A map of distinct text keys with exactly these members and, if one is given, the schema name. */
  predicate IsDocument(v: Value, s: Option<Schema>, fields: set<Name>) {
    && v.Map? && |v.entries| == |fields| + (if s.Some? then 1 else 0)
    && (forall i | 0 <= i < |v.entries| :: v.entries[i].key.Text?)
    && (forall i, j | 0 <= i < j < |v.entries| :: v.entries[i].key != v.entries[j].key)
    && (forall n | n in fields :: HasField(v, n))
    && (s.Some? ==> AcceptedName(Field(v, SchemaField), s.value))
  }

  // ----- member kinds

  datatype Kind = Anything | Token | Fixed | Blob(least: nat, most: nat) | Label(most: nat) | Count | Positive | Flag | Amount

  /** A canonical amount: "0" or at most 78 digits without a leading zero. */
  predicate CanonicalDecimal(v: Bytes) {
    v == [48] || (v != [] && |v| <= 78 && 49 <= v[0] <= 57 && forall i | 1 <= i < |v| :: 48 <= v[i] <= 57)
  }

  predicate Fits(k: Kind, v: Value) {
    match k
    case Anything => true
    case Token => v.ByteString? && |v.raw| == 32 && exists i | 0 <= i < 32 :: v.raw[i] != 0
    case Fixed => v.ByteString? && |v.raw| == 32
    case Blob(least, most) => v.ByteString? && least <= |v.raw| <= most
    case Label(most) => v.Text? && 0 < |v.utf8| <= most && 0 !in v.utf8
    case Count => UintOf(v).Some?
    case Positive => UintOf(v).Some? && UintOf(v).value > 0
    case Flag => v.Bool?
    case Amount => v.Text? && CanonicalDecimal(v.utf8)
  }

  const MAX_CWT: nat := 65_536

  /** What each schema demands of each member; a few names mean different things in different schemas. */
  function KindOf(s: Schema, n: Name): Kind {
    if n in INLINE && s == PresentationCore then Blob(1, MAX_CWT)
    else if n in {ValidFrom, ValidTo, SelectedAt, SignCountBefore, SignCountAfter, ConsumedAt, EffectiveAt, WindowStart, WindowEnd,
                  SequenceField, LogSize, StatusAsOf, CreatedAt} then Count
    else if n == IssuedAt then if s == ChallengeCore then Positive else Count
    else if n == ExpiresAt then if s == ActionCore then Positive else Count
    else if n in {TemplateVersion, Revision, CounterVersion, PredecessorRevision, SuccessorRevision, GrantVersion, MaxCheckpointAge} then Positive
    else if n in {PassportAuthorityKey, ActionAuthorityKey, AuthorityRoot, LogRoot, CheckpointDigest, ProofsDigest,
                  ChallengeEnvelopeHash, TranscriptDigest} then Fixed
    else if (s == PresentationCore && n in {ChallengeDigest, ActionDigest}) || (s == Template && n in {MandateDigest, ConfigDigest}) then Fixed
    else if n in {OrganisationRoot, DelegationId, TemplateId, BindingId, ProposedAgentDigest, ChallengeId, ChallengeField, ChallengeDigest,
                  SelectionDigest, CredentialDigest, Birthtag, AuthorityDelegationId, AgentKey, PrincipalBindingId, AdminSelectionDigest,
                  AgentPopDigest, IssuanceCheckpoint, PredecessorBirthtag, PredecessorCredentialDigest, SuccessorBirthtag,
                  SuccessorProposalDigest, GrantId, ActorBirthtag, RecipientOrganisationRoot, ActionScopeDigest, AsaId, ActionDigest,
                  ActionId, ParameterDigest, PolicyDigest, Nonce, IdentifierDigest, MandateDigest, ConfigDigest} then Token
    else if n in {Tenant, AgentKid, PassportAuthorityKid, ActionAuthorityKid, PolicyVersion, Namespace} then Label(128)
    else if n in {Owner, Purpose} then Label(1024)
    else if n == Operation then Label(if s == ActionCore then 256 else 1024)
    else if n == ParameterSchema then Label(512)
    else if n == PartyId then Label(256)
    else if n == RpId then Label(253)
    else if n == Unit then Label(64)
    else if n in {BackupEligible, BackupState} then Flag
    else if n in {ValueField, Ceiling, MaxUnresolvedExposure} then Amount
    else if n == CredentialId then Blob(if s == Binding then 16 else 0, 1024)
    else if n == CosePublicKey then Blob(16, 256)
    else if n == ClientDataJson then Blob(0, 4096)
    else if n == AuthenticatorData then Blob(37, 1024)
    else if n == SignatureField then Blob(64, 80)
    else if n == AdminSelection then Blob(0, 16_384)
    else Anything
  }

  predicate Shaped(s: Schema, v: Value) {
    IsDocument(v, Some(s), Fields(s)) && forall n | n in Fields(s) :: Fits(KindOf(s, n), Field(v, n))
  }

  predicate Ordered(v: Value, from: Name, until: Name) {
    Num(v, from) < Num(v, until)
  }

  predicate ActionValid(v: Value) {
    && Shaped(ActionCore, v) && Shaped(AgentRef, Field(v, Actor)) && Shaped(AgentRef, Field(v, Recipient))
    && Shaped(ResourceRef, Field(v, Source)) && Shaped(ResourceRef, Field(v, Destination)) && Shaped(PartyRef, Field(v, Counterparty))
    && Field(Field(v, Counterparty), OrganisationRoot) == Field(Field(v, Recipient), OrganisationRoot)
  }

  /** The rules that relate members of one document. */
  predicate Coherent(c: Crypto, s: Schema, v: Value) {
    match s
    case Delegation =>
      var root, psa, act := Raw(v, OrganisationRoot), Raw(v, PassportAuthorityKey), Raw(v, ActionAuthorityKey);
      && psa != act && c.hash(psa) != root && c.hash(act) != root && c.keyId(psa) != c.keyId(act)
      && Raw(v, PassportAuthorityKid) == c.keyId(psa) && Raw(v, ActionAuthorityKid) == c.keyId(act) && Ordered(v, ValidFrom, ValidTo)
    case Template => Ordered(v, ValidFrom, ValidTo)
    case Binding =>
      && Field(v, RoleField) in {Text(Ascii("agent-registrar")), Text(Ascii("security-admin")), Text(Ascii("governance-admin"))}
      && Field(v, InitialState) == Text(ACTIVE) && Ordered(v, ValidFrom, ValidTo)
    case AdminChallengeDoc => Ordered(v, IssuedAt, ExpiresAt)
    case Consumption =>
      && CounterProgresses(Num(v, SignCountBefore), Num(v, SignCountAfter))
      && (Field(v, BackupState) == Bool(true) ==> Field(v, BackupEligible) == Bool(true))
    case Credential =>
      && c.hash(Raw(v, AgentKey)) != Raw(v, OrganisationRoot) && Raw(v, AgentKid) == c.keyId(Raw(v, AgentKey))
      && (Field(v, AgentSuccessorDigest) == Null || Fits(Token, Field(v, AgentSuccessorDigest))) && Ordered(v, ValidFrom, ValidTo)
    case Successor => Num(v, SuccessorRevision) == 1 && Field(v, PredecessorBirthtag) != Field(v, SuccessorBirthtag)
    case Grant =>
      && Field(v, KindField) in {Text(Ascii("ONE_SHOT")), Text(Ascii("FLOW")), Text(Ascii("STOCK"))}
      && DecimalAtMost(Raw(v, MaxUnresolvedExposure), Raw(v, Ceiling)) && Ordered(v, WindowStart, WindowEnd) && Ordered(v, ValidFrom, ValidTo)
    case Snapshot => Ordered(v, StatusAsOf, ExpiresAt)
    case AsaCore => Field(v, ReservationState) == Text(Ascii("ISSUED_HELD")) && Ordered(v, IssuedAt, ExpiresAt)
    case ActionCore => ActionValid(v)
    case ChallengeCore =>
      && ProfileMatches(Field(v, ProfileField)) && Shaped(AgentRef, Field(v, Challenger)) && ActionValid(Field(v, ActionField))
      && Field(v, Challenger) == Field(Field(v, ActionField), Recipient) && Num(v, IssuedAt) < Num(Field(v, ActionField), ExpiresAt)
      && Field(v, AcceptedEncodings) == Array([Text(MEDIA)])
      && DimensionsValid(Field(v, RequiredDimensions))
    case PresentationCore =>
      && ProfileMatches(Field(v, ProfileField))
      && (Field(v, AgentSuccessor) == Null || Fits(Blob(1, MAX_CWT), Field(v, AgentSuccessor)))
      && Siblings(Field(v, IssuanceConsistencyProof)).Some? && UintOf(Field(v, CreatedAt)).Some?
      && IsDocument(Field(v, StateProofs), None, STATE_PROOFS)
    case _ => true
  }

  /** At most 64 known names in strictly increasing order. */
  predicate DimensionsValid(v: Value) {
    && v.Array? && |v.items| <= 64 && (forall i | 0 <= i < |v.items| :: v.items[i].Text? && exists d :: DimensionText(d) == v.items[i].utf8)
    && (forall i | 0 < i < |v.items| :: Less(v.items[i - 1].utf8, v.items[i].utf8))
  }

  predicate CounterProgresses(previous: nat, current: nat) {
    (previous == 0 && current == 0) || current > previous
  }

  predicate DecimalAtMost(left: Bytes, right: Bytes) {
    CanonicalDecimal(left) && CanonicalDecimal(right) && (|left| < |right| || (|left| == |right| && AtMost(left, right)))
  }

  const ACTIVE := Ascii("ACTIVE")
  const SUPERSEDED := Ascii("SUPERSEDED")
  const MEDIA := Ascii("application/eat+cwt")

  /** At most 64 siblings, each of 32 bytes. */
  function Siblings(v: Value): (r: Option<seq<Digest>>)
    ensures r.Some? ==> v.Array? && |r.value| == |v.items| <= 64
  {
    if v.Array? && |v.items| <= 64 && forall i | 0 <= i < |v.items| :: Fits(Fixed, v.items[i])
    then Some(seq(|v.items|, i requires 0 <= i < |v.items| => v.items[i].raw))
    else None
  }

  predicate ValidCore(c: Crypto, s: Schema, v: Value) {
    Shaped(s, v) && Coherent(c, s, v)
  }

  // ----- envelopes

  datatype Cwt = Cwt(core: Value, coreBytes: Bytes, payload: Bytes, protected: Bytes, signature: Bytes, kid: Bytes)

  function Member(v: Value, key: int): Option<Value> {
    if v.Map? then Lookup(v.entries, Int(key)) else None
  }

  /** The key identifier of a strict protected header. */
  function HeaderKid(protected: Bytes): Option<Bytes> {
    var header := Decode(protected, 4096);
    if header.None? || !header.value.Map? || |header.value.entries| != 3 then None
    else if Member(header.value, 1) != Some(Int(-8)) || Member(header.value, 3) != Some(Text(MEDIA)) then None
    else
      match Member(header.value, 4)
      case Some(ByteString(kid)) => if 0 < |kid| <= 128 && forall i | 0 <= i < |kid| :: kid[i] < 128 then Some(kid) else None
      case _ => None
  }

  /** The core of a strict claims set. */
  function ClaimedCore(payload: Bytes): Option<Value> {
    var claims := Decode(payload, MAX_CWT);
    if claims.None? || !claims.value.Map? || |claims.value.entries| != 2 then None
    else if exists i | 0 <= i < |claims.value.entries| :: claims.value.entries[i].key !in {Int(265), Int(-65_537)} then None
    else
      var profile := Member(claims.value, 265);
      if profile.Some? && ProfileMatches(profile.value) then Member(claims.value, -65_537) else None
  }

  predicate IsEnvelope(v: Value) {
    v.Array? && |v.items| == 4 && v.items[0].ByteString? && v.items[1] == Map([]) && v.items[2].ByteString?
    && v.items[3].ByteString? && |v.items[3].raw| == 64
  }

  function InspectCwt(c: Crypto, raw: Bytes, s: Schema): (r: Option<Cwt>)
    ensures r.Some? ==> ValidCore(c, s, r.value.core) && Canonical(r.value.core) == Some(r.value.coreBytes)
    ensures r.Some? ==> HeaderKid(r.value.protected) == Some(r.value.kid) && ClaimedCore(r.value.payload) == Some(r.value.core)
  {
    if |raw| > MAX_CWT || raw == [] || raw[0] != 0xd2 then None
    else
      var envelope := Decode(raw[1..], MAX_CWT);
      if envelope.None? || !IsEnvelope(envelope.value) then None
      else
        var protected, payload, signature := envelope.value.items[0].raw, envelope.value.items[2].raw, envelope.value.items[3].raw;
        var kid, core := HeaderKid(protected), ClaimedCore(payload);
        if kid.None? || core.None? || Canonical(core.value).None? || !ValidCore(c, s, core.value) then None
        else Some(Cwt(core.value, Canonical(core.value).value, payload, protected, signature, kid.value))
  }

  /** The message a signature is over. */
  function ToBeSigned(x: Cwt): Option<Bytes> {
    Canonical(Array([Text(Ascii("Signature1")), ByteString(x.protected), ByteString([]), ByteString(x.payload)]))
  }

  predicate SignatureValid(c: Crypto, x: Cwt, key: Bytes) {
    ToBeSigned(x).Some? && x.kid == c.keyId(key) && c.ed25519(key, ToBeSigned(x).value, x.signature)
  }

  function SignedCwt(c: Crypto, raw: Bytes, s: Schema, keys: map<Bytes, Bytes>): Option<Cwt> {
    var x := InspectCwt(c, raw, s);
    if x.Some? && x.value.kid in keys && SignatureValid(c, x.value, keys[x.value.kid]) then x else None
  }

  datatype Anchor = Anchor(fingerprint: Bytes, key: Bytes)

  function RootCwt(c: Crypto, raw: Bytes, s: Schema, roots: map<Bytes, Anchor>): Option<Cwt> {
    var x := InspectCwt(c, raw, s);
    if x.Some? && x.value.kid in roots && SignatureValid(c, x.value, roots[x.value.kid].key)
       && Field(x.value.core, OrganisationRoot) == ByteString(roots[x.value.kid].fingerprint)
    then x else None
  }

  // ----- what bytes and digests determine

  /** Reading a member commutes with normalisation. */
  lemma {:induction false} FieldOfNorm(v: Value, n: Name)
    ensures Field(Norm(v, CWT_PROFILE), n) == Norm(Field(v, n), CWT_PROFILE)
  {
    hide Lookup, Spell;
    if v.Map? {
      LookupNorm(v.entries, Text(Spell(n)), CWT_PROFILE);
    }
  }

  lemma {:induction false} SameFields(v: Value, w: Value, n: Name)
    requires Same(v, w)
    ensures Same(Field(v, n), Field(w, n))
    ensures !Field(v, n).Map? && !Field(v, n).Array? ==> Field(v, n) == Field(w, n)
    ensures Raw(v, n) == Raw(w, n) && Num(v, n) == Num(w, n)
  {
    hide Field;
    FieldOfNorm(v, n);
    FieldOfNorm(w, n);
    ScalarNorm(Field(v, n), Field(w, n));
  }

  lemma {:induction false} ScalarNorm(v: Value, w: Value)
    requires Same(v, w)
    ensures v.Map? == w.Map? && v.Array? == w.Array?
    ensures !v.Map? && !v.Array? ==> v == w
  {
  }

  /** Equal canonical bytes are of one value. */
  lemma {:induction false} BytesDetermine(v: Value, w: Value)
    requires Canonical(v).Some? && Canonical(v) == Canonical(w)
    ensures Same(v, w)
  {
    hide Encode, Norm;
    PrefixFreeAndInjective(v, w, MAX_DEPTH, MAX_DEPTH, CWT_PROFILE, CWT_PROFILE);
  }

  lemma {:induction false} SelectedField(v: Value, names: seq<Name>, k: nat)
    requires k < |names|
    ensures Field(Selected(v, names), names[k]) == Field(v, names[k])
  {
    hide Spell;
    SelectedLookup(v, names, Selected(v, names).entries, k);
  }

  lemma {:induction false} SelectedLookup(v: Value, names: seq<Name>, entries: seq<Entry>, k: nat)
    requires k < |names| == |entries|
    requires forall i | 0 <= i < |names| :: entries[i] == Entry(Text(Spell(names[i])), Field(v, names[i]))
    ensures Lookup(entries, Text(Spell(names[k]))) == Some(Field(v, names[k]))
    decreases |names|
  {
    hide Spell;
    if entries[0].key != Text(Spell(names[k])) {
      assert forall i | 0 <= i < |names| - 1 :: entries[1..][i] == Entry(Text(Spell(names[1..][i])), Field(v, names[1..][i]));
      SelectedLookup(v, names[1..], entries[1..], k - 1);
    }
  }

  /** A member of a value that has canonical bytes has canonical bytes. */
  lemma {:induction false} FieldEncodes(v: Value, n: Name)
    requires Canonical(v).Some?
    ensures Canonical(Field(v, n)).Some?
  {
    hide Spell, Lookup, Assemble;
    if HasField(v, n) {
      MemberEncodes(v.entries, Text(Spell(n)), MAX_DEPTH - 1, CWT_PROFILE);
      EncodeWidens(Field(v, n), MAX_DEPTH - 1, MAX_DEPTH, CWT_PROFILE);
    }
  }

  /** What was signed is what is read: one signed message has one signer name and one core. */
  lemma {:induction false} SignedMessageDeterminesDocument(c: Crypto, first: Bytes, second: Bytes, s: Schema, t: Schema)
    requires InspectCwt(c, first, s).Some? && InspectCwt(c, second, t).Some?
    requires ToBeSigned(InspectCwt(c, first, s).value).Some?
    requires ToBeSigned(InspectCwt(c, first, s).value) == ToBeSigned(InspectCwt(c, second, t).value)
    ensures var x, y := InspectCwt(c, first, s).value, InspectCwt(c, second, t).value;
            x.core == y.core && x.coreBytes == y.coreBytes && x.kid == y.kid
  {
    hide InspectCwt, HeaderKid, ClaimedCore, Canonical, ValidCore;
    var x, y := InspectCwt(c, first, s).value, InspectCwt(c, second, t).value;
    MessageParts(x, y);
  }

  lemma {:induction false} MessageParts(x: Cwt, y: Cwt)
    requires ToBeSigned(x).Some? && ToBeSigned(x) == ToBeSigned(y)
    ensures x.protected == y.protected && x.payload == y.payload
  {
    hide Canonical;
    var tag := Text(Ascii("Signature1"));
    var v := Array([tag, ByteString(x.protected), ByteString([]), ByteString(x.payload)]);
    var w := Array([tag, ByteString(y.protected), ByteString([]), ByteString(y.payload)]);
    BytesDetermine(v, w);
    forall k | 0 <= k < 4 ensures v.items[k] == w.items[k] {
      NormAllAt(v.items, k, CWT_PROFILE);
      NormAllAt(w.items, k, CWT_PROFILE);
    }
    assert v.items[1] == w.items[1] && v.items[3] == w.items[3];
  }
}
