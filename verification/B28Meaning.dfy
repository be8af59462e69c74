/** Exactly when an exchange may be consumed (verify-rs/src/b28.rs): who signed what, when, which bytes each
    document names, and what the authority's state shows, regardless of the stage that checks it. */
module B28Meaning {
  import opened Bytes
  import opened CborWire
  import opened CborCanonical
  import opened CivilTime
  import opened Decimals
  import opened Documents
  import opened Envelopes
  import opened MerkleProof
  import opened B28
  import opened B28Results

  // ----- who signed what

  /** The presentation carries under this name an envelope of this core that this key signed. */
  ghost predicate Presents(c: Crypto, i: Input, key: Bytes, n: Name, s: Schema, core: Value) {
    Field(Pres(c, i), n).ByteString? && SignedBy(c, key, Field(Pres(c, i), n).raw, s, core)
  }

  /** A pinned root key, of the organisation the document names, signed it. */
  ghost predicate RootSigned(c: Crypto, i: Input, n: Name, s: Schema) {
    exists kid | kid in i.roots ::
      && kid == c.keyId(i.roots[kid].key) && Presents(c, i, i.roots[kid].key, n, s, Root(c, i, n))
      && Field(Root(c, i, n), OrganisationRoot) == ByteString(i.roots[kid].fingerprint)
  }

  /** The challenger's pinned key, under the identifier the challenge gives its agent, signed the challenge. */
  ghost predicate Challenged(c: Crypto, i: Input) {
    exists kid | kid in i.challengerKeys ::
      && kid == c.keyId(i.challengerKeys[kid]) && Field(Field(Chal(c, i), Challenger), AgentKid) == Text(kid)
      && SignedBy(c, i.challengerKeys[kid], i.challenge, ChallengeCore, Chal(c, i))
  }

  ghost predicate RootsSigned(c: Crypto, i: Input) {
    && RootSigned(c, i, RootDelegation, Delegation) && RootSigned(c, i, RegistrationTemplate, Template) && RootSigned(c, i, AdminBinding, Binding)
    && RootSigned(c, i, AdminChallenge, AdminChallengeDoc) && RootSigned(c, i, AdminConsumption, Consumption)
    && RootSigned(c, i, LimitGrant, Grant) && RootSigned(c, i, AuthorityCheckpoint, Checkpoint)
    && (HasSuccessor(c, i) ==> RootSigned(c, i, AgentSuccessor, Successor))
  }

  /** The delegation's passport key signed the passport and the snapshot, its action key the reservation. */
  ghost predicate DelegatesSigned(c: Crypto, i: Input) {
    var delegation := Root(c, i, RootDelegation);
    && Presents(c, i, Raw(delegation, PassportAuthorityKey), Passport, Credential, Holder(c, i))
    && Presents(c, i, Raw(delegation, PassportAuthorityKey), StatusSnapshot, Snapshot, Doc(c, i, StatusSnapshot))
    && Presents(c, i, Raw(delegation, ActionAuthorityKey), AsaField, AsaCore, Doc(c, i, AsaField))
  }

  /** The passport's agent key signed the presentation, the proof of possession and the passport itself. */
  ghost predicate AgentSigned(c: Crypto, i: Input) {
    var key := Raw(Holder(c, i), AgentKey);
    && SignedBy(c, key, i.presentation, PresentationCore, Pres(c, i))
    && Presents(c, i, key, AgentPop, Pop, Doc(c, i, AgentPop)) && Presents(c, i, key, PassportHolderProof, Credential, Holder(c, i))
  }

  // ----- forward: the stages make the signatures

  lemma {:induction false} ChallengeSigned(c: Crypto, i: Input)
    ensures ChallengeCwt(c, i).Some? && Field(Field(Chal(c, i), Challenger), AgentKid) == Text(ChallengeCwt(c, i).value.kid) <==> Challenged(c, i)
  {
    hide SignedBy, InspectCwt, Field, Canonical, HeaderKid, ClaimedCore, ValidCore;
    SignedIff(c, i.challenge, ChallengeCore, i.challengerKeys, Chal(c, i));
    if Challenged(c, i) {
      var kid :| && kid in i.challengerKeys && kid == c.keyId(i.challengerKeys[kid]) && Field(Field(Chal(c, i), Challenger), AgentKid) == Text(kid)
                 && SignedBy(c, i.challengerKeys[kid], i.challenge, ChallengeCore, Chal(c, i));
      var x := OpenSigned(c, i.challengerKeys[kid], i.challenge, ChallengeCore, Chal(c, i));
    }
    if ChallengeCwt(c, i).Some? && Field(Field(Chal(c, i), Challenger), AgentKid) == Text(ChallengeCwt(c, i).value.kid) {
      var kid :| kid in i.challengerKeys && kid == c.keyId(i.challengerKeys[kid]) && SignedBy(c, i.challengerKeys[kid], i.challenge, ChallengeCore, Chal(c, i));
      var x := OpenSigned(c, i.challengerKeys[kid], i.challenge, ChallengeCore, Chal(c, i));
    }
  }

  lemma {:induction false} RootDocSigned(c: Crypto, i: Input, n: Name)
    ensures RootDoc(c, i, n).Some? <==> RootSigned(c, i, n, RootSchema(n))
  {
    hide SignedBy, RootCwt, Field, RootSchema, Pres;
    if Field(Pres(c, i), n).ByteString? {
      RootIff(c, Field(Pres(c, i), n).raw, RootSchema(n), i.roots, Root(c, i, n));
    }
  }

  lemma {:induction false} PresentedSigned(c: Crypto, i: Input, n: Name, s: Schema, keys: map<Bytes, Bytes>, key: Bytes)
    requires keys == map[c.keyId(key) := key]
    ensures PresentedCwt(c, i, n, s, keys).Some? <==> Presents(c, i, key, n, s, Core(PresentedCwt(c, i, n, s, keys)))
  {
    hide SignedBy, SignedCwt, Field, Pres;
    if Field(Pres(c, i), n).ByteString? {
      OneKeySignedIff(c, Field(Pres(c, i), n).raw, s, keys, key, Core(PresentedCwt(c, i, n, s, keys)));
    }
  }

  lemma {:induction false} RootSchemas()
    ensures RootSchema(RootDelegation) == Delegation && RootSchema(RegistrationTemplate) == Template && RootSchema(AdminBinding) == Binding
  {
  }

  lemma {:induction false} RegistrationSchemas()
    ensures RootSchema(AdminChallenge) == AdminChallengeDoc && RootSchema(AdminConsumption) == Consumption && RootSchema(LimitGrant) == Grant
  {
  }

  lemma {:induction false} OtherSchemas()
    ensures RootSchema(AuthorityCheckpoint) == Checkpoint && RootSchema(AgentSuccessor) == Successor
  {
  }

  lemma {:induction false} RootNamesAre(c: Crypto, i: Input, n: Name)
    requires IsRoot(c, i, n)
    ensures || n == RootDelegation || n == RegistrationTemplate || n == AdminBinding || n == AdminChallenge || n == AdminConsumption
            || n == LimitGrant || n == AuthorityCheckpoint || (n == AgentSuccessor && HasSuccessor(c, i))
  {
    hide HasSuccessor;
  }

  lemma {:induction false} NamedRoots(c: Crypto, i: Input)
    ensures IsRoot(c, i, RootDelegation) && IsRoot(c, i, RegistrationTemplate) && IsRoot(c, i, AdminBinding) && IsRoot(c, i, AdminChallenge)
    ensures IsRoot(c, i, AdminConsumption) && IsRoot(c, i, LimitGrant) && IsRoot(c, i, AuthorityCheckpoint)
    ensures HasSuccessor(c, i) ==> IsRoot(c, i, AgentSuccessor)
  {
    hide HasSuccessor;
  }

  lemma {:induction false} RootsAreSigned(c: Crypto, i: Input)
    ensures (forall n | IsRoot(c, i, n) :: RootDoc(c, i, n).Some?) <==> RootsSigned(c, i)
  {
    hide RootDoc, RootSigned, HasSuccessor, IsRoot, RootSchema;
    RootSchemas();
    RegistrationSchemas();
    OtherSchemas();
    NamedRoots(c, i);
    RootDocSigned(c, i, RootDelegation);
    RootDocSigned(c, i, RegistrationTemplate);
    RootDocSigned(c, i, AdminBinding);
    RootDocSigned(c, i, AdminChallenge);
    RootDocSigned(c, i, AdminConsumption);
    RootDocSigned(c, i, LimitGrant);
    RootDocSigned(c, i, AuthorityCheckpoint);
    RootDocSigned(c, i, AgentSuccessor);
    if RootsSigned(c, i) {
      forall n | IsRoot(c, i, n) ensures RootDoc(c, i, n).Some? {
        RootNamesAre(c, i, n);
      }
    }
  }

  lemma {:induction false} DelegationKids(c: Crypto, v: Value)
    requires ValidCore(c, Delegation, v)
    ensures Raw(v, PassportAuthorityKid) == c.keyId(Raw(v, PassportAuthorityKey)) && Raw(v, ActionAuthorityKid) == c.keyId(Raw(v, ActionAuthorityKey))
  {
    hide Raw, Num, Shaped;
  }

  lemma {:induction false} CredentialKid(c: Crypto, v: Value)
    requires ValidCore(c, Credential, v)
    ensures Raw(v, AgentKid) == c.keyId(Raw(v, AgentKey))
  {
    hide Raw, Num, Shaped, Field;
  }

  lemma {:induction false} DelegationKeysAre(c: Crypto, i: Input)
    requires RootDoc(c, i, RootDelegation).Some?
    ensures var v := Root(c, i, RootDelegation);
            && PassportKeys(c, i) == map[c.keyId(Raw(v, PassportAuthorityKey)) := Raw(v, PassportAuthorityKey)]
            && ActionKeys(c, i) == map[c.keyId(Raw(v, ActionAuthorityKey)) := Raw(v, ActionAuthorityKey)]
  {
    hide RootDoc, ValidCore, Raw, RootSchema, Field;
    RootDocParts(c, i, RootDelegation);
    RootSchemas();
    DelegationKids(c, Root(c, i, RootDelegation));
  }

  lemma {:induction false} AgentKeysAre(c: Crypto, i: Input)
    requires PassportCwt(c, i).Some?
    ensures var key := Raw(Holder(c, i), AgentKey); AgentKeys(c, i) == map[c.keyId(key) := key]
  {
    hide PassportCwt, ValidCore, Raw;
    PassportIsValid(c, i);
    CredentialKid(c, Holder(c, i));
  }

  lemma {:induction false} DelegatesIff(c: Crypto, i: Input)
    requires RootDoc(c, i, RootDelegation).Some?
    ensures PassportCwt(c, i).Some? && SignedDoc(c, i, StatusSnapshot).Some? && SignedDoc(c, i, AsaField).Some? <==> DelegatesSigned(c, i)
  {
    hide RootDoc, Root, PresentedCwt, Presents, PassportKeys, ActionKeys, AgentKeys, Raw;
    DelegationKeysAre(c, i);
    var delegation := Root(c, i, RootDelegation);
    PresentedSigned(c, i, Passport, Credential, PassportKeys(c, i), Raw(delegation, PassportAuthorityKey));
    PresentedSigned(c, i, StatusSnapshot, Snapshot, PassportKeys(c, i), Raw(delegation, PassportAuthorityKey));
    PresentedSigned(c, i, AsaField, AsaCore, ActionKeys(c, i), Raw(delegation, ActionAuthorityKey));
  }

  lemma {:induction false} SignedIsInspected(c: Crypto, raw: Bytes, s: Schema, keys: map<Bytes, Bytes>)
    ensures SignedCwt(c, raw, s, keys).Some? ==> InspectCwt(c, raw, s) == SignedCwt(c, raw, s, keys)
  {
    hide InspectCwt, SignatureValid;
  }

  lemma {:induction false} HolderProofDoc(c: Crypto, i: Input)
    ensures SignedDoc(c, i, PassportHolderProof) == PresentedCwt(c, i, PassportHolderProof, Credential, AgentKeys(c, i))
  {
    hide PresentedCwt, PassportKeys, ActionKeys, AgentKeys;
  }

  lemma {:induction false} HolderProofIff(c: Crypto, i: Input)
    requires PassportCwt(c, i).Some?
    ensures SignedDoc(c, i, PassportHolderProof).Some? && HolderProofCwt(c, i).Some? && HolderProofCwt(c, i).value.core == Holder(c, i)
       <==> Presents(c, i, Raw(Holder(c, i), AgentKey), PassportHolderProof, Credential, Holder(c, i))
  {
    hide SignedBy, InspectCwt, SignedCwt, SignedDoc, AgentKeys, Raw, Field, Pres, Holder, PassportCwt;
    AgentKeysAre(c, i);
    HolderProofDoc(c, i);
    if Field(Pres(c, i), PassportHolderProof).ByteString? {
      var raw := Field(Pres(c, i), PassportHolderProof).raw;
      SignedIsInspected(c, raw, Credential, AgentKeys(c, i));
      OneKeySignedIff(c, raw, Credential, AgentKeys(c, i), Raw(Holder(c, i), AgentKey), Holder(c, i));
    }
  }

  lemma {:induction false} PresentationIff(c: Crypto, i: Input)
    requires PassportCwt(c, i).Some?
    ensures SignedCwt(c, i.presentation, PresentationCore, AgentKeys(c, i)).Some?
       <==> SignedBy(c, Raw(Holder(c, i), AgentKey), i.presentation, PresentationCore, Pres(c, i))
  {
    hide SignedBy, InspectCwt, SignatureValid, AgentKeys, Raw, Holder, PassportCwt;
    AgentKeysAre(c, i);
    OneKeySignedIff(c, i.presentation, PresentationCore, AgentKeys(c, i), Raw(Holder(c, i), AgentKey), Pres(c, i));
  }

  lemma {:induction false} PopIff(c: Crypto, i: Input)
    requires PassportCwt(c, i).Some?
    ensures SignedDoc(c, i, AgentPop).Some? <==> Presents(c, i, Raw(Holder(c, i), AgentKey), AgentPop, Pop, Doc(c, i, AgentPop))
  {
    hide PresentedCwt, Presents, PassportKeys, ActionKeys, AgentKeys, Raw, Holder, PassportCwt;
    AgentKeysAre(c, i);
    PresentedSigned(c, i, AgentPop, Pop, AgentKeys(c, i), Raw(Holder(c, i), AgentKey));
  }

  lemma {:induction false} AllSignedAre(c: Crypto, i: Input)
    ensures AllSigned(c, i) <==> (&& SignedDoc(c, i, PassportHolderProof).Some? && SignedDoc(c, i, AgentPop).Some?
                                  && SignedDoc(c, i, StatusSnapshot).Some? && SignedDoc(c, i, AsaField).Some?)
  {
    hide SignedDoc;
    assert SIGNED_NAMES[0] == PassportHolderProof && SIGNED_NAMES[1] == AgentPop && SIGNED_NAMES[2] == StatusSnapshot && SIGNED_NAMES[3] == AsaField;
  }

  lemma {:induction false} SignaturesAre(c: Crypto, i: Input)
    ensures SignaturesHold(c, i) <==>
      && PassportCwt(c, i).Some? && SignedDoc(c, i, StatusSnapshot).Some? && SignedDoc(c, i, AsaField).Some? && SignedDoc(c, i, AgentPop).Some?
      && SignedDoc(c, i, PassportHolderProof).Some? && HolderProofCwt(c, i).Some? && HolderProofCwt(c, i).value.core == Holder(c, i)
      && SignedCwt(c, i.presentation, PresentationCore, AgentKeys(c, i)).Some?
  {
    hide SignedDoc, PassportCwt, HolderProofCwt, Holder, SignedCwt, AgentKeys, AllSigned;
    AllSignedAre(c, i);
  }

  /** The signature stage accepts exactly when each document is signed by the key whose role it is. */
  lemma {:induction false} SignaturesIff(c: Crypto, i: Input)
    requires RootDoc(c, i, RootDelegation).Some?
    ensures SignaturesHold(c, i) <==> DelegatesSigned(c, i) && AgentSigned(c, i)
  {
    hide SignaturesHold, PassportCwt, SignedDoc, SignedCwt, HolderProofCwt, RootDoc, Root, Holder, Doc, Raw, AgentKeys, Presents, SignedBy, Pres,
         DelegatesSigned;
    SignaturesAre(c, i);
    DelegatesIff(c, i);
    if PassportCwt(c, i).Some? {
      HolderProofIff(c, i);
      PresentationIff(c, i);
      PopIff(c, i);
    }
  }

  // ----- the registrar

  /** The authenticator saw a present and verified user, set the backup bits as stated and no others, and its counter
      went from `before` to `after`: up, or not kept at all. */
  ghost predicate Authenticated(auth: Bytes, before: nat, after: nat, eligible: bool, state: bool)
    requires |auth| == 37
  {
    var (x: int, y: int, z: int) := (auth[33], auth[34], auth[35]);
    && auth[32] == 5 + (if eligible then 8 else 0) + (if state then 16 else 0) && (state ==> eligible)
    && after == x * 0x100_0000 + y * 0x1_0000 + z * 0x100 + auth[36] && (before < after || before == after == 0)
  }

  /** The registrar's own P-256 key signed its authenticator data and client data, for its site. */
  ghost predicate AdminSigned(c: Crypto, admin: Value, client: Bytes, auth: Bytes, signature: Bytes, challenge: Bytes, origin: Bytes) {
    && Field(admin, RoleField) == Text(Ascii("agent-registrar")) && c.originOk(origin, Raw(admin, RpId)) && c.clientOk(client, challenge, origin)
    && |auth| == 37 && auth[..32] == c.hash(Raw(admin, RpId)) && c.p256(Raw(admin, CosePublicKey), auth + c.hash(client), signature)
  }

  /** The registrar's assertion over the selection's challenge is the one whose flags and counter the root recorded. */
  ghost predicate Asserted(c: Crypto, i: Input) {
    var picked, consumption := Picked(c, i), Root(c, i, AdminConsumption);
    var auth := Raw(picked, AuthenticatorData);
    && Encodes(Raw(Pres(c, i), AdminSelection), 16_384, picked) && ValidCore(c, Selection, picked)
    && AdminSigned(c, Root(c, i, AdminBinding), Raw(picked, ClientDataJson), auth, Raw(picked, SignatureField), Raw(picked, ChallengeField), i.origin)
    && Authenticated(auth, Num(consumption, SignCountBefore), Num(consumption, SignCountAfter), Field(consumption, BackupEligible) == Bool(true),
                     Field(consumption, BackupState) == Bool(true))
  }

  /** Who signed what: the challenger, the pinned root, the delegation's two keys, the agent and the registrar. */
  ghost predicate Authentic(c: Crypto, i: Input) {
    Challenged(c, i) && RootsSigned(c, i) && DelegatesSigned(c, i) && AgentSigned(c, i) && Asserted(c, i)
  }

  // ----- when

  ghost predicate Covers(v: Value, from: Name, until: Name, t: nat) {
    Num(v, from) <= t && t < Num(v, until)
  }

  /** Every validity window contains now, and the events are in order. */
  ghost predicate Timely(c: Crypto, i: Input) {
    && Covers(Root(c, i, RootDelegation), ValidFrom, ValidTo, i.now) && Covers(Holder(c, i), ValidFrom, ValidTo, i.now)
    && Covers(Root(c, i, RegistrationTemplate), ValidFrom, ValidTo, i.now) && Covers(Root(c, i, AdminBinding), ValidFrom, ValidTo, i.now)
    && Covers(Root(c, i, LimitGrant), ValidFrom, ValidTo, i.now) && Covers(Root(c, i, LimitGrant), WindowStart, WindowEnd, i.now)
    && Covers(Doc(c, i, AsaField), IssuedAt, ExpiresAt, i.now) && Covers(Doc(c, i, StatusSnapshot), StatusAsOf, ExpiresAt, i.now)
    && (HasSuccessor(c, i) ==> Num(Root(c, i, AgentSuccessor), EffectiveAt) <= i.now)
    && Exchanged(c, i) && Enrolled(c, i)
  }

  /** Challenged, then answered on a reservation and a checkpoint that already existed, then evaluated, before the
      action expires, within the local lifetime and the challenger's freshness. */
  ghost predicate Exchanged(c: Crypto, i: Input) {
    var issued, created, expires := Num(Chal(c, i), IssuedAt), Num(Pres(c, i), CreatedAt), Num(Action(c, i), ExpiresAt);
    var checkpoint := Num(Root(c, i, AuthorityCheckpoint), IssuedAt);
    && issued <= created && created <= i.now && i.now < expires && expires - issued <= i.maxLifetime
    && Num(Doc(c, i, AsaField), IssuedAt) <= created && checkpoint <= created && i.now <= checkpoint + Num(Chal(c, i), MaxCheckpointAge)
    && Field(Doc(c, i, StatusSnapshot), StatusAsOf) == Field(Root(c, i, AuthorityCheckpoint), IssuedAt)
  }

  /** The registrar was challenged while bound, selected, and was recorded, before that challenge expired. */
  ghost predicate Enrolled(c: Crypto, i: Input) {
    var challenge, admin, selected := Root(c, i, AdminChallenge), Root(c, i, AdminBinding), Num(Picked(c, i), SelectedAt);
    var consumed := Num(Root(c, i, AdminConsumption), ConsumedAt);
    && Covers(admin, ValidFrom, ValidTo, Num(challenge, IssuedAt)) && Num(challenge, IssuedAt) <= selected && Num(admin, ValidFrom) <= selected
    && selected <= consumed && consumed < Num(challenge, ExpiresAt) && consumed <= i.now
  }

  // ----- what each digest is of

  function Spelled(v: Value): Bytes {
    var b := Canonical(v);
    if b.Some? then b.value else []
  }

  /** The domain-separated hash of a document's canonical bytes. */
  function CoreHash(c: Crypto, v: Value): Value {
    ByteString(c.hash(Ascii("swarrm-b28/core/v1") + [0] + Spelled(v)))
  }

  /** The proposal of a credential, the scope of an action: the hash of some of its members. */
  ghost predicate IsProposal(c: Crypto, digest: Value, credential: Value) {
    var some := Canonical(Selected(credential, [Tenant, Birthtag, Revision, AgentKid, AgentKey, Owner, Purpose, MandateDigest, ConfigDigest,
                                                TemplateId, TemplateVersion, PrincipalBindingId]));
    some.Some? && digest == ByteString(c.hash(Ascii("swarrm-b28/agent-proposal/v1") + [0] + some.value))
  }

  ghost predicate IsScope(c: Crypto, digest: Value, action: Value) {
    var some := Canonical(Selected(action, [Actor, Operation, ParameterSchema, ParameterDigest, Unit, Source, Destination, Counterparty,
                                            Recipient, PolicyVersion, PolicyDigest]));
    some.Some? && digest == ByteString(c.hash(Ascii("swarrm-b28/action-scope/v1") + [0] + some.value))
  }

  /** Every digest a document carries is of the document presented. */
  ghost predicate Digested(c: Crypto, i: Input) {
    var pres, credential, asa, consumption := Pres(c, i), Holder(c, i), Doc(c, i, AsaField), Root(c, i, AdminConsumption);
    var snapshot, selection := Doc(c, i, StatusSnapshot), ByteString(c.hash(Ascii("swarrm-b28/core/v1") + [0] + Raw(pres, AdminSelection)));
    && Field(pres, ChallengeEnvelopeHash) == ByteString(c.hash(i.challenge))
    && CoreHash(c, Chal(c, i)) == Field(pres, ChallengeDigest) == Field(asa, ChallengeDigest)
    && CoreHash(c, Action(c, i)) == Field(pres, ActionDigest) == Field(asa, ActionDigest)
    && selection == Field(credential, AdminSelectionDigest) == Field(consumption, SelectionDigest)
    && Field(credential, AgentPopDigest) == CoreHash(c, Doc(c, i, AgentPop))
    && Field(consumption, ChallengeDigest) == CoreHash(c, Root(c, i, AdminChallenge)) && Field(consumption, CredentialDigest) == CoreHash(c, credential)
    && Field(snapshot, CheckpointDigest) == CoreHash(c, Root(c, i, AuthorityCheckpoint))
    && Field(snapshot, ProofsDigest) == ByteString(c.hash(Ascii("swarrm-b28/proofs/v1") + [0] + Spelled(Field(pres, StateProofs))))
    && IsProposal(c, Field(Picked(c, i), ProposedAgentDigest), credential) && IsScope(c, Field(Root(c, i, LimitGrant), ActionScopeDigest), Action(c, i))
    && TranscriptNamed(c, i)
  }

  /** The presentation's transcript is the hash of the challenge's and the reservation's envelopes and cores and of
      the action. */
  ghost predicate TranscriptNamed(c: Crypto, i: Input) {
    var asa := Doc(c, i, AsaField);
    var transcript := Canonical(Map([Entry(Text(Spell(SchemaField)), Text(Ascii("swarrm-b28/transcript/v1"))),
                                     Entry(Text(Spell(ChallengeEnvelopeHash)), ByteString(c.hash(i.challenge))),
                                     Entry(Text(Spell(ChallengeDigest)), CoreHash(c, Chal(c, i))),
                                     Entry(Text(Spell(ActionDigest)), CoreHash(c, Action(c, i))),
                                     Entry(Text(Spell(AsaEnvelopeHash)), ByteString(c.hash(Raw(Pres(c, i), AsaField)))),
                                     Entry(Text(Spell(AsaDigest)), CoreHash(c, asa))]));
    && transcript.Some?
    && Field(Pres(c, i), TranscriptDigest) == ByteString(c.hash(Ascii("swarrm-b28/transcript/v1") + [0] + transcript.value))
  }

  // ----- succession, scope and requirements

  /** The passport names a successor link exactly when one is presented, by its digest, for its own first revision and
      proposal. */
  ghost predicate Succeeds(c: Crypto, i: Input) {
    var credential, link := Holder(c, i), Root(c, i, AgentSuccessor);
    if HasSuccessor(c, i) then
      && Field(credential, AgentSuccessorDigest) == CoreHash(c, link) && IsProposal(c, Field(link, SuccessorProposalDigest), credential)
      && Field(link, SuccessorBirthtag) == Field(credential, Birthtag) && Field(link, SuccessorRevision) == Field(credential, Revision)
    else
      && Field(credential, AgentSuccessorDigest) == Null && Field(Field(Pres(c, i), StateProofs), AgentSuccessor) == Null
      && Field(Field(Pres(c, i), StateProofs), PredecessorHead) == Null
  }

  /** The agent's key is neither of the delegation's. */
  ghost predicate OwnKey(c: Crypto, i: Input) {
    var key, delegation := Field(Holder(c, i), AgentKey), Root(c, i, RootDelegation);
    key != Field(delegation, PassportAuthorityKey) && key != Field(delegation, ActionAuthorityKey)
  }

  ghost predicate Affordable(c: Crypto, i: Input) {
    var amount, ceiling := Raw(Action(c, i), ValueField), Raw(Root(c, i, LimitGrant), Ceiling);
    CanonicalDecimal(amount) && CanonicalDecimal(ceiling) && AllDigits(amount) && AllDigits(ceiling) && Number(amount) <= Number(ceiling)
  }

  /** The challenge requires none of the dimensions this version leaves unevaluated. */
  ghost predicate Answerable(c: Crypto, i: Input) {
    var required := Field(Chal(c, i), RequiredDimensions);
    required.Array? ==>
      && Text(Ascii("node_basis")) !in required.items && Text(Ascii("source_basis")) !in required.items && Text(Ascii("coverage_basis")) !in required.items
      && Text(Ascii("history")) !in required.items && Text(Ascii("post_action_evidence_readiness")) !in required.items
  }

  /** The checkpoint is registered and is the pinned head of its tenant, and the passport was issued under a registered
      checkpoint of that tenant, no later, whose log is a prefix. */
  ghost predicate Anchored(c: Crypto, i: Input) {
    var cp := Root(c, i, AuthorityCheckpoint);
    var id, issuance := CoreHash(c, cp).raw, Raw(Holder(c, i), IssuanceCheckpoint);
    var path := Siblings(Field(Pres(c, i), IssuanceConsistencyProof));
    var place := (Raw(cp, Tenant), Raw(cp, OrganisationRoot));
    var head := Head(Num(cp, SequenceField), Raw(cp, AuthorityRoot), Raw(cp, LogRoot), Num(cp, LogSize));
    && place in i.heads && i.heads[place] == head && id in i.checkpoints && i.checkpoints[id] == Pin(place.0, place.1, head)
    && issuance in i.checkpoints && path.Some?
    && i.checkpoints[issuance].tenant == place.0 && i.checkpoints[issuance].organisation == place.1
    && i.checkpoints[issuance].head.sequence <= head.sequence
    && ConsistencyAccepts(c.hash, i.checkpoints[issuance].head.logSize, head.logSize, i.checkpoints[issuance].head.logRoot, head.logRoot, path.value)
  }

  /** The proof presented under this name shows, under the checkpoint's authority root, a record of this kind and
      identity for an object of this digest, in this state and, if one is given, version. */
  ghost predicate Shows(c: Crypto, i: Input, n: Name, kind: Name, id: Bytes, hashed: Value, state: Bytes, version: Option<nat>) {
    var key := c.hash(Ascii("swarrm-authority-state/v1") + [0] + Spell(kind) + [0] + id);
    && hashed.ByteString?
    && StateAccepts(c, ProofOf(c, i, n), Raw(Root(c, i, AuthorityCheckpoint), AuthorityRoot), Claim(key, hashed.raw, state, version))
  }

  /** A document the root signed is in this state, under its own identity. */
  ghost predicate RootShown(c: Crypto, i: Input, n: Name, id: Bytes, state: Bytes) {
    Shows(c, i, n, n, id, CoreHash(c, Root(c, i, n)), state, None)
  }

  /** The registration and its approval are active; the registrar's challenge is spent. */
  ghost predicate RegistrationShown(c: Crypto, i: Input) {
    var template, delegation := Root(c, i, RegistrationTemplate), Root(c, i, RootDelegation);
    var selection := ByteString(c.hash(Ascii("swarrm-b28/core/v1") + [0] + Raw(Pres(c, i), AdminSelection)));
    && RootShown(c, i, RootDelegation, Raw(delegation, DelegationId), Ascii("ACTIVE"))
    && RootShown(c, i, RegistrationTemplate, Raw(template, TemplateId), Ascii("ACTIVE"))
    && Shows(c, i, Mandate, Mandate, Raw(template, MandateDigest), ByteString(Raw(template, MandateDigest)), Ascii("ACTIVE"), None)
    && Shows(c, i, AgentConfig, AgentConfig, Raw(template, ConfigDigest), ByteString(Raw(template, ConfigDigest)), Ascii("ACTIVE"), None)
    && RootShown(c, i, AdminBinding, Raw(Root(c, i, AdminBinding), BindingId), Ascii("ACTIVE"))
    && Shows(c, i, AdminSelection, AdminSelection, Raw(Picked(c, i), ChallengeId), selection, Ascii("ACTIVE"), None)
    && RootShown(c, i, AdminChallenge, Raw(Root(c, i, AdminChallenge), ChallengeId), Ascii("SUPERSEDED"))
    && RootShown(c, i, AdminConsumption, Raw(Root(c, i, AdminConsumption), ChallengeId), Ascii("ACTIVE"))
  }

  /** The agent's proof of possession and passport are active at the passport's revision, which is the agent's head;
      the grant is active and is its head. */
  ghost predicate AgentShown(c: Crypto, i: Input) {
    var credential, grant := Holder(c, i), Root(c, i, LimitGrant);
    var revision := Raw(credential, Birthtag) + BigEndian64(Num(credential, Revision));
    && Shows(c, i, AgentPop, AgentPop, revision, CoreHash(c, Doc(c, i, AgentPop)), Ascii("ACTIVE"), None)
    && Shows(c, i, Passport, AgentCredential, revision, CoreHash(c, credential), Ascii("ACTIVE"), None)
    && Shows(c, i, AgentHead, AgentHead, Raw(credential, Birthtag), CoreHash(c, credential), Ascii("ACTIVE"), UintOf(Field(credential, Revision)))
    && RootShown(c, i, LimitGrant, Raw(grant, GrantId) + BigEndian64(Num(grant, GrantVersion)), Ascii("ACTIVE"))
    && Shows(c, i, GrantHead, GrantHead, Raw(grant, GrantId), CoreHash(c, grant), Ascii("ACTIVE"), None)
  }

  /** A successor link is in effect, and its predecessor superseded one version on. */
  ghost predicate SuccessionShown(c: Crypto, i: Input) {
    var link := Root(c, i, AgentSuccessor);
    && Shows(c, i, AgentSuccessor, AgentSuccessor, Raw(Holder(c, i), Birthtag), CoreHash(c, link), Ascii("ACTIVE"), Some(1))
    && Shows(c, i, PredecessorHead, AgentHead, Raw(link, PredecessorBirthtag), ByteString(Raw(link, PredecessorCredentialDigest)), Ascii("SUPERSEDED"),
             Some(Num(link, PredecessorRevision) + 1))
  }

  /** The registrar's counter has not gone back since the root recorded it. */
  ghost predicate CounterShown(c: Crypto, i: Input) {
    var counter := Field(ProofOf(c, i, AdminCounter), ValueField);
    && Field(counter, ObjectDigest).ByteString? && |Field(counter, ObjectDigest).raw| == 32
    && Num(counter, VersionField) >= Num(Root(c, i, AdminConsumption), CounterVersion)
    && Shows(c, i, AdminCounter, AdminCounter, Raw(Root(c, i, AdminConsumption), BindingId), Field(counter, ObjectDigest), Ascii("ACTIVE"),
             Some(Num(counter, VersionField)))
  }

  /** Every authority object is shown in its state under the pinned root. */
  ghost predicate Shown(c: Crypto, i: Input) {
    RegistrationShown(c, i) && AgentShown(c, i) && (HasSuccessor(c, i) ==> SuccessionShown(c, i)) && CounterShown(c, i)
  }

  /** What consuming an exchange means. */
  ghost predicate Consumable(c: Crypto, i: Input) {
    && Authentic(c, i) && Timely(c, i) && OneTenant(c, i) && OneDelegation(c, i) && OneAgent(c, i) && OneGrant(c, i) && OneRegistration(c, i)
    && Digested(c, i) && Succeeds(c, i) && OwnKey(c, i) && Affordable(c, i) && Answerable(c, i) && Anchored(c, i) && Shown(c, i)
  }

  // ----- what the stages call a digest

  lemma {:induction false} RootSpelled(c: Crypto, i: Input, n: Name)
    requires RootDoc(c, i, n).Some?
    ensures ByteString(CoreDigest(c, CoreBytes(RootDoc(c, i, n)))) == CoreHash(c, Root(c, i, n))
  {
    hide Field, ValidCore, Canonical, HeaderKid, ClaimedCore, SignatureValid, Decode, IsEnvelope, Pres, RootSchema, Ascii;
  }

  lemma {:induction false} DocSpelled(c: Crypto, i: Input, n: Name)
    requires SignedDoc(c, i, n).Some?
    ensures ByteString(CoreDigest(c, CoreBytes(SignedDoc(c, i, n)))) == CoreHash(c, Doc(c, i, n))
  {
    hide Field, ValidCore, Canonical, HeaderKid, ClaimedCore, SignatureValid, Decode, IsEnvelope, Pres, SignedSchema, KeysFor, PassportKeys,
         ActionKeys, AgentKeys, Ascii;
  }

  lemma {:induction false} HolderSpelled(c: Crypto, i: Input)
    requires PassportCwt(c, i).Some?
    ensures ByteString(CoreDigest(c, CoreBytes(PassportCwt(c, i)))) == CoreHash(c, Holder(c, i))
  {
    hide Field, ValidCore, Canonical, HeaderKid, ClaimedCore, SignatureValid, Decode, IsEnvelope, Pres, PassportKeys, Ascii;
  }

  lemma {:induction false} ChallengeSpelled(c: Crypto, i: Input)
    requires ChallengeCwt(c, i).Some?
    ensures ByteString(CoreDigest(c, CoreBytes(ChallengeCwt(c, i)))) == CoreHash(c, Chal(c, i))
    ensures ByteString(CoreDigest(c, ActionBytes(c, i))) == CoreHash(c, Action(c, i))
  {
    hide Field, ValidCore, Canonical, HeaderKid, ClaimedCore, SignatureValid, Decode, IsEnvelope, Ascii;
  }

  lemma {:induction false} NamedIs(c: Crypto, credential: Value, action: Value, digest: Value)
    ensures var d := NamedDigest(c, credential, PROPOSAL_FIELDS, PROPOSAL_DOMAIN); IsProposal(c, digest, credential) <==> d.Some? && digest == ByteString(d.value)
    ensures var d := NamedDigest(c, action, SCOPE_FIELDS, SCOPE_DOMAIN); IsScope(c, digest, action) <==> d.Some? && digest == ByteString(d.value)
  {
    hide Canonical, Selected, Ascii;
  }

  // ----- the registrar's assertion

  lemma {:induction false} FlagsIff(auth: Bytes, signed: CounterState)
    requires |auth| == 37
    ensures AdminFlags(auth, signed.before) == Some(signed)
       <==> Authenticated(auth, signed.before, signed.after, signed.eligible, signed.state)
  {
    assert auth[33..37] == [auth[33], auth[34], auth[35], auth[36]];
  }

  lemma {:induction false} AdminIff(c: Crypto, i: Input)
    requires SelectionOf(c, i).Some?
    ensures VerifyAdmin(c, Root(c, i, AdminBinding), Picked(c, i), i.origin, Num(Root(c, i, AdminConsumption), SignCountBefore), i.now)
              == Some(SignedCounter(Root(c, i, AdminConsumption)))
       <==> Asserted(c, i) && AdminContext(Root(c, i, AdminBinding), Picked(c, i), i.now)
  {
    hide Root, Field, Raw, Num, AdminFlags, Authenticated, ValidCore, Decode, Encodes, Ascii, Within, Agree, Pres;
    var auth, signed := Raw(Picked(c, i), AuthenticatorData), SignedCounter(Root(c, i, AdminConsumption));
    DecodeIff(Raw(Pres(c, i), AdminSelection), 16_384, Picked(c, i));
    if |auth| == 37 {
      FlagsIff(auth, signed);
    }
  }

  // ----- every document is read, and its digests are of it

  ghost predicate Signed(c: Crypto, i: Input) {
    Challenged(c, i) && RootsSigned(c, i) && DelegatesSigned(c, i) && AgentSigned(c, i)
  }

  lemma {:induction false} SignedFrom(c: Crypto, i: Input)
    requires ChallengeHolds(c, i) && RootsHold(c, i) && SignaturesHold(c, i)
    ensures Signed(c, i)
  {
    hide Challenged, RootsSigned, DelegatesSigned, AgentSigned, SignaturesHold, ChallengeCwt, Chal, Field, RootDoc, Root, IsRoot, Action, SameTenant, Within, Num;
    ChallengeSigned(c, i);
    RootsAreSigned(c, i);
    NamedRoots(c, i);
    SignaturesIff(c, i);
  }

  lemma {:induction false} SignedReads(c: Crypto, i: Input)
    requires Signed(c, i)
    ensures ChallengeCwt(c, i).Some? && Field(Field(Chal(c, i), Challenger), AgentKid) == Text(ChallengeCwt(c, i).value.kid)
    ensures (forall n | IsRoot(c, i, n) :: RootDoc(c, i, n).Some?) && SignaturesHold(c, i)
  {
    hide Challenged, RootsSigned, DelegatesSigned, AgentSigned, SignaturesHold, ChallengeCwt, Chal, Field, RootDoc, Root, IsRoot;
    ChallengeSigned(c, i);
    RootsAreSigned(c, i);
    NamedRoots(c, i);
    SignaturesIff(c, i);
  }

  lemma {:induction false} SignaturesRead(c: Crypto, i: Input)
    requires SignaturesHold(c, i)
    ensures PassportCwt(c, i).Some? && HolderProofCwt(c, i).Some? && HolderProofCwt(c, i).value.core == Holder(c, i)
    ensures SignedDoc(c, i, AgentPop).Some? && SignedDoc(c, i, AsaField).Some? && SignedDoc(c, i, StatusSnapshot).Some?
    ensures SignedCwt(c, i.presentation, PresentationCore, AgentKeys(c, i)).Some?
  {
    hide PassportCwt, SignedDoc, HolderProofCwt, Holder, SignedCwt, AgentKeys, SignaturesHold;
    SignaturesAre(c, i);
  }

  /** The digests the stages compute are those of the documents. */
  ghost predicate DigestsAreCores(c: Crypto, i: Input) {
    && ByteString(CoreDigest(c, CoreBytes(ChallengeCwt(c, i)))) == CoreHash(c, Chal(c, i))
    && ByteString(CoreDigest(c, ActionBytes(c, i))) == CoreHash(c, Action(c, i))
    && (forall n | IsRoot(c, i, n) :: ByteString(CoreDigest(c, CoreBytes(RootDoc(c, i, n)))) == CoreHash(c, Root(c, i, n)))
    && ByteString(CoreDigest(c, CoreBytes(PassportCwt(c, i)))) == CoreHash(c, Holder(c, i))
    && ByteString(CoreDigest(c, CoreBytes(SignedDoc(c, i, AgentPop)))) == CoreHash(c, Doc(c, i, AgentPop))
    && ByteString(CoreDigest(c, CoreBytes(SignedDoc(c, i, AsaField)))) == CoreHash(c, Doc(c, i, AsaField))
  }

  lemma {:induction false} DigestsRead(c: Crypto, i: Input)
    requires Signed(c, i)
    ensures DigestsAreCores(c, i)
  {
    hide Signed, ChallengeCwt, Chal, Action, ActionBytes, RootDoc, Root, PassportCwt, Holder, SignedDoc, Doc, CoreDigest, CoreBytes, CoreHash, IsRoot,
         HasSuccessor, SignaturesHold, Field;
    SignedReads(c, i);
    SignaturesRead(c, i);
    NamedRoots(c, i);
    ChallengeSpelled(c, i);
    forall n | IsRoot(c, i, n) ensures ByteString(CoreDigest(c, CoreBytes(RootDoc(c, i, n)))) == CoreHash(c, Root(c, i, n)) {
      RootSpelled(c, i, n);
    }
    HolderSpelled(c, i);
    DocSpelled(c, i, AgentPop);
    DocSpelled(c, i, AsaField);
  }

  // ----- from the stages to the meaning

  lemma {:induction false} AdminParts(c: Crypto, i: Input)
    requires RegistrationHolds(c, i)
    ensures Asserted(c, i) && Within(Root(c, i, AdminBinding), ValidFrom, ValidTo, i.now)
    ensures Num(Root(c, i, AdminBinding), ValidFrom) <= Num(Picked(c, i), SelectedAt)
  {
    hide Root, Field, Num, Picked, Within, Asserted, Agree, Raw, SelectionOf, IssuanceOk, DigestsMatch, ConsumptionHolds, VerifyAdmin, Ascii;
    AdminIff(c, i);
  }

  lemma {:induction false} ExchangedFrom(c: Crypto, i: Input)
    requires ChallengeHolds(c, i) && CheckpointHolds(c, i) && FinishHolds(c, i)
    ensures Exchanged(c, i) && Covers(Doc(c, i, StatusSnapshot), StatusAsOf, ExpiresAt, i.now)
  {
    hide Root, Field, Num, Chal, Action, Pres, Doc, ChallengeCwt, CheckpointId, PlaceOf, HeadOf, IssuedUnderAncestor, SameTenant, ProofsBytes, Ascii,
         Canonical, TranscriptValue, Evaluable;
  }

  lemma {:induction false} EnrolledFrom(c: Crypto, i: Input)
    requires RegistrationHolds(c, i)
    ensures Enrolled(c, i) && Covers(Root(c, i, AdminBinding), ValidFrom, ValidTo, i.now)
  {
    hide Root, Field, Num, Holder, Picked, Doc, NamedDigest, Agree, SameTenant, SelectionOf, VerifyAdmin, SignedCounter, DigestsMatch, CoreDigest,
         CoreBytes, RootDoc, SelectionRaw, PassportCwt, Asserted;
    AdminParts(c, i);
  }

  lemma {:induction false} SuccessorInEffect(c: Crypto, i: Input)
    requires PassportHolds(c, i) && HasSuccessor(c, i) && RootDoc(c, i, AgentSuccessor).Some?
    ensures Num(Root(c, i, AgentSuccessor), EffectiveAt) <= i.now
  {
    hide RootDoc, Field, Num, Holder, Action, Within, Agree, CoreDigest, NamedDigest, HasSuccessor;
  }

  lemma {:induction false} WindowsFrom(c: Crypto, i: Input)
    requires RootsHold(c, i) && PassportHolds(c, i) && GrantHolds(c, i) && AsaHolds(c, i)
    ensures Covers(Root(c, i, RootDelegation), ValidFrom, ValidTo, i.now) && Covers(Holder(c, i), ValidFrom, ValidTo, i.now)
    ensures Covers(Root(c, i, RegistrationTemplate), ValidFrom, ValidTo, i.now) && Covers(Root(c, i, LimitGrant), ValidFrom, ValidTo, i.now)
    ensures Covers(Root(c, i, LimitGrant), WindowStart, WindowEnd, i.now) && Covers(Doc(c, i, AsaField), IssuedAt, ExpiresAt, i.now)
  {
    hide Root, RootDoc, Field, Num, Holder, Action, Doc, SameTenant, IsRoot, Agree, SuccessorMatches, SuccessorCwt, NamedDigest, DecimalAtMost, Raw,
         CoreDigest, ActionBytes, CoreBytes, ChallengeCwt;
  }

  lemma {:induction false} TimelyFrom(c: Crypto, i: Input)
    requires Assured(c, i)
    ensures Timely(c, i)
  {
    hide Assured, ChallengeHolds, PresentationBinds, RootsHold, SignaturesHold, PassportHolds, RegistrationHolds, IssuanceHolds, ConsumptionHolds,
         DigestsMatch, CheckpointHolds, StatesHold, GrantHolds, AsaHolds, FinishHolds, Root, RootDoc, Holder, Doc, Num, Raw, Covers, Exchanged, Enrolled,
         HasSuccessor, Signed, IsRoot, SameTenant, Field, Action;
    StageFacts(c, i);
    ExchangedFrom(c, i);
    EnrolledFrom(c, i);
    WindowsFrom(c, i);
    if HasSuccessor(c, i) {
      SignedFrom(c, i);
      SignedReads(c, i);
      NamedRoots(c, i);
      SuccessorInEffect(c, i);
    }
  }

  lemma {:induction false} TranscriptFrom(c: Crypto, i: Input)
    requires DigestsAreCores(c, i)
    ensures TranscriptNamed(c, i) <==> var t := Canonical(TranscriptValue(c, i));
                                       t.Some? && Field(Pres(c, i), TranscriptDigest) == ByteString(c.hash(TRANSCRIPT_DOMAIN + t.value))
  {
    hide Field, Spell, Pres, Doc, Chal, Action, ActionBytes, CoreDigest, CoreHash, CoreBytes, ChallengeCwt, SignedDoc, Raw, Canonical, Ascii;
  }

  lemma {:induction false} IssuedDigests(c: Crypto, i: Input)
    requires IssuanceHolds(c, i) && GrantHolds(c, i)
    ensures IsProposal(c, Field(Picked(c, i), ProposedAgentDigest), Holder(c, i))
    ensures IsScope(c, Field(Root(c, i, LimitGrant), ActionScopeDigest), Action(c, i))
  {
    hide Field, Root, Holder, Picked, Doc, Action, NamedDigest, IsProposal, IsScope, IssuanceHolds, GrantHolds;
    ProposalParts(c, i);
    ScopeParts(c, i);
    NamedIs(c, Holder(c, i), Action(c, i), Field(Picked(c, i), ProposedAgentDigest));
    NamedIs(c, Holder(c, i), Action(c, i), Field(Root(c, i, LimitGrant), ActionScopeDigest));
  }

  lemma {:induction false} SnapshotDigests(c: Crypto, i: Input)
    requires CheckpointHolds(c, i) && DigestsAreCores(c, i)
    ensures Field(Doc(c, i, StatusSnapshot), CheckpointDigest) == CoreHash(c, Root(c, i, AuthorityCheckpoint))
    ensures Field(Doc(c, i, StatusSnapshot), ProofsDigest) == ByteString(c.hash(Ascii("swarrm-b28/proofs/v1") + [0] + Spelled(Field(Pres(c, i), StateProofs))))
  {
    hide Field, Root, RootDoc, Doc, Num, Raw, SameTenant, PlaceOf, HeadOf, IssuedUnderAncestor, Chal, Pres, Canonical, CoreDigest, CoreHash, CoreBytes, Ascii,
         ChallengeCwt, SignedDoc, PassportCwt, Holder, HasSuccessor, ActionBytes, Action;
  }

  lemma {:induction false} DigestedFrom(c: Crypto, i: Input)
    requires Assured(c, i)
    ensures Digested(c, i)
  {
    hide Assured, ChallengeHolds, RootsHold, SignaturesHold, PassportHolds, RegistrationHolds, IssuanceHolds, CheckpointHolds, StatesHold, GrantHolds,
         Root, RootDoc, Holder, Doc, Num, Raw, HasSuccessor, Signed, SameTenant, Field, Action, Chal, Pres, Picked, CoreDigest, CoreHash, CoreBytes, Ascii,
         ChallengeCwt, SignedDoc, PassportCwt, ActionBytes, InspectCwt, IsProposal, IsScope, TranscriptNamed, TranscriptValue, Canonical, Agree, Within,
         Evaluable, Spelled;
    StageFacts(c, i);
    SignedFrom(c, i);
    DigestsRead(c, i);
    IssuedDigests(c, i);
    SnapshotDigests(c, i);
    TranscriptFrom(c, i);
    SelectionDigestIs(c, i);
  }

  lemma {:induction false} SelectionDigestIs(c: Crypto, i: Input)
    ensures ByteString(CoreDigest(c, SelectionRaw(c, i))) == ByteString(c.hash(Ascii("swarrm-b28/core/v1") + [0] + Raw(Pres(c, i), AdminSelection)))
  {
    hide Ascii, Raw, Pres;
  }

  // ----- succession, requirements and state, both ways

  lemma {:induction false} SuccessorFields(c: Crypto, i: Input)
    requires RootDoc(c, i, AgentSuccessor).Some?
    ensures ValidCore(c, Successor, Root(c, i, AgentSuccessor))
  {
    hide RootDoc, ValidCore, Field, RootSchema;
    OtherSchemas();
    RootDocParts(c, i, AgentSuccessor);
  }

  lemma {:induction false} SuccessorKinds()
    ensures EffectiveAt in Fields(Successor) && KindOf(Successor, EffectiveAt) == Count
    ensures SuccessorProposalDigest in Fields(Successor) && KindOf(Successor, SuccessorProposalDigest) == Token
  {
  }

  lemma {:induction false} SuccessorReads(c: Crypto, v: Value)
    requires ValidCore(c, Successor, v)
    ensures UintOf(Field(v, EffectiveAt)).Some? && Field(v, SuccessorProposalDigest).ByteString?
  {
    hide Field, ValidCore, KindOf, Fields;
    SuccessorKinds();
    MemberFits(c, Successor, v, EffectiveAt);
    MemberFits(c, Successor, v, SuccessorProposalDigest);
  }

  lemma {:induction false} SucceedsIff(c: Crypto, i: Input)
    requires DigestsAreCores(c, i) && (HasSuccessor(c, i) ==> RootDoc(c, i, AgentSuccessor).Some?)
    ensures && SuccessorMatches(c, Holder(c, i), SuccessorCwt(c, i), i.now)
            && (!HasSuccessor(c, i) ==> ProofOf(c, i, AgentSuccessor) == Null == ProofOf(c, i, PredecessorHead))
       <==> Succeeds(c, i) && (HasSuccessor(c, i) ==> Num(Root(c, i, AgentSuccessor), EffectiveAt) <= i.now)
  {
    hide HasSuccessor, RootDoc, Field, Num, Holder, Pres, CoreDigest, CoreHash, IsProposal, NamedDigest, ValidCore, Chal, Action, ActionBytes,
         ChallengeCwt, PassportCwt, SignedDoc, Doc;
    if HasSuccessor(c, i) {
      SuccessorFields(c, i);
      SuccessorReads(c, Root(c, i, AgentSuccessor));
      NamedIs(c, Holder(c, i), Action(c, i), Field(Root(c, i, AgentSuccessor), SuccessorProposalDigest));
    }
  }

  lemma {:induction false} DimensionNames()
    ensures DimensionText(NodeBasis) == Ascii("node_basis") && DimensionText(SourceBasis) == Ascii("source_basis")
    ensures DimensionText(CoverageBasis) == Ascii("coverage_basis") && DimensionText(HistoryDim) == Ascii("history")
    ensures DimensionText(EvidenceReadiness) == Ascii("post_action_evidence_readiness")
  {
    hide Ascii;
  }

  lemma {:induction false} AnswerableIff(c: Crypto, i: Input)
    ensures Evaluable(Field(Chal(c, i), RequiredDimensions)) <==> Answerable(c, i)
  {
    hide Field, Chal, Ascii, DimensionText;
    DimensionNames();
    if Evaluable(Field(Chal(c, i), RequiredDimensions)) {
      assert NodeBasis in UNEVALUATED && SourceBasis in UNEVALUATED && CoverageBasis in UNEVALUATED && HistoryDim in UNEVALUATED;
      assert EvidenceReadiness in UNEVALUATED;
    }
  }

  lemma {:induction false} AffordableIff(c: Crypto, i: Input)
    ensures DecimalAtMost(Raw(Action(c, i), ValueField), Raw(Root(c, i, LimitGrant), Ceiling)) <==> Affordable(c, i)
  {
    hide DecimalAtMost, Number, Raw, Action, Root;
    DecimalAtMostIsNumeric(Raw(Action(c, i), ValueField), Raw(Root(c, i, LimitGrant), Ceiling));
  }

  /** Registered, pinned and descended, as the checkpoint stage checks it. */
  lemma {:induction false} AnchoredIff(c: Crypto, i: Input)
    requires DigestsAreCores(c, i)
    ensures var cp := Root(c, i, AuthorityCheckpoint);
            Anchored(c, i) <==>
              && CheckpointId(c, i) in i.checkpoints && i.checkpoints[CheckpointId(c, i)] == Pin(PlaceOf(cp).0, PlaceOf(cp).1, HeadOf(cp))
              && PlaceOf(cp) in i.heads && i.heads[PlaceOf(cp)] == HeadOf(cp) && IssuedUnderAncestor(c, i)
  {
    hide HasSuccessor, RootDoc, Field, Num, Raw, Holder, Pres, Root, CoreDigest, Spelled, Chal, Action, ActionBytes, ChallengeCwt, PassportCwt, SignedDoc,
         Doc, ConsistencyAccepts, Siblings, CoreBytes, Ascii;
  }

  lemma {:induction false} ShowsIs(c: Crypto, i: Input, n: Name, kind: Name, id: Bytes, digest: Bytes, state: Bytes, version: Option<nat>)
    ensures Shows(c, i, n, kind, id, ByteString(digest), state, version)
       <==> Proven(c, i, Raw(Root(c, i, AuthorityCheckpoint), AuthorityRoot), Object(n, Claim(StateKey(c, kind, id), digest, state, version)))
  {
    hide Root, Raw, ProofOf, StateAccepts, Spell, Ascii;
  }

  lemma {:induction false} RootShownIs(c: Crypto, i: Input, n: Name, id: Bytes, state: Bytes)
    requires DigestsAreCores(c, i) && IsRoot(c, i, n)
    ensures RootShown(c, i, n, id, state) <==> Proven(c, i, Raw(Root(c, i, AuthorityCheckpoint), AuthorityRoot), Rooted(c, i, n, id, state))
  {
    hide Root, Raw, ProofOf, StateAccepts, Spell, Ascii, IsRoot, RootDoc, CoreDigest, CoreHash, CoreBytes, HasSuccessor, Shows, Proven, StateKey,
         Chal, ChallengeCwt, Action, ActionBytes, PassportCwt, Holder, SignedDoc, Doc;
    ShowsIs(c, i, n, n, id, CoreDigest(c, CoreBytes(RootDoc(c, i, n))), state, None);
  }

  lemma {:induction false} RegistrationObjects(c: Crypto, i: Input)
    requires DigestsAreCores(c, i)
    ensures RegistrationShown(c, i) <==> forall k | 0 <= k < 8 :: Proven(c, i, Raw(Root(c, i, AuthorityCheckpoint), AuthorityRoot), Objects(c, i)[k])
  {
    hide Root, Raw, ProofOf, StateAccepts, Spell, Ascii, IsRoot, RootDoc, CoreDigest, CoreHash, CoreBytes, HasSuccessor, Shows, Proven, StateKey,
         Chal, ChallengeCwt, Action, ActionBytes, PassportCwt, Holder, SignedDoc, Doc, RootShown, Rooted, Picked, Pres, Field, Num, BigEndian64,
         DigestsAreCores, SelectionRaw;
    var template, o := Root(c, i, RegistrationTemplate), Objects(c, i);
    NamedRoots(c, i);
    SelectionDigestIs(c, i);
    RootShownIs(c, i, RootDelegation, Raw(Root(c, i, RootDelegation), DelegationId), ACTIVE);
    RootShownIs(c, i, RegistrationTemplate, Raw(template, TemplateId), ACTIVE);
    ShowsIs(c, i, Mandate, Mandate, Raw(template, MandateDigest), Raw(template, MandateDigest), ACTIVE, None);
    ShowsIs(c, i, AgentConfig, AgentConfig, Raw(template, ConfigDigest), Raw(template, ConfigDigest), ACTIVE, None);
    RootShownIs(c, i, AdminBinding, Raw(Root(c, i, AdminBinding), BindingId), ACTIVE);
    ShowsIs(c, i, AdminSelection, AdminSelection, Raw(Picked(c, i), ChallengeId), CoreDigest(c, SelectionRaw(c, i)), ACTIVE, None);
    RootShownIs(c, i, AdminChallenge, Raw(Root(c, i, AdminChallenge), ChallengeId), SUPERSEDED);
    RootShownIs(c, i, AdminConsumption, Raw(Root(c, i, AdminConsumption), ChallengeId), ACTIVE);
    ObjectCounts(c, i);
    var root := Raw(Root(c, i, AuthorityCheckpoint), AuthorityRoot);
    assert RegistrationShown(c, i) <==> (&& Proven(c, i, root, o[0]) && Proven(c, i, root, o[1]) && Proven(c, i, root, o[2]) && Proven(c, i, root, o[3])
                                         && Proven(c, i, root, o[4]) && Proven(c, i, root, o[5]) && Proven(c, i, root, o[6]) && Proven(c, i, root, o[7]));
    if RegistrationShown(c, i) {
      forall k | 0 <= k < 8 ensures Proven(c, i, Raw(Root(c, i, AuthorityCheckpoint), AuthorityRoot), o[k]) {
        assert o[k] == o[0] || o[k] == o[1] || o[k] == o[2] || o[k] == o[3] || o[k] == o[4] || o[k] == o[5] || o[k] == o[6] || o[k] == o[7];
      }
    }
  }

  lemma {:induction false} AgentObjects(c: Crypto, i: Input)
    requires DigestsAreCores(c, i)
    ensures AgentShown(c, i) <==> forall k | 8 <= k < 13 :: Proven(c, i, Raw(Root(c, i, AuthorityCheckpoint), AuthorityRoot), Objects(c, i)[k])
  {
    hide Root, Raw, ProofOf, StateAccepts, Spell, Ascii, IsRoot, RootDoc, CoreDigest, CoreHash, CoreBytes, HasSuccessor, Shows, Proven, StateKey,
         Chal, ChallengeCwt, Action, ActionBytes, PassportCwt, Holder, SignedDoc, Doc, RootShown, Rooted, Picked, Pres, Field, Num, BigEndian64, UintOf,
         SelectionRaw;
    var credential, grant, o := Holder(c, i), Root(c, i, LimitGrant), Objects(c, i);
    var revision := Raw(credential, Birthtag) + BigEndian64(Num(credential, Revision));
    var passport := CoreDigest(c, CoreBytes(PassportCwt(c, i)));
    NamedRoots(c, i);
    ShowsIs(c, i, AgentPop, AgentPop, revision, CoreDigest(c, CoreBytes(SignedDoc(c, i, AgentPop))), ACTIVE, None);
    ShowsIs(c, i, Passport, AgentCredential, revision, passport, ACTIVE, None);
    ShowsIs(c, i, AgentHead, AgentHead, Raw(credential, Birthtag), passport, ACTIVE, UintOf(Field(credential, Revision)));
    RootShownIs(c, i, LimitGrant, Raw(grant, GrantId) + BigEndian64(Num(grant, GrantVersion)), ACTIVE);
    ShowsIs(c, i, GrantHead, GrantHead, Raw(grant, GrantId), CoreDigest(c, CoreBytes(RootDoc(c, i, LimitGrant))), ACTIVE, None);
    ObjectCounts(c, i);
    var root := Raw(Root(c, i, AuthorityCheckpoint), AuthorityRoot);
    assert AgentShown(c, i) <==> (&& Proven(c, i, root, o[8]) && Proven(c, i, root, o[9]) && Proven(c, i, root, o[10])
                                  && Proven(c, i, root, o[11]) && Proven(c, i, root, o[12]));
    if AgentShown(c, i) {
      forall k | 8 <= k < 13 ensures Proven(c, i, Raw(Root(c, i, AuthorityCheckpoint), AuthorityRoot), o[k]) {
        assert o[k] == o[8] || o[k] == o[9] || o[k] == o[10] || o[k] == o[11] || o[k] == o[12];
      }
    }
  }

  lemma {:induction false} OtherObjects(c: Crypto, i: Input)
    requires DigestsAreCores(c, i)
    ensures var root := Raw(Root(c, i, AuthorityCheckpoint), AuthorityRoot);
            HasSuccessor(c, i) ==> (SuccessionShown(c, i) <==> forall k | 0 <= k < |SuccessorObjects(c, i)| :: Proven(c, i, root, SuccessorObjects(c, i)[k]))
    ensures var counter, root := Field(ProofOf(c, i, AdminCounter), ValueField), Raw(Root(c, i, AuthorityCheckpoint), AuthorityRoot);
            CounterShown(c, i) <==>
              Fits(Fixed, Field(counter, ObjectDigest)) && Num(counter, VersionField) >= Num(Root(c, i, AdminConsumption), CounterVersion)
              && Proven(c, i, root, CounterObject(c, i))
  {
    hide Root, StateAccepts, Spell, Ascii, IsRoot, RootDoc, CoreDigest, CoreHash, CoreBytes, HasSuccessor, Shows, Proven, StateKey,
         Chal, ChallengeCwt, Action, ActionBytes, PassportCwt, Holder, SignedDoc, Doc, Pres, Field, Num;
    var link, counter := Root(c, i, AgentSuccessor), Field(ProofOf(c, i, AdminCounter), ValueField);
    NamedRoots(c, i);
    ShowsIs(c, i, AgentSuccessor, AgentSuccessor, Raw(Holder(c, i), Birthtag), CoreDigest(c, CoreBytes(RootDoc(c, i, AgentSuccessor))), ACTIVE, Some(1));
    ShowsIs(c, i, PredecessorHead, AgentHead, Raw(link, PredecessorBirthtag), Raw(link, PredecessorCredentialDigest), SUPERSEDED,
            Some(Num(link, PredecessorRevision) + 1));
    var o, root := SuccessorObjects(c, i), Raw(Root(c, i, AuthorityCheckpoint), AuthorityRoot);
    assert HasSuccessor(c, i) ==> (SuccessionShown(c, i) <==> Proven(c, i, root, o[0]) && Proven(c, i, root, o[1]));
    ShowsIs(c, i, AdminCounter, AdminCounter, Raw(Root(c, i, AdminConsumption), BindingId), Raw(counter, ObjectDigest), ACTIVE, Some(Num(counter, VersionField)));
  }

  lemma {:induction false} ShownIff(c: Crypto, i: Input)
    requires DigestsAreCores(c, i)
    ensures StatesHold(c, i, Raw(Root(c, i, AuthorityCheckpoint), AuthorityRoot)) <==>
            Shown(c, i) && (!HasSuccessor(c, i) ==> ProofOf(c, i, AgentSuccessor) == Null == ProofOf(c, i, PredecessorHead))
  {
    hide HasSuccessor, Field, Num, Raw, Root, ProofOf, AllObjects, Objects, SuccessorObjects, CounterObject, StateAccepts, DigestsAreCores,
         RegistrationShown, AgentShown, SuccessionShown, CounterShown;
    var root := Raw(Root(c, i, AuthorityCheckpoint), AuthorityRoot);
    AllObjectsProven(c, i, root);
    ObjectCounts(c, i);
    RegistrationObjects(c, i);
    AgentObjects(c, i);
    OtherObjects(c, i);
  }

  lemma {:induction false} SuccessionFrom(c: Crypto, i: Input)
    requires Assured(c, i)
    ensures Succeeds(c, i) && OwnKey(c, i) && Shown(c, i) && Anchored(c, i) && Affordable(c, i) && Answerable(c, i)
  {
    hide Assured, ChallengeHolds, PresentationBinds, RegistrationHolds, IssuanceHolds, ConsumptionHolds, DigestsMatch, Root, RootDoc, Holder, Doc, Num, Raw,
         HasSuccessor, Signed, IsRoot, SameTenant, Field, Action, Succeeds, Shown, Anchored, Affordable, Answerable, Agree, SignaturesHold,
         CoreDigest, ProofsBytes, CheckpointId, PlaceOf, HeadOf, IssuedUnderAncestor, NamedDigest, DecimalAtMost, Evaluable, Chal, Pres, AsaHolds,
         SuccessorMatches, StatesHold, DigestsAreCores, ProofOf, TranscriptValue, Canonical, Ascii;
    StageFacts(c, i);
    SignedFrom(c, i);
    SignedReads(c, i);
    DigestsRead(c, i);
    NamedRoots(c, i);
    SucceedsIff(c, i);
    ShownIff(c, i);
    AnchoredIff(c, i);
    AffordableIff(c, i);
    AnswerableIff(c, i);
  }

  /** A consumable run is authentic, timely, about one authority, and true to every digest, state and pin. */
  lemma {:induction false} AssuredMeans(c: Crypto, i: Input)
    requires Assured(c, i)
    ensures Consumable(c, i)
  {
    hide Assured, ChallengeHolds, PresentationBinds, RootsHold, SignaturesHold, PassportHolds, RegistrationHolds, IssuanceHolds, ConsumptionHolds,
         DigestsMatch, CheckpointHolds, StatesHold, GrantHolds, AsaHolds, FinishHolds, Challenged, RootsSigned, DelegatesSigned, AgentSigned, Asserted,
         Timely, OneTenant, OneDelegation, OneAgent, OneGrant, OneRegistration, Digested, Succeeds, OwnKey, Affordable, Answerable, Anchored, Shown, Root,
         Raw;
    StageFacts(c, i);
    SignedFrom(c, i);
    AdminParts(c, i);
    TimelyFrom(c, i);
    OneAuthority(c, i);
    DigestedFrom(c, i);
    SuccessionFrom(c, i);
  }

  // ----- from the meaning to the stages

  lemma {:induction false} StartFrom(c: Crypto, i: Input)
    requires Signed(c, i) && Exchanged(c, i) && Digested(c, i)
    ensures ChallengeHolds(c, i) && PresentationBinds(c, i)
  {
    hide Field, Num, Chal, Action, Pres, Root, Doc, Holder, Picked, ChallengeCwt, RootsSigned, DelegatesSigned, AgentSigned, SignedBy, SignaturesHold,
         CoreDigest, CoreHash, ActionBytes, CoreBytes, RootDoc, PassportCwt, SignedDoc, HasSuccessor, InspectCwt, SignatureValid, IsProposal, IsScope,
         TranscriptNamed, Ascii, Raw, IsRoot, AgentKeys, HolderProofCwt;
    SignedReads(c, i);
    SignaturesRead(c, i);
    DigestsRead(c, i);
  }

  lemma {:induction false} RootsFrom(c: Crypto, i: Input)
    requires Signed(c, i) && OneTenant(c, i) && OneAgent(c, i) && Timely(c, i)
    ensures RootsHold(c, i) && SignaturesHold(c, i)
  {
    hide Field, Num, Root, Doc, Holder, Picked, RootDoc, HasSuccessor, Action, IsRoot, SignaturesHold, Signed, Exchanged, Enrolled, Agree, HolderProofCwt,
         Chal, ChallengeCwt;
    SignedReads(c, i);
    NamedRoots(c, i);
  }

  lemma {:induction false} PassportFrom(c: Crypto, i: Input)
    requires Signed(c, i) && OneTenant(c, i) && OneDelegation(c, i) && OneAgent(c, i) && OneRegistration(c, i)
    requires Timely(c, i) && Succeeds(c, i) && OwnKey(c, i)
    ensures PassportHolds(c, i)
  {
    hide Field, Num, Root, Doc, Holder, Picked, RootDoc, HasSuccessor, Action, IsRoot, Signed, Exchanged, Enrolled, Agree, HolderProofCwt, Chal, ChallengeCwt,
         SuccessorMatches, Succeeds, DigestsAreCores, ProofOf, SignaturesHold;
    SignedReads(c, i);
    NamedRoots(c, i);
    DigestsRead(c, i);
    SucceedsIff(c, i);
    forall p | p in BINDING_PAIRS ensures Field(Holder(c, i), p.0) == Field(Root(c, i, RootDelegation), p.1) {
    }
  }

  lemma {:induction false} SelectionRead(c: Crypto, i: Input)
    requires Asserted(c, i)
    ensures SelectionOf(c, i).Some?
  {
    hide Field, Num, Root, Raw, Pres, ValidCore, Encodes, Decode, AdminSigned, Authenticated;
    DecodeIff(Raw(Pres(c, i), AdminSelection), 16_384, Picked(c, i));
    if SelectionOf(c, i).None? {
      NullIsInvalid(c);
    }
  }

  lemma {:induction false} NullIsInvalid(c: Crypto)
    ensures !ValidCore(c, Selection, Null)
  {
    hide Field, Fields, KindOf, Coherent;
  }

  lemma {:induction false} IssuanceFrom(c: Crypto, i: Input)
    requires OneTenant(c, i) && OneAgent(c, i) && OneRegistration(c, i) && Timely(c, i) && Digested(c, i) && Asserted(c, i)
    ensures IssuanceHolds(c, i)
  {
    hide Field, Num, Root, Doc, Holder, Picked, HasSuccessor, Action, IsRoot, Exchanged, HolderProofCwt, Chal, NamedDigest, IsProposal, IsScope, CoreHash,
         TranscriptNamed, Spelled, Pres, Raw, Ascii, SelectionOf, Asserted;
    SelectionRead(c, i);
    NamedRoots(c, i);
    NamedIs(c, Holder(c, i), Action(c, i), Field(Picked(c, i), ProposedAgentDigest));
  }

  lemma {:induction false} AdminContextFrom(c: Crypto, i: Input)
    requires OneTenant(c, i) && OneRegistration(c, i) && Timely(c, i) && Asserted(c, i)
    ensures AdminContext(Root(c, i, AdminBinding), Picked(c, i), i.now)
  {
    hide Field, Num, Root, Doc, Holder, Picked, HasSuccessor, Action, IsRoot, Exchanged, Raw, Pres, Ascii, Encodes, Authenticated, Agree;
    NamedRoots(c, i);
    AgreeThree(Picked(c, i), Root(c, i, AdminBinding));
  }

  lemma {:induction false} AgreeThree(v: Value, w: Value)
    requires Field(v, Tenant) == Field(w, Tenant) && Field(v, BindingId) == Field(w, BindingId) && Field(v, CredentialId) == Field(w, CredentialId)
    ensures Agree(v, w, [Tenant, BindingId, CredentialId])
  {
    hide Field;
  }

  lemma {:induction false} RegistrationFrom(c: Crypto, i: Input)
    requires Signed(c, i) && Asserted(c, i) && OneTenant(c, i) && OneAgent(c, i) && OneRegistration(c, i) && Timely(c, i) && Digested(c, i)
    ensures RegistrationHolds(c, i)
  {
    hide Signed, Asserted, OneTenant, OneAgent, OneRegistration, Timely, Digested, Field, Num, Root, Picked, Raw, VerifyAdmin, AdminContext, IssuanceHolds,
         ConsumptionHolds, DigestsMatch, SelectionOf;
    IssuanceFrom(c, i);
    SelectionRead(c, i);
    AdminContextFrom(c, i);
    AdminIff(c, i);
    ConsumptionFrom(c, i);
  }

  lemma {:induction false} ConsumptionFrom(c: Crypto, i: Input)
    requires Signed(c, i) && OneTenant(c, i) && OneRegistration(c, i) && Timely(c, i) && Digested(c, i)
    ensures DigestsMatch(c, i) && ConsumptionHolds(c, i)
  {
    hide Signed, Exchanged, Field, Num, Root, RootDoc, Doc, SignedDoc, Holder, PassportCwt, Picked, Raw, Pres, CoreDigest, CoreHash, CoreBytes, Chal, Action,
         ChallengeCwt, ActionBytes, HasSuccessor, IsRoot, Agree, IsProposal, IsScope, TranscriptNamed, Spelled, Ascii, SelectionRaw;
    DigestsRead(c, i);
    NamedRoots(c, i);
    SelectionDigestIs(c, i);
  }

  lemma {:induction false} CheckpointFrom(c: Crypto, i: Input)
    requires Signed(c, i) && OneTenant(c, i) && OneDelegation(c, i) && Timely(c, i) && Digested(c, i) && Anchored(c, i)
    ensures CheckpointHolds(c, i)
  {
    hide Signed, Enrolled, Field, Num, Root, RootDoc, Doc, SignedDoc, Holder, PassportCwt, Picked, Raw, Pres, CoreDigest, CoreHash, CoreBytes, Chal, Action,
         ChallengeCwt, ActionBytes, HasSuccessor, IsRoot, IsProposal, IsScope, TranscriptNamed, Canonical, Ascii, Anchored, IssuedUnderAncestor,
         PlaceOf, HeadOf;
    DigestsRead(c, i);
    NamedRoots(c, i);
    AnchoredIff(c, i);
  }

  lemma {:induction false} GrantFrom(c: Crypto, i: Input)
    requires OneTenant(c, i) && OneDelegation(c, i) && OneAgent(c, i) && OneGrant(c, i) && Timely(c, i) && Digested(c, i) && Affordable(c, i)
    ensures GrantHolds(c, i)
  {
    hide Exchanged, Enrolled, Field, Num, Root, Doc, Holder, Picked, Raw, Pres, CoreHash, Chal, Action, HasSuccessor, IsRoot, IsProposal, IsScope,
         TranscriptNamed, NamedDigest, Spelled, Ascii, Affordable, DecimalAtMost, Agree, HolderProofCwt;
    NamedRoots(c, i);
    AffordableIff(c, i);
    NamedIs(c, Holder(c, i), Action(c, i), Field(Root(c, i, LimitGrant), ActionScopeDigest));
    AgreeOn(Root(c, i, LimitGrant), Action(c, i), [GrantId, GrantVersion, Operation, Unit], ACTION_GRANT);
  }

  lemma {:induction false} AsaFrom(c: Crypto, i: Input)
    requires Signed(c, i) && OneTenant(c, i) && OneDelegation(c, i) && OneGrant(c, i) && Timely(c, i) && Digested(c, i)
    ensures AsaHolds(c, i)
  {
    hide Signed, Exchanged, Enrolled, Field, Num, Root, RootDoc, Doc, SignedDoc, Holder, PassportCwt, Picked, Raw, Pres, CoreDigest, CoreHash, CoreBytes, Chal,
         Action, ChallengeCwt, ActionBytes, HasSuccessor, IsRoot, IsProposal, IsScope, TranscriptNamed, Spelled, Ascii, Agree;
    DigestsRead(c, i);
    AgreeOn(Doc(c, i, AsaField), Action(c, i), [GrantId, GrantVersion, AsaId, ExpiresAt], ACTION_ASA);
  }

  lemma {:induction false} FinishFrom(c: Crypto, i: Input)
    requires Signed(c, i) && Timely(c, i) && Digested(c, i) && Answerable(c, i)
    ensures FinishHolds(c, i)
  {
    hide Signed, Enrolled, Field, Root, RootDoc, Doc, SignedDoc, Holder, PassportCwt, Picked, Raw, Pres, CoreDigest, CoreHash, CoreBytes, Chal, Action,
         ChallengeCwt, ActionBytes, HasSuccessor, IsProposal, IsScope, TranscriptNamed, TranscriptValue, Canonical, Ascii, Answerable, Evaluable;
    DigestsRead(c, i);
    TranscriptFrom(c, i);
    AnswerableIff(c, i);
  }

  lemma {:induction false} StatesFrom(c: Crypto, i: Input)
    requires Signed(c, i) && Succeeds(c, i) && Shown(c, i) && Timely(c, i)
    ensures StatesHold(c, i, Raw(Root(c, i, AuthorityCheckpoint), AuthorityRoot))
  {
    hide Signed, Exchanged, Enrolled, Covers, Field, Num, Root, RootDoc, Doc, Holder, Raw, Pres, CoreHash, HasSuccessor, IsRoot, IsProposal, Shown, Succeeds,
         ProofOf, StatesHold, SuccessorMatches, DigestsAreCores, SignaturesHold;
    SignedReads(c, i);
    NamedRoots(c, i);
    DigestsRead(c, i);
    SucceedsIff(c, i);
    ShownIff(c, i);
  }

  lemma {:induction false} MeaningAssures(c: Crypto, i: Input)
    requires Consumable(c, i)
    ensures Assured(c, i)
  {
    hide ChallengeHolds, PresentationBinds, RootsHold, SignaturesHold, PassportHolds, RegistrationHolds, CheckpointHolds, StatesHold, GrantHolds, AsaHolds,
         FinishHolds, Challenged, RootsSigned, DelegatesSigned, AgentSigned, Asserted, OneTenant, OneDelegation, OneAgent, OneGrant, OneRegistration,
         Digested, Succeeds, OwnKey, Affordable, Answerable, Anchored, Shown, Root, Raw, Covers, Exchanged, Enrolled, HasSuccessor;
    StartFrom(c, i);
    RootsFrom(c, i);
    PassportFrom(c, i);
    RegistrationFrom(c, i);
    CheckpointFrom(c, i);
    StatesFrom(c, i);
    GrantFrom(c, i);
    AsaFrom(c, i);
    FinishFrom(c, i);
  }

  /** The stages yield an exchange to consume exactly when it means what consuming it means. */
  lemma {:induction false} AssuredIff(c: Crypto, i: Input)
    ensures Assured(c, i) <==> Consumable(c, i)
  {
    hide Assured, Consumable;
    if Assured(c, i) {
      AssuredMeans(c, i);
    }
    if Consumable(c, i) {
      MeaningAssures(c, i);
    }
  }

  // ----- what valid documents add

  lemma {:induction false} ChallengeCoheres(c: Crypto, v: Value)
    requires ValidCore(c, ChallengeCore, v)
    ensures var action := Field(v, ActionField);
            && Field(v, Challenger) == Field(action, Recipient)
            && Field(Field(action, Counterparty), OrganisationRoot) == Field(Field(action, Recipient), OrganisationRoot)
            && Field(v, AcceptedEncodings) == Array([Text(Ascii("application/eat+cwt"))])
  {
    hide Field, Num, Shaped, DimensionsValid, ProfileMatches, Ascii;
  }

  lemma {:induction false} GrantCoheres(c: Crypto, v: Value)
    requires ValidCore(c, Grant, v)
    ensures var most, ceiling := Raw(v, MaxUnresolvedExposure), Raw(v, Ceiling);
            AllDigits(most) && AllDigits(ceiling) && Number(most) <= Number(ceiling)
    ensures Num(v, WindowStart) < Num(v, WindowEnd) && Num(v, ValidFrom) < Num(v, ValidTo)
  {
    hide Field, Num, Raw, Shaped, DecimalAtMost, Ascii, Number;
    DecimalAtMostIsNumeric(Raw(v, MaxUnresolvedExposure), Raw(v, Ceiling));
  }

  lemma {:induction false} ReservationCoheres(c: Crypto, v: Value)
    requires ValidCore(c, AsaCore, v)
    ensures Field(v, ReservationState) == Text(Ascii("ISSUED_HELD"))
  {
    hide Field, Num, Shaped, Ascii;
  }

  lemma {:induction false} SuccessorCoheres(c: Crypto, v: Value)
    requires ValidCore(c, Successor, v)
    ensures Num(v, SuccessorRevision) == 1 && Field(v, PredecessorBirthtag) != Field(v, SuccessorBirthtag)
  {
    hide Field, Num, Shaped;
  }

  lemma {:induction false} ReadDocsAreValid(c: Crypto, i: Input)
    requires Signed(c, i)
    ensures ValidCore(c, ChallengeCore, Chal(c, i)) && ValidCore(c, Grant, Root(c, i, LimitGrant)) && ValidCore(c, AsaCore, Doc(c, i, AsaField))
    ensures HasSuccessor(c, i) ==> ValidCore(c, Successor, Root(c, i, AgentSuccessor))
  {
    hide Carries, SignedParts, Names, States, ValidCore, Chal, Root, Doc, Field, Raw, Holder, Pres, HasSuccessor;
  }

  /** In a consumable run the challenger is the action's recipient, of the counterparty's organisation, which is the one
      granted; the reservation is issued and held; the exposure left unresolved is within the ceiling; and an agent
      that succeeds another is a different agent at its first revision. */
  lemma {:induction false} RecipientChallenges(c: Crypto, i: Input)
    requires Assured(c, i)
    ensures var action, grant := Action(c, i), Root(c, i, LimitGrant);
            && Field(Chal(c, i), Challenger) == Field(action, Recipient)
            && Field(grant, RecipientOrganisationRoot) == Field(Field(action, Recipient), OrganisationRoot)
            && Field(Field(action, Counterparty), OrganisationRoot) == Field(Field(action, Recipient), OrganisationRoot)
            && Field(Doc(c, i, AsaField), ReservationState) == Text(Ascii("ISSUED_HELD"))
            && AllDigits(Raw(grant, MaxUnresolvedExposure)) && AllDigits(Raw(grant, Ceiling))
            && Number(Raw(grant, MaxUnresolvedExposure)) <= Number(Raw(grant, Ceiling))
    ensures HasSuccessor(c, i) ==> && Num(Holder(c, i), Revision) == 1
                                   && Field(Root(c, i, AgentSuccessor), PredecessorBirthtag) != Field(Holder(c, i), Birthtag)
  {
    hide Assured, Challenged, RootsSigned, DelegatesSigned, AgentSigned, Asserted, Timely, OneTenant, OneDelegation, OneAgent, OneRegistration, Digested,
         OwnKey, Affordable, Answerable, Anchored, Shown, Chal, Root, Doc, Holder, Field, Raw, Number, Ascii, ValidCore, HasSuccessor, IsProposal,
         CoreHash, Pres;
    AssuredMeans(c, i);
    ReadDocsAreValid(c, i);
    ChallengeCoheres(c, Chal(c, i));
    GrantCoheres(c, Root(c, i, LimitGrant));
    ReservationCoheres(c, Doc(c, i, AsaField));
    if HasSuccessor(c, i) {
      SuccessorCoheres(c, Root(c, i, AgentSuccessor));
    }
  }

  /** What a run asks the replay store to consume is named by the reservation: its key, the digest of the one action it
      reserves, which the presentation names too, and this presentation. */
  lemma {:induction false} ContextNames(c: Crypto, i: Input)
    requires Assured(c, i)
    ensures var asa, context := Doc(c, i, AsaField), ContextOf(c, i);
            && context.key == (Raw(asa, Tenant), Raw(asa, OrganisationRoot), Raw(asa, AuthorityDelegationId), Raw(asa, AsaId))
            && context.actionKey == (Raw(asa, Tenant), Raw(asa, OrganisationRoot), Raw(Action(c, i), ActionId))
            && Field(asa, ActionDigest) == ByteString(context.actionDigest) == Field(Pres(c, i), ActionDigest)
            && context.presentationDigest == c.hash(i.presentation)
  {
    hide Assured, ChallengeHolds, RootsHold, SignaturesHold, PassportHolds, RegistrationHolds, IssuanceHolds, ConsumptionHolds, DigestsMatch,
         CheckpointHolds, StatesHold, GrantHolds, AsaHolds, FinishHolds, Field, Root, Doc, Pres, Action, ActionBytes, CoreDigest, CoreBytes,
         ChallengeCwt, InspectCwt, OneDelegation, OneRegistration, OneGrant, Agree, Holder, Picked, HolderProofCwt;
    StageFacts(c, i);
    AsaParts(c, i);
    OneAuthority(c, i);
    ReplayKeyIsReservation(c, i);
  }
}
