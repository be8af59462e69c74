/** What a consumable counterparty-assurance run means (verify-rs/src/b28.rs). */
module B28Results {
  import opened Bytes
  import opened CborWire
  import opened CborCanonical
  import opened CivilTime
  import opened Decimals
  import opened Documents
  import opened MerkleTree
  import opened MerkleProof
  import opened MerklePosition
  import opened B28

  // ----- amounts and times

  lemma {:induction false} CanonicalIsPlain(v: Bytes)
    requires CanonicalDecimal(v)
    ensures Plain(v)
  {
  }

  /** The canonical amounts are exactly the decimal spellings of the natural numbers below 10^78. */
  lemma {:induction false} AmountsAreNumbers(v: Bytes)
    ensures CanonicalDecimal(v) <==> AllDigits(v) && v == Print(Number(v)) && |v| <= 78
  {
    hide Number;
    if CanonicalDecimal(v) {
      CanonicalIsPlain(v);
      var p := Print(Number(v));
      PrintSpells(Number(v));
      LengthThenBytesIsNumeric(v, p);
    }
  }

  /** The text comparison is numeric comparison of the amounts, and refuses anything non-canonical. */
  lemma {:induction false} DecimalAtMostIsNumeric(left: Bytes, right: Bytes)
    ensures DecimalAtMost(left, right) <==>
            CanonicalDecimal(left) && CanonicalDecimal(right) && AllDigits(left) && AllDigits(right) && Number(left) <= Number(right)
  {
    hide Number;
    if CanonicalDecimal(left) && CanonicalDecimal(right) {
      CanonicalIsPlain(left);
      CanonicalIsPlain(right);
      LengthThenBytesIsNumeric(left, right);
    }
  }

  /** In a consumable run the amount is within the granted ceiling as a number. */
  lemma {:induction false} AmountWithinCeiling(c: Crypto, i: Input)
    requires Assured(c, i)
    ensures var amount, ceiling := Raw(Action(c, i), ValueField), Raw(Root(c, i, LimitGrant), Ceiling);
            && AllDigits(amount) && AllDigits(ceiling) && Number(amount) <= Number(ceiling)
  {
    hide Number, DecimalAtMost, Field, Raw, Assured, ChallengeHolds, PresentationBinds, RootsHold, SignaturesHold, PassportHolds, RegistrationHolds,
         IssuanceHolds, ConsumptionHolds, DigestsMatch, CheckpointHolds, StatesHold, AsaHolds, FinishHolds, Action, Root, NamedDigest, Agree, SameTenant;
    StageFacts(c, i);
    DecimalAtMostIsNumeric(Raw(Action(c, i), ValueField), Raw(Root(c, i, LimitGrant), Ceiling));
  }

  /** The times of a consumable run are nested: challenge issued, presentation created, now, expiry, with the
      lifetime within local policy; the presentation is made after the reservation and the checkpoint. */
  lemma {:induction false} TimesAreNested(c: Crypto, i: Input)
    requires Assured(c, i)
    ensures var issued, created, expires := Num(Chal(c, i), IssuedAt), Num(Pres(c, i), CreatedAt), Num(Action(c, i), ExpiresAt);
            && issued <= created <= i.now < expires && expires - issued <= i.maxLifetime
            && Num(Doc(c, i, AsaField), IssuedAt) <= created && Num(Doc(c, i, AsaField), ExpiresAt) == expires
            && Num(Root(c, i, AuthorityCheckpoint), IssuedAt) <= created
  {
    hide Field, Assured, PresentationBinds, RootsHold, SignaturesHold, PassportHolds, RegistrationHolds, IssuanceHolds, ConsumptionHolds, DigestsMatch,
         CheckpointHolds, StatesHold, GrantHolds, AsaHolds, Chal, Pres, Action, Doc, Root, Canonical, TranscriptValue, Evaluable, Ascii,
         ChallengeCwt, CoreDigest, ActionBytes, CoreBytes, Raw, SameTenant;
    StageFacts(c, i);
    AsaParts(c, i);
    assert ExpiresAt in ACTION_ASA;
  }

  // ----- one authority

  /** The document names the delegation's tenant and organisation. */
  ghost predicate Belongs(v: Value, delegation: Value) {
    Field(v, Tenant) == Field(delegation, Tenant) && Field(v, OrganisationRoot) == Field(delegation, OrganisationRoot)
  }

  /** The documents of a run, other than the proof of possession, that name a tenant. */
  ghost predicate OneTenant(c: Crypto, i: Input) {
    var delegation := Root(c, i, RootDelegation);
    && (forall n | IsRoot(c, i, n) :: Belongs(Root(c, i, n), delegation))
    && Belongs(Holder(c, i), delegation) && Belongs(Doc(c, i, StatusSnapshot), delegation) && Belongs(Doc(c, i, AsaField), delegation)
    && Field(Picked(c, i), Tenant) == Field(delegation, Tenant)
  }

  ghost predicate OneDelegation(c: Crypto, i: Input) {
    var id := Field(Root(c, i, RootDelegation), DelegationId);
    && Field(Holder(c, i), AuthorityDelegationId) == id == Field(Doc(c, i, StatusSnapshot), AuthorityDelegationId)
    && Field(Doc(c, i, AsaField), AuthorityDelegationId) == id == Field(Root(c, i, LimitGrant), AuthorityDelegationId)
  }

  /** The actor, the passport, its holder proof and the proof of possession name one agent and one key. */
  ghost predicate OneAgent(c: Crypto, i: Input) {
    var actor, names := Field(Action(c, i), Actor), [Birthtag, Revision, AgentKid];
    && Agree(Holder(c, i), actor, names) && Agree(Doc(c, i, AgentPop), actor, names)
    && Core(HolderProofCwt(c, i)) == Holder(c, i)
    && Field(Root(c, i, LimitGrant), ActorBirthtag) == Field(actor, Birthtag)
    && Field(actor, OrganisationRoot) == Field(Root(c, i, RootDelegation), OrganisationRoot)
  }

  ghost predicate OneGrant(c: Crypto, i: Input) {
    var grant, asa, action := Root(c, i, LimitGrant), Doc(c, i, AsaField), Action(c, i);
    && Agree(grant, action, [GrantId, GrantVersion, Operation, Unit]) && Agree(asa, action, [GrantId, GrantVersion, AsaId, ExpiresAt])
    && Field(grant, RecipientOrganisationRoot) == Field(Field(action, Recipient), OrganisationRoot)
  }

  /** Template, registrar binding, selection, challenge, consumption, proof of possession and passport are one
      registration. */
  ghost predicate OneRegistration(c: Crypto, i: Input) {
    var credential, selection, admin, challenge := Holder(c, i), Picked(c, i), Root(c, i, AdminBinding), Root(c, i, AdminChallenge);
    && Agree(credential, Root(c, i, RegistrationTemplate), [TemplateId, TemplateVersion, Owner, Purpose, MandateDigest, ConfigDigest])
    && Agree(selection, credential, [TemplateId, TemplateVersion]) && Agree(challenge, credential, [TemplateId, TemplateVersion])
    && Field(admin, BindingId) == Field(selection, BindingId) == Field(credential, PrincipalBindingId)
    && Field(challenge, BindingId) == Field(Root(c, i, AdminConsumption), BindingId) == Field(admin, BindingId)
    && Field(selection, ChallengeId) == Field(challenge, ChallengeId) == Field(Root(c, i, AdminConsumption), ChallengeId)
    && Field(selection, ChallengeField) == Field(challenge, ChallengeField) == Field(Doc(c, i, AgentPop), ChallengeField)
    && Field(selection, CredentialId) == Field(admin, CredentialId)
    && Field(selection, ProposedAgentDigest) == Field(challenge, ProposedAgentDigest) == Field(Doc(c, i, AgentPop), ProposedAgentDigest)
  }

  lemma {:induction false} RootParts(c: Crypto, i: Input)
    requires RootsHold(c, i)
    ensures forall n | IsRoot(c, i, n) :: SameTenant(Root(c, i, n), Root(c, i, RootDelegation))
    ensures Field(Field(Action(c, i), Actor), OrganisationRoot) == Field(Root(c, i, RootDelegation), OrganisationRoot)
  {
    hide Field, SameTenant, IsRoot, Root, RootDoc, Action, Within;
  }

  lemma {:induction false} PassportParts(c: Crypto, i: Input)
    requires PassportHolds(c, i)
    ensures SameTenant(Holder(c, i), Root(c, i, RootDelegation))
    ensures Field(Holder(c, i), AuthorityDelegationId) == Field(Root(c, i, RootDelegation), DelegationId)
    ensures Agree(Holder(c, i), Field(Action(c, i), Actor), ACTOR_FIELDS) && Agree(Holder(c, i), Root(c, i, RegistrationTemplate), TEMPLATE_FIELDS)
  {
    hide Field, Root, Holder, Action, Within, Agree, SuccessorMatches, SuccessorCwt;
    assert BINDING_PAIRS[0] in BINDING_PAIRS && BINDING_PAIRS[1] in BINDING_PAIRS && BINDING_PAIRS[2] in BINDING_PAIRS;
  }

  lemma {:induction false} SelectionParts(c: Crypto, i: Input)
    requires RegistrationHolds(c, i)
    ensures Field(Picked(c, i), Tenant) == Field(Root(c, i, AdminBinding), Tenant)
    ensures Field(Picked(c, i), CredentialId) == Field(Root(c, i, AdminBinding), CredentialId)
  {
    hide Field, Root, Holder, Picked, Within, Num, IssuanceHolds, DigestsMatch, ConsumptionHolds, AdminFlags, SignedCounter, Raw, Ascii;
    assert Tenant in [Tenant, BindingId, CredentialId] && CredentialId in [Tenant, BindingId, CredentialId];
  }

  lemma {:induction false} IssuanceParts(c: Crypto, i: Input)
    requires IssuanceHolds(c, i)
    ensures Agree(Doc(c, i, AgentPop), Holder(c, i), ACTOR_FIELDS)
    ensures Agree(Picked(c, i), Root(c, i, RegistrationTemplate), [TemplateId, TemplateVersion])
    ensures Field(Picked(c, i), BindingId) == Field(Root(c, i, AdminBinding), BindingId) == Field(Holder(c, i), PrincipalBindingId)
    ensures Agree(Picked(c, i), Root(c, i, AdminChallenge), [ChallengeId, ChallengeField, BindingId, TemplateId, TemplateVersion, ProposedAgentDigest])
    ensures Field(Doc(c, i, AgentPop), ChallengeField) == Field(Picked(c, i), ChallengeField)
    ensures Field(Doc(c, i, AgentPop), ProposedAgentDigest) == Field(Picked(c, i), ProposedAgentDigest)
  {
    hide Field, Root, Holder, Picked, Doc, Within, Num, Agree, NamedDigest, SameTenant, SelectionOf;
  }

  lemma {:induction false} ConsumptionParts(c: Crypto, i: Input)
    requires ConsumptionHolds(c, i)
    ensures Field(Root(c, i, AdminConsumption), BindingId) == Field(Root(c, i, AdminBinding), BindingId)
    ensures Field(Root(c, i, AdminConsumption), ChallengeId) == Field(Root(c, i, AdminChallenge), ChallengeId)
  {
    hide Field, Root, Picked, Num, SameTenant, CoreDigest, CoreBytes, RootDoc, SelectionRaw, PassportCwt;
  }

  lemma {:induction false} SnapshotParts(c: Crypto, i: Input)
    requires CheckpointHolds(c, i)
    ensures SameTenant(Doc(c, i, StatusSnapshot), Root(c, i, AuthorityCheckpoint))
    ensures Field(Doc(c, i, StatusSnapshot), AuthorityDelegationId) == Field(Root(c, i, RootDelegation), DelegationId)
  {
    hide Field, Root, Doc, Num, SameTenant, CheckpointId, PlaceOf, HeadOf, IssuedUnderAncestor, ProofsBytes, Ascii, Chal;
  }

  lemma {:induction false} GrantParts(c: Crypto, i: Input)
    requires GrantHolds(c, i)
    ensures Field(Root(c, i, LimitGrant), AuthorityDelegationId) == Field(Root(c, i, RootDelegation), DelegationId)
    ensures Field(Root(c, i, LimitGrant), ActorBirthtag) == Field(Field(Action(c, i), Actor), Birthtag)
    ensures Agree(Root(c, i, LimitGrant), Action(c, i), ACTION_GRANT)
    ensures Field(Root(c, i, LimitGrant), RecipientOrganisationRoot) == Field(Field(Action(c, i), Recipient), OrganisationRoot)
  {
    hide Field, Root, Action, Num, SameTenant, NamedDigest, Agree, DecimalAtMost, Within, Raw;
  }

  lemma {:induction false} AsaParts(c: Crypto, i: Input)
    requires AsaHolds(c, i)
    ensures SameTenant(Doc(c, i, AsaField), Root(c, i, RootDelegation))
    ensures Field(Doc(c, i, AsaField), AuthorityDelegationId) == Field(Root(c, i, RootDelegation), DelegationId)
    ensures Agree(Doc(c, i, AsaField), Action(c, i), ACTION_ASA)
    ensures Field(Doc(c, i, AsaField), ActionDigest) == ByteString(CoreDigest(c, ActionBytes(c, i)))
    ensures Field(Doc(c, i, AsaField), ChallengeDigest) == ByteString(CoreDigest(c, CoreBytes(ChallengeCwt(c, i))))
  {
    hide Field, Root, Action, Doc, SameTenant, Agree, Within, CoreDigest, ActionBytes, CoreBytes, ChallengeCwt;
  }

  lemma {:induction false} HolderParts(c: Crypto, i: Input)
    requires SignaturesHold(c, i)
    ensures Core(HolderProofCwt(c, i)) == Holder(c, i)
  {
    hide Field, Holder, HolderProofCwt, PassportCwt, AllSigned, SignedCwt, AgentKeys;
  }

  lemma {:induction false} StageFacts(c: Crypto, i: Input)
    requires Assured(c, i)
    ensures ChallengeHolds(c, i) && PresentationBinds(c, i) && RootsHold(c, i) && SignaturesHold(c, i) && PassportHolds(c, i)
    ensures RegistrationHolds(c, i) && IssuanceHolds(c, i) && ConsumptionHolds(c, i) && DigestsMatch(c, i)
    ensures CheckpointHolds(c, i) && StatesHold(c, i, Raw(Root(c, i, AuthorityCheckpoint), AuthorityRoot))
    ensures GrantHolds(c, i) && AsaHolds(c, i) && FinishHolds(c, i)
  {
    hide ChallengeHolds, PresentationBinds, RootsHold, SignaturesHold, PassportHolds, IssuanceHolds, ConsumptionHolds, DigestsMatch,
         CheckpointHolds, StatesHold, GrantHolds, AsaHolds, FinishHolds, VerifyAdmin, Root, Raw, Picked;
  }

  lemma {:induction false} AgreeOn(v: Value, w: Value, names: seq<Name>, some: seq<Name>)
    requires Agree(v, w, names) && forall n | n in some :: n in names
    ensures Agree(v, w, some) && Agree(w, v, some)
  {
    hide Field;
  }

  lemma {:induction false} AgreeThrough(v: Value, w: Value, x: Value, names: seq<Name>)
    requires Agree(v, w, names) && Agree(w, x, names)
    ensures Agree(v, x, names)
  {
    hide Field;
  }

  /** Every document of a consumable run is about one tenant, delegation, agent, grant and registration; the
      one document whose tenant no stage compares is the proof of possession. */
  lemma {:induction false} OneAuthority(c: Crypto, i: Input)
    requires Assured(c, i)
    ensures OneTenant(c, i) && OneDelegation(c, i) && OneAgent(c, i) && OneGrant(c, i) && OneRegistration(c, i)
  {
    hide Assured, ChallengeHolds, PresentationBinds, RootsHold, SignaturesHold, PassportHolds, RegistrationHolds, IssuanceHolds, ConsumptionHolds,
         DigestsMatch, CheckpointHolds, StatesHold, GrantHolds, AsaHolds, FinishHolds, Agree, Field, Root, Doc, Holder, Picked, Action,
         HolderProofCwt, CoreDigest, ActionBytes, CoreBytes, ChallengeCwt, HasSuccessor, Raw;
    StageFacts(c, i);
    RootParts(c, i);
    PassportParts(c, i);
    SelectionParts(c, i);
    IssuanceParts(c, i);
    ConsumptionParts(c, i);
    SnapshotParts(c, i);
    GrantParts(c, i);
    AsaParts(c, i);
    HolderParts(c, i);
    assert IsRoot(c, i, AuthorityCheckpoint) && IsRoot(c, i, AdminBinding);
    AgreeThrough(Doc(c, i, AgentPop), Holder(c, i), Field(Action(c, i), Actor), ACTOR_FIELDS);
    AgreeOn(Root(c, i, LimitGrant), Action(c, i), ACTION_GRANT, [GrantId, GrantVersion, Operation, Unit]);
    AgreeOn(Doc(c, i, AsaField), Action(c, i), ACTION_ASA, [GrantId, GrantVersion, AsaId, ExpiresAt]);
    RegistrationParts(c, i);
  }

  lemma {:induction false} RegistrationParts(c: Crypto, i: Input)
    requires PassportHolds(c, i) && RegistrationHolds(c, i) && IssuanceHolds(c, i) && ConsumptionHolds(c, i)
    ensures OneRegistration(c, i)
  {
    hide PassportHolds, RegistrationHolds, IssuanceHolds, ConsumptionHolds, Field, Root, Doc, Holder, Picked, Action;
    PassportParts(c, i);
    SelectionParts(c, i);
    IssuanceParts(c, i);
    ConsumptionParts(c, i);
    var names := [ChallengeId, ChallengeField, BindingId, TemplateId, TemplateVersion, ProposedAgentDigest];
    assert ChallengeId in names && BindingId in names && TemplateId in names && TemplateVersion in names;
    assert ChallengeField in names && ProposedAgentDigest in names;
    assert TemplateId in TEMPLATE_FIELDS && TemplateVersion in TEMPLATE_FIELDS;
    assert TemplateId in [TemplateId, TemplateVersion] && TemplateVersion in [TemplateId, TemplateVersion];
  }

  /** No stage compares the tenant of the proof of possession: two that agree on the five members compared,
      whatever their tenants, pass or fail issuance alike. */
  lemma {:induction false} PopTenantIsFree(c: Crypto, credential: Value, template: Value, admin: Value, challenge: Value, pop: Value,
                                           other: Value, selection: Value)
    requires Field(other, ProposedAgentDigest) == Field(pop, ProposedAgentDigest) && Field(other, ChallengeField) == Field(pop, ChallengeField)
    requires Agree(other, pop, ACTOR_FIELDS)
    ensures IssuanceOk(c, credential, template, admin, challenge, other, selection)
         == IssuanceOk(c, credential, template, admin, challenge, pop, selection)
  {
    hide Field, NamedDigest, Within, SameTenant, Num, Agree, Ascii;
    ActorFieldsDecide(credential, pop, other);
  }

  lemma {:induction false} ActorFieldsDecide(credential: Value, pop: Value, other: Value)
    requires Agree(other, pop, ACTOR_FIELDS)
    ensures Agree(other, credential, ACTOR_FIELDS) == Agree(pop, credential, ACTOR_FIELDS)
  {
    hide Field;
  }

  /** So all documents, the proof of possession included, name one tenant exactly when that one does. */
  lemma {:induction false} OneTenantForAllIff(c: Crypto, i: Input)
    requires Assured(c, i)
    ensures OneTenant(c, i) && Field(Doc(c, i, AgentPop), Tenant) == Field(Root(c, i, RootDelegation), Tenant)
        <==> Field(Doc(c, i, AgentPop), Tenant) == Field(Holder(c, i), Tenant)
  {
    hide Field, Assured, Doc, Root, Holder, Picked, IsRoot, OneDelegation, OneAgent, OneGrant, OneRegistration;
    OneAuthority(c, i);
  }

  // ----- what a digest binds

  /** The two strings, if they differ and hash alike. */
  function Differ(h: Hash, a: Bytes, b: Bytes): (r: Option<(Bytes, Bytes)>)
    ensures r.Some? ==> IsCollision(h, r.value)
    ensures r.None? && h(a) == h(b) ==> a == b
  {
    Pick(h, a, b, None)
  }

  function Either(a: Option<(Bytes, Bytes)>, b: Option<(Bytes, Bytes)>): (r: Option<(Bytes, Bytes)>)
    ensures r == a || r == b
    ensures r.None? <==> a.None? && b.None?
  {
    if a.Some? then a else b
  }

  lemma {:induction false} SuffixEqual(domain: Bytes, a: Bytes, b: Bytes)
    requires domain + a == domain + b
    ensures a == b
  {
    assert (domain + a)[|domain|..] == a && (domain + b)[|domain|..] == b;
  }

  function CoreCollision(c: Crypto, a: Bytes, b: Bytes): (r: Option<(Bytes, Bytes)>)
    ensures r.Some? ==> IsCollision(c.hash, r.value)
  {
    Differ(c.hash, CORE_DOMAIN + a, CORE_DOMAIN + b)
  }

  lemma {:induction false} CoreDigestBinds(c: Crypto, a: Bytes, b: Bytes)
    requires CoreDigest(c, a) == CoreDigest(c, b) && CoreCollision(c, a, b).None?
    ensures a == b
  {
    hide Ascii;
    SuffixEqual(CORE_DOMAIN, a, b);
  }

  function NamedCollision(c: Crypto, v: Value, w: Value, names: seq<Name>, domain: Bytes): (r: Option<(Bytes, Bytes)>)
    ensures r.Some? ==> IsCollision(c.hash, r.value)
  {
    var a, b := Canonical(Selected(v, names)), Canonical(Selected(w, names));
    if a.Some? && b.Some? then Differ(c.hash, domain + a.value, domain + b.value) else None
  }

  /** One digest over named members fixes each of those members. */
  lemma {:induction false} NamedDigestBinds(c: Crypto, v: Value, w: Value, names: seq<Name>, domain: Bytes)
    requires NamedDigest(c, v, names, domain).Some? && NamedDigest(c, v, names, domain) == NamedDigest(c, w, names, domain)
    ensures NamedCollision(c, v, w, names, domain).Some? || forall n | n in names :: Same(Field(v, n), Field(w, n))
  {
    hide Canonical, Field, Selected, Norm;
    if NamedCollision(c, v, w, names, domain).None? {
      SuffixEqual(domain, Canonical(Selected(v, names)).value, Canonical(Selected(w, names)).value);
      BytesDetermine(Selected(v, names), Selected(w, names));
      forall n | n in names ensures Same(Field(v, n), Field(w, n)) {
        var k :| 0 <= k < |names| && names[k] == n;
        SelectedField(v, names, k);
        SelectedField(w, names, k);
        SameFields(Selected(v, names), Selected(w, names), n);
      }
    }
  }

  // ----- one reservation, one action

  lemma {:induction false} ChallengeEncodes(c: Crypto, i: Input)
    requires ChallengeHolds(c, i)
    ensures Canonical(Chal(c, i)) == Some(CoreBytes(ChallengeCwt(c, i))) && Canonical(Action(c, i)) == Some(ActionBytes(c, i))
  {
    hide Field, Canonical, ValidCore, HeaderKid, ClaimedCore, SignatureValid, Num, IsEnvelope, Decode;
    FieldEncodes(Chal(c, i), ActionField);
  }

  /** Compares the actions and then the challenges of two runs. */
  function ActionCollision(c: Crypto, i: Input, j: Input): (r: Option<(Bytes, Bytes)>)
    ensures r.Some? ==> IsCollision(c.hash, r.value)
  {
    Either(CoreCollision(c, ActionBytes(c, i), ActionBytes(c, j)),
           CoreCollision(c, CoreBytes(ChallengeCwt(c, i)), CoreBytes(ChallengeCwt(c, j))))
  }

  /** Equal digests in two runs are of one action and one challenge. */
  lemma {:induction false} ActionsBound(c: Crypto, i: Input, j: Input)
    requires ChallengeHolds(c, i) && ChallengeHolds(c, j) && ActionCollision(c, i, j).None?
    requires CoreDigest(c, ActionBytes(c, i)) == CoreDigest(c, ActionBytes(c, j))
    requires CoreDigest(c, CoreBytes(ChallengeCwt(c, i))) == CoreDigest(c, CoreBytes(ChallengeCwt(c, j)))
    ensures ActionBytes(c, i) == ActionBytes(c, j) && CoreBytes(ChallengeCwt(c, i)) == CoreBytes(ChallengeCwt(c, j))
    ensures Same(Action(c, i), Action(c, j)) && Same(Chal(c, i), Chal(c, j))
  {
    hide ChallengeHolds, CoreDigest, CoreCollision, ActionBytes, ChallengeCwt, Chal, Action, Canonical, Same;
    CoreDigestBinds(c, ActionBytes(c, i), ActionBytes(c, j));
    CoreDigestBinds(c, CoreBytes(ChallengeCwt(c, i)), CoreBytes(ChallengeCwt(c, j)));
    ChallengeEncodes(c, i);
    ChallengeEncodes(c, j);
    BytesDetermine(Action(c, i), Action(c, j));
    BytesDetermine(Chal(c, i), Chal(c, j));
  }

  /** Two consumable runs that present one reservation are for one action under one challenge, down to the
      bytes, and ask the replay store for one key; or a collision is exhibited. */
  lemma {:induction false} OneReservationOneAction(c: Crypto, i: Input, j: Input)
    requires Assured(c, i) && Assured(c, j) && Same(Doc(c, i, AsaField), Doc(c, j, AsaField))
    ensures || ActionCollision(c, i, j).Some?
            || (&& ActionBytes(c, i) == ActionBytes(c, j) && CoreBytes(ChallengeCwt(c, i)) == CoreBytes(ChallengeCwt(c, j))
                && Same(Action(c, i), Action(c, j)) && Same(Chal(c, i), Chal(c, j)))
    ensures ContextOf(c, i).key == ContextOf(c, j).key
  {
    hide Assured, ChallengeHolds, PresentationBinds, RootsHold, SignaturesHold, PassportHolds, RegistrationHolds, CheckpointHolds, StatesHold,
         GrantHolds, AsaHolds, FinishHolds, IssuanceHolds, ConsumptionHolds, DigestsMatch, CoreDigest, ActionBytes, CoreBytes, ChallengeCwt,
         Chal, Action, Doc, Root, Same, Raw, Field, ContextOf, ActionCollision, SameTenant, Agree;
    StageFacts(c, i);
    StageFacts(c, j);
    AsaParts(c, i);
    AsaParts(c, j);
    SameFields(Doc(c, i, AsaField), Doc(c, j, AsaField), ActionDigest);
    SameFields(Doc(c, i, AsaField), Doc(c, j, AsaField), ChallengeDigest);
    if ActionCollision(c, i, j).None? {
      ActionsBound(c, i, j);
    }
    ReplayKeyIsReservation(c, i);
    ReplayKeyIsReservation(c, j);
    SameFields(Doc(c, i, AsaField), Doc(c, j, AsaField), Tenant);
    SameFields(Doc(c, i, AsaField), Doc(c, j, AsaField), OrganisationRoot);
    SameFields(Doc(c, i, AsaField), Doc(c, j, AsaField), AuthorityDelegationId);
    SameFields(Doc(c, i, AsaField), Doc(c, j, AsaField), AsaId);
  }

  /** The key a run asks the replay store to consume is the reservation's own: tenant, organisation,
      delegation and reservation id. */
  lemma {:induction false} ReplayKeyIsReservation(c: Crypto, i: Input)
    requires AsaHolds(c, i)
    ensures var asa := Doc(c, i, AsaField);
            ContextOf(c, i).key == (Raw(asa, Tenant), Raw(asa, OrganisationRoot), Raw(asa, AuthorityDelegationId), Raw(asa, AsaId))
  {
    hide AsaHolds, Field, Doc, Root, Action, ActionBytes, CoreDigest, ChallengeCwt, CoreBytes;
    AsaParts(c, i);
    assert AsaId in ACTION_ASA;
  }

  // ----- the transcript

  lemma {:induction false} LookupAt(entries: seq<Entry>, k: nat)
    requires k < |entries| && forall a | 0 <= a < k :: entries[a].key != entries[k].key
    ensures Lookup(entries, entries[k].key) == Some(entries[k].value)
    decreases k
  {
    if k > 0 {
      assert entries[1..][k - 1] == entries[k];
      LookupAt(entries[1..], k - 1);
    }
  }

  lemma {:induction false} TranscriptFields(c: Crypto, i: Input)
    requires Canonical(TranscriptValue(c, i)).Some?
    ensures var t := TranscriptValue(c, i);
            && Field(t, ChallengeEnvelopeHash) == ByteString(c.hash(i.challenge))
            && Field(t, ChallengeDigest) == ByteString(CoreDigest(c, CoreBytes(ChallengeCwt(c, i))))
            && Field(t, ActionDigest) == ByteString(CoreDigest(c, ActionBytes(c, i)))
            && Field(t, AsaEnvelopeHash) == ByteString(c.hash(Raw(Pres(c, i), AsaField)))
            && Field(t, AsaDigest) == ByteString(CoreDigest(c, CoreBytes(SignedDoc(c, i, AsaField))))
  {
    hide Spell, CoreDigest, ActionBytes, CoreBytes, ChallengeCwt, SignedDoc, Raw, Pres, Ascii, Lookup, Encode;
    var entries := TranscriptValue(c, i).entries;
    forall a, b | 0 <= a < b < |entries| ensures entries[a].key != entries[b].key {
      EncodedKeysDistinct(entries, MAX_DEPTH, CWT_PROFILE, a, b);
    }
    LookupAt(entries, 1);
    LookupAt(entries, 2);
    LookupAt(entries, 3);
    LookupAt(entries, 4);
    LookupAt(entries, 5);
  }

  function WholeCollision(c: Crypto, s: Value, t: Value): (r: Option<(Bytes, Bytes)>)
    ensures r.Some? ==> IsCollision(c.hash, r.value)
  {
    var a, b := Canonical(s), Canonical(t);
    if a.Some? && b.Some? then Differ(c.hash, TRANSCRIPT_DOMAIN + a.value, TRANSCRIPT_DOMAIN + b.value) else None
  }

  function ReservationCollision(c: Crypto, i: Input, j: Input): (r: Option<(Bytes, Bytes)>)
    ensures r.Some? ==> IsCollision(c.hash, r.value)
  {
    Either(Differ(c.hash, Raw(Pres(c, i), AsaField), Raw(Pres(c, j), AsaField)),
           CoreCollision(c, CoreBytes(SignedDoc(c, i, AsaField)), CoreBytes(SignedDoc(c, j, AsaField))))
  }

  function EnvelopeCollision(c: Crypto, i: Input, j: Input): (r: Option<(Bytes, Bytes)>)
    ensures r.Some? ==> IsCollision(c.hash, r.value)
  {
    hide TranscriptValue;
    Either(WholeCollision(c, TranscriptValue(c, i), TranscriptValue(c, j)), Differ(c.hash, i.challenge, j.challenge))
  }

  /** Compares the transcripts and then the five strings they name by hash. */
  function TranscriptCollision(c: Crypto, i: Input, j: Input): (r: Option<(Bytes, Bytes)>)
    ensures r.Some? ==> IsCollision(c.hash, r.value)
  {
    Either(EnvelopeCollision(c, i, j), Either(ActionCollision(c, i, j), ReservationCollision(c, i, j)))
  }

  lemma {:induction false} TranscriptsSame(c: Crypto, i: Input, j: Input)
    requires TranscriptHolds(c, i) && TranscriptHolds(c, j) && Field(Pres(c, i), TranscriptDigest) == Field(Pres(c, j), TranscriptDigest)
    requires TranscriptCollision(c, i, j).None?
    ensures Same(TranscriptValue(c, i), TranscriptValue(c, j))
  {
    hide Field, Pres, Chal, Action, Doc, Root, Num, Canonical, TranscriptValue, Same, Evaluable, ActionCollision, CoreCollision, Raw, SignedDoc,
         CoreBytes, Ascii;
    SuffixEqual(TRANSCRIPT_DOMAIN, Canonical(TranscriptValue(c, i)).value, Canonical(TranscriptValue(c, j)).value);
    BytesDetermine(TranscriptValue(c, i), TranscriptValue(c, j));
  }

  lemma {:induction false} TranscriptEncodes(c: Crypto, i: Input)
    requires TranscriptHolds(c, i)
    ensures Canonical(TranscriptValue(c, i)).Some?
  {
    hide Field, Pres, Chal, Action, Doc, Root, Num, Canonical, TranscriptValue, Evaluable, Ascii;
  }

  /** Two consumable runs with one transcript digest carry the same challenge envelope, byte for byte, the
      same reservation envelope and core, and the same action; or a collision is exhibited. */
  lemma {:induction false} TranscriptFixesExchange(c: Crypto, i: Input, j: Input)
    requires Assured(c, i) && Assured(c, j) && Field(Pres(c, i), TranscriptDigest) == Field(Pres(c, j), TranscriptDigest)
    ensures || TranscriptCollision(c, i, j).Some?
            || (&& i.challenge == j.challenge && Raw(Pres(c, i), AsaField) == Raw(Pres(c, j), AsaField)
                && ActionBytes(c, i) == ActionBytes(c, j) && Same(Action(c, i), Action(c, j)) && Same(Chal(c, i), Chal(c, j))
                && CoreBytes(SignedDoc(c, i, AsaField)) == CoreBytes(SignedDoc(c, j, AsaField)))
  {
    hide TranscriptHolds, Assured, ChallengeHolds, PresentationBinds, RootsHold, SignaturesHold, PassportHolds, RegistrationHolds, CheckpointHolds, StatesHold,
         GrantHolds, AsaHolds, FinishHolds, IssuanceHolds, ConsumptionHolds, DigestsMatch, CoreDigest, ActionBytes, CoreBytes, ChallengeCwt,
         Chal, Action, Doc, Root, Same, Raw, Field, Pres, SignedDoc, TranscriptValue, ActionCollision, CoreCollision, Differ, Canonical, Ascii;
    if TranscriptCollision(c, i, j).None? {
      StageFacts(c, i);
      StageFacts(c, j);
      FinishTranscript(c, i);
      FinishTranscript(c, j);
      TranscriptsSame(c, i, j);
      TranscriptEncodes(c, i);
      TranscriptEncodes(c, j);
      TranscriptFields(c, i);
      TranscriptFields(c, j);
      var s, t := TranscriptValue(c, i), TranscriptValue(c, j);
      SameFields(s, t, ChallengeEnvelopeHash);
      SameFields(s, t, ChallengeDigest);
      SameFields(s, t, ActionDigest);
      SameFields(s, t, AsaEnvelopeHash);
      SameFields(s, t, AsaDigest);
      ActionsBound(c, i, j);
      CoreDigestBinds(c, CoreBytes(SignedDoc(c, i, AsaField)), CoreBytes(SignedDoc(c, j, AsaField)));
    }
  }

  // ----- the registrar's choice and the grant's scope

  lemma {:induction false} ProposalParts(c: Crypto, i: Input)
    requires IssuanceHolds(c, i)
    ensures var proposal := NamedDigest(c, Holder(c, i), PROPOSAL_FIELDS, PROPOSAL_DOMAIN);
            && proposal.Some? && Field(Picked(c, i), ProposedAgentDigest) == ByteString(proposal.value)
            && Field(Doc(c, i, AgentPop), ProposedAgentDigest) == ByteString(proposal.value)
  {
    hide Field, Root, Holder, Picked, Doc, Within, Num, Agree, NamedDigest, SameTenant, SelectionOf, Ascii;
  }

  /** A registrar's selection approves one agent: two consumable runs whose selections name one proposal
      carry passports that agree on all twelve proposal members, or a collision is exhibited. */
  lemma {:induction false} SelectionFixesProposal(c: Crypto, i: Input, j: Input)
    requires Assured(c, i) && Assured(c, j) && Field(Picked(c, i), ProposedAgentDigest) == Field(Picked(c, j), ProposedAgentDigest)
    ensures || NamedCollision(c, Holder(c, i), Holder(c, j), PROPOSAL_FIELDS, PROPOSAL_DOMAIN).Some?
            || forall n | n in PROPOSAL_FIELDS :: Same(Field(Holder(c, i), n), Field(Holder(c, j), n))
  {
    hide Assured, IssuanceHolds, NamedDigest, NamedCollision, Field, Holder, Picked, Doc, Same, Ascii, ChallengeHolds, PresentationBinds, RootsHold,
         SignaturesHold, PassportHolds, RegistrationHolds, CheckpointHolds, StatesHold, GrantHolds, AsaHolds, FinishHolds, ConsumptionHolds,
         DigestsMatch, Raw, Root;
    StageFacts(c, i);
    StageFacts(c, j);
    ProposalParts(c, i);
    ProposalParts(c, j);
    NamedDigestBinds(c, Holder(c, i), Holder(c, j), PROPOSAL_FIELDS, PROPOSAL_DOMAIN);
  }

  lemma {:induction false} ScopeParts(c: Crypto, i: Input)
    requires GrantHolds(c, i)
    ensures var scope := NamedDigest(c, Action(c, i), SCOPE_FIELDS, SCOPE_DOMAIN);
            scope.Some? && Field(Root(c, i, LimitGrant), ActionScopeDigest) == ByteString(scope.value)
  {
    hide Field, Root, Action, Num, SameTenant, NamedDigest, Agree, DecimalAtMost, Within, Raw, Ascii;
  }

  /** One grant covers one scope: two consumable runs under it have actions that agree on actor, operation,
      parameters, unit, source, destination, counterparty, recipient and policy, or a collision is exhibited. */
  lemma {:induction false} GrantFixesScope(c: Crypto, i: Input, j: Input)
    requires Assured(c, i) && Assured(c, j) && Same(Root(c, i, LimitGrant), Root(c, j, LimitGrant))
    ensures || NamedCollision(c, Action(c, i), Action(c, j), SCOPE_FIELDS, SCOPE_DOMAIN).Some?
            || forall n | n in SCOPE_FIELDS :: Same(Field(Action(c, i), n), Field(Action(c, j), n))
  {
    hide Assured, IssuanceHolds, NamedDigest, NamedCollision, Field, Action, Root, Same, Ascii, ChallengeHolds, PresentationBinds, RootsHold,
         SignaturesHold, PassportHolds, RegistrationHolds, CheckpointHolds, StatesHold, GrantHolds, AsaHolds, FinishHolds, ConsumptionHolds,
         DigestsMatch, Raw;
    StageFacts(c, i);
    StageFacts(c, j);
    ScopeParts(c, i);
    ScopeParts(c, j);
    SameFields(Root(c, i, LimitGrant), Root(c, j, LimitGrant), ActionScopeDigest);
    NamedDigestBinds(c, Action(c, i), Action(c, j), SCOPE_FIELDS, SCOPE_DOMAIN);
  }

  // ----- authority state

  predicate AllEncode(table: seq<Value>) {
    forall k | 0 <= k < |table| :: Canonical(table[k]).Some?
  }

  function Leafs(table: seq<Value>): (r: seq<Bytes>)
    requires AllEncode(table)
    ensures |r| == |table| && forall k | 0 <= k < |r| :: Canonical(table[k]) == Some(r[k])
  {
    seq(|table|, k requires 0 <= k < |table| => Canonical(table[k]).value)
  }

  /** The record is for the claimed key and digest, in the claimed state and version. */
  ghost predicate RecordStates(record: Value, claim: Claim) {
    && Field(record, KeyField) == ByteString(claim.key) && Field(record, StateField) == Text(claim.state)
    && Field(record, ObjectDigest) == ByteString(claim.digest)
    && UintOf(Field(record, VersionField)).Some? && Num(record, VersionField) > 0
    && (claim.version.Some? ==> Num(record, VersionField) == claim.version.value)
  }

  function StateCollision(c: Crypto, proof: Value, table: seq<Value>): (r: Option<(Bytes, Bytes)>)
    requires AllEncode(table)
    ensures r.Some? ==> IsCollision(c.hash, r.value)
  {
    var path, leaf := Siblings(Field(proof, PathField)), Canonical(Field(proof, ValueField));
    var i, n := Num(proof, IndexField), Num(proof, TreeSize);
    if path.Some? && leaf.Some? && i < n && |path.value| == |Sides(i, n)| then LeafCollision(c.hash, leaf.value, i, n, path.value, Leafs(table)) else None
  }

  lemma {:induction false} SameRecords(record: Value, other: Value, claim: Claim)
    requires Same(record, other) && RecordStates(record, claim)
    ensures RecordStates(other, claim)
  {
    hide Field, Same;
    SameFields(record, other, KeyField);
    SameFields(record, other, StateField);
    SameFields(record, other, ObjectDigest);
    SameFields(record, other, VersionField);
  }

  lemma {:induction false} ProvenRecord(c: Crypto, proof: Value, root: Bytes, claim: Claim)
    requires StateAccepts(c, proof, root, claim)
    ensures RecordStates(Field(proof, ValueField), claim) && Num(proof, IndexField) < Num(proof, TreeSize)
    ensures Siblings(Field(proof, PathField)).Some? && Canonical(Field(proof, ValueField)).Some?
    ensures InclusionAccepts(c.hash, LeafHash(c.hash, Canonical(Field(proof, ValueField)).value), Num(proof, IndexField), Num(proof, TreeSize),
                             Siblings(Field(proof, PathField)).value, root)
  {
    hide Field, Canonical, Siblings, InclusionAccepts, IsDocument;
  }

  /** A state proof accepted under the root of a table of records is of a record in the table, in the claimed
      state, whatever tree size the proof states; or a collision is exhibited. */
  lemma {:induction false} ProvenStateIsTabled(c: Crypto, proof: Value, claim: Claim, table: seq<Value>)
    requires AllEncode(table) && StateAccepts(c, proof, TreeHash(c.hash, Leafs(table)), claim)
    ensures Num(proof, IndexField) < Num(proof, TreeSize)
    ensures || StateCollision(c, proof, table).Some?
            || (var at := Position(Num(proof, IndexField), Num(proof, TreeSize), |table|); at.Some? && RecordStates(table[at.value], claim))
  {
    hide StateAccepts, Field, Canonical, Siblings, RecordStates, Position, LeafCollision, TreeHash, Same, Num, ClaimedRoot, Sides, Path;
    ProvenRecord(c, proof, TreeHash(c.hash, Leafs(table)), claim);
    if StateCollision(c, proof, table).None? {
      var value := Field(proof, ValueField);
      var leaf, i, n := Canonical(value).value, Num(proof, IndexField), Num(proof, TreeSize);
      InclusionAtAnySize(c.hash, leaf, i, n, Siblings(Field(proof, PathField)).value, Leafs(table));
      var at := Position(i, n, |table|);
      BytesDetermine(value, table[at.value]);
      SameRecords(value, table[at.value], claim);
    }
  }

  /** Every authority object of a consumable run -- the thirteen, the successor link and the superseded
      predecessor when there is a succession, and the registrar's counter -- is a record of the table the
      pinned authority root commits to, in the state the run relies on; or a collision is exhibited. */
  lemma {:induction false} StatesAreTabled(c: Crypto, i: Input, table: seq<Value>, k: nat)
    requires Assured(c, i) && AllEncode(table) && k < |AllObjects(c, i)|
    requires i.heads[PlaceOf(Root(c, i, AuthorityCheckpoint))].authorityRoot == TreeHash(c.hash, Leafs(table))
    ensures var o := AllObjects(c, i)[k];
            StateCollision(c, ProofOf(c, i, o.name), table).Some? || exists record | record in table :: RecordStates(record, o.claim)
    ensures |Objects(c, i)| == 13 && |AllObjects(c, i)| == if HasSuccessor(c, i) then 16 else 14
  {
    hide Assured, ChallengeHolds, PresentationBinds, RootsHold, SignaturesHold, PassportHolds, RegistrationHolds, CheckpointHolds, GrantHolds,
         AsaHolds, FinishHolds, IssuanceHolds, ConsumptionHolds, DigestsMatch, Root, Raw, Field, StateAccepts, RecordStates, AllObjects, ProofOf,
         StateCollision, TreeHash, Position, Canonical, Num, PlaceOf, Objects, HasSuccessor;
    StageFacts(c, i);
    PinnedRoot(c, i);
    ObjectCounts(c, i);
    var o := AllObjects(c, i)[k];
    assert StateAccepts(c, ProofOf(c, i, o.name), TreeHash(c.hash, Leafs(table)), o.claim);
    ProvenStateIsTabled(c, ProofOf(c, i, o.name), o.claim, table);
  }

  lemma {:induction false} PinnedRoot(c: Crypto, i: Input)
    requires CheckpointHolds(c, i)
    ensures var cp := Root(c, i, AuthorityCheckpoint);
            PlaceOf(cp) in i.heads && i.heads[PlaceOf(cp)] == HeadOf(cp) && HeadOf(cp).authorityRoot == Raw(cp, AuthorityRoot)
  {
    hide Field, Root, Doc, Num, Raw, SameTenant, CheckpointId, PlaceOf, IssuedUnderAncestor, ProofsBytes, Ascii, Chal;
  }

  lemma {:induction false} ObjectCounts(c: Crypto, i: Input)
    ensures |Objects(c, i)| == 13 && |AllObjects(c, i)| == if HasSuccessor(c, i) then 16 else 14
  {
    hide Rooted, StateKey, CoreDigest, Raw, Num, Field, Root, Holder, Picked, HasSuccessor, Ascii, BigEndian64;
  }

  /** Some record of the table has this key and digest, in this state and, if one is given, version. */
  ghost predicate Tabled(table: seq<Value>, key: Bytes, digest: Bytes, state: Bytes, version: Option<nat>) {
    exists record | record in table ::
      && Field(record, KeyField) == ByteString(key) && Field(record, ObjectDigest) == ByteString(digest) && Field(record, StateField) == Text(state)
      && (version.Some? ==> Num(record, VersionField) == version.value)
  }

  lemma {:induction false} RecordIsTabled(table: seq<Value>, claim: Claim)
    requires exists record | record in table :: RecordStates(record, claim)
    ensures Tabled(table, claim.key, claim.digest, claim.state, claim.version)
  {
    hide Field, Num;
    var record :| record in table && RecordStates(record, claim);
  }

  lemma {:induction false} RevisionKind()
    ensures Revision in Fields(Credential) && KindOf(Credential, Revision) == Positive
  {
  }

  lemma {:induction false} RevisionReads(c: Crypto, i: Input)
    requires SignaturesHold(c, i)
    ensures UintOf(Field(Holder(c, i), Revision)) == Some(Num(Holder(c, i), Revision))
  {
    hide Field, Holder, PassportCwt, HolderProofCwt, AllSigned, SignedCwt, AgentKeys, ValidCore, KindOf, Fields;
    PassportIsValid(c, i);
    RevisionKind();
    MemberFits(c, Credential, Holder(c, i), Revision);
  }

  lemma {:induction false} KeyObjects(c: Crypto, i: Input)
    ensures |AllObjects(c, i)| > 11
    ensures AllObjects(c, i)[0] == Rooted(c, i, RootDelegation, Raw(Root(c, i, RootDelegation), DelegationId), ACTIVE)
    ensures AllObjects(c, i)[6] == Rooted(c, i, AdminChallenge, Raw(Root(c, i, AdminChallenge), ChallengeId), SUPERSEDED)
    ensures AllObjects(c, i)[10] == Object(AgentHead, Claim(StateKey(c, AgentHead, Raw(Holder(c, i), Birthtag)), CoreDigest(c, CoreBytes(PassportCwt(c, i))),
                                                            ACTIVE, UintOf(Field(Holder(c, i), Revision))))
    ensures AllObjects(c, i)[11] == Rooted(c, i, LimitGrant, Raw(Root(c, i, LimitGrant), GrantId) + BigEndian64(Num(Root(c, i, LimitGrant), GrantVersion)), ACTIVE)
  {
    hide Rooted, StateKey, CoreDigest, Raw, Num, Field, Root, Holder, Picked, HasSuccessor, Ascii, BigEndian64, CoreBytes, PassportCwt, RootDoc,
         SignedDoc, SelectionRaw, SuccessorObjects, CounterObject;
  }

  ghost predicate NoStateCollision(c: Crypto, i: Input, table: seq<Value>)
    requires AllEncode(table)
  {
    forall k | 0 <= k < |AllObjects(c, i)| :: StateCollision(c, ProofOf(c, i, AllObjects(c, i)[k].name), table).None?
  }

  /** In the table the pinned root commits to, the delegation and the grant of a consumable run are active, the
      agent's head is this very passport at its own revision, and the registrar's challenge is spent. */
  lemma {:induction false} AuthorityIsCurrent(c: Crypto, i: Input, table: seq<Value>)
    requires Assured(c, i) && AllEncode(table)
    requires i.heads[PlaceOf(Root(c, i, AuthorityCheckpoint))].authorityRoot == TreeHash(c.hash, Leafs(table))
    requires NoStateCollision(c, i, table)
    ensures var delegation, grant := Root(c, i, RootDelegation), Root(c, i, LimitGrant);
            && Tabled(table, StateKey(c, RootDelegation, Raw(delegation, DelegationId)), CoreDigest(c, CoreBytes(RootDoc(c, i, RootDelegation))), ACTIVE, None)
            && Tabled(table, StateKey(c, LimitGrant, Raw(grant, GrantId) + BigEndian64(Num(grant, GrantVersion))),
                      CoreDigest(c, CoreBytes(RootDoc(c, i, LimitGrant))), ACTIVE, None)
            && Tabled(table, StateKey(c, AdminChallenge, Raw(Root(c, i, AdminChallenge), ChallengeId)),
                      CoreDigest(c, CoreBytes(RootDoc(c, i, AdminChallenge))), SUPERSEDED, None)
    ensures Tabled(table, StateKey(c, AgentHead, Raw(Holder(c, i), Birthtag)), CoreDigest(c, CoreBytes(PassportCwt(c, i))), ACTIVE,
                   Some(Num(Holder(c, i), Revision)))
  {
    hide Assured, Root, Raw, Num, Field, AllObjects, ProofOf, StateCollision, TreeHash, PlaceOf, StateKey, CoreDigest, CoreBytes, RootDoc, Holder,
         PassportCwt, RecordStates, Tabled, AllEncode, Ascii, BigEndian64, Objects, HasSuccessor, UintOf, ChallengeHolds, PresentationBinds,
         RootsHold, SignaturesHold, PassportHolds, RegistrationHolds, CheckpointHolds, StatesHold, GrantHolds, AsaHolds, FinishHolds, IssuanceHolds,
         ConsumptionHolds, DigestsMatch;
    StageFacts(c, i);
    RevisionReads(c, i);
    KeyObjects(c, i);
    forall k | 0 <= k < |AllObjects(c, i)| ensures exists record | record in table :: RecordStates(record, AllObjects(c, i)[k].claim) {
      StatesAreTabled(c, i, table, k);
    }
    RecordIsTabled(table, AllObjects(c, i)[0].claim);
    RecordIsTabled(table, AllObjects(c, i)[6].claim);
    RecordIsTabled(table, AllObjects(c, i)[10].claim);
    RecordIsTabled(table, AllObjects(c, i)[11].claim);
  }

  /** The log under which the passport was issued is a prefix of the log the pinned head commits to. */
  lemma {:induction false} IssuanceLogIsPrefix(c: Crypto, i: Input, log: seq<Bytes>)
    requires Assured(c, i)
    requires var head := HeadOf(Root(c, i, AuthorityCheckpoint)); head.logSize == |log| && head.logRoot == TreeHash(c.hash, log)
    ensures Raw(Holder(c, i), IssuanceCheckpoint) in i.checkpoints && Siblings(Field(Pres(c, i), IssuanceConsistencyProof)).Some?
    ensures var issued, path := i.checkpoints[Raw(Holder(c, i), IssuanceCheckpoint)].head, Siblings(Field(Pres(c, i), IssuanceConsistencyProof)).value;
            || (issued.logSize <= |log| && issued.logRoot == TreeHash(c.hash, log[..issued.logSize]))
            || ConsistencyCollision(c.hash, issued.logSize, log, issued.logRoot, path).Some?
  {
    hide Assured, ChallengeHolds, PresentationBinds, RootsHold, SignaturesHold, PassportHolds, RegistrationHolds, CheckpointHolds, StatesHold,
         GrantHolds, AsaHolds, FinishHolds, IssuanceHolds, ConsumptionHolds, DigestsMatch, Root, Raw, Field, Pres, Holder, Siblings, HeadOf, PlaceOf,
         TreeHash, ConsistencyCollision;
    StageFacts(c, i);
    AncestorPart(c, i);
    var issued, path := i.checkpoints[Raw(Holder(c, i), IssuanceCheckpoint)].head, Siblings(Field(Pres(c, i), IssuanceConsistencyProof)).value;
    ConsistencySound(c.hash, issued.logSize, log, issued.logRoot, path);
  }

  lemma {:induction false} AncestorPart(c: Crypto, i: Input)
    requires CheckpointHolds(c, i)
    ensures IssuedUnderAncestor(c, i)
  {
    hide Field, Root, Doc, Num, Raw, SameTenant, CheckpointId, PlaceOf, HeadOf, IssuedUnderAncestor, ProofsBytes, Ascii, Chal;
  }

  // ----- separate roles

  /** The trust pack pins each root key by its own hash. */
  ghost predicate WellPinned(c: Crypto, i: Input) {
    forall kid | kid in i.roots :: i.roots[kid].fingerprint == c.hash(i.roots[kid].key)
  }

  lemma {:induction false} MemberFits(c: Crypto, s: Schema, v: Value, n: Name)
    requires ValidCore(c, s, v) && n in Fields(s)
    ensures Fits(KindOf(s, n), Field(v, n))
  {
    hide Field, KindOf, Fields, Fits, Coherent, IsDocument;
  }

  lemma {:induction false} KeyKinds()
    ensures PassportAuthorityKey in Fields(Delegation) && KindOf(Delegation, PassportAuthorityKey) == Fixed
    ensures ActionAuthorityKey in Fields(Delegation) && KindOf(Delegation, ActionAuthorityKey) == Fixed
  {
  }

  lemma {:induction false} AgentKeyKind()
    ensures AgentKey in Fields(Credential) && KindOf(Credential, AgentKey) == Token
  {
  }

  lemma {:induction false} DelegationKeys(c: Crypto, v: Value)
    requires ValidCore(c, Delegation, v)
    ensures var psa, act, root := Raw(v, PassportAuthorityKey), Raw(v, ActionAuthorityKey), Raw(v, OrganisationRoot);
            psa != act && c.hash(psa) != root && c.hash(act) != root
    ensures Field(v, PassportAuthorityKey) == ByteString(Raw(v, PassportAuthorityKey)) && Field(v, ActionAuthorityKey) == ByteString(Raw(v, ActionAuthorityKey))
  {
    hide Field, Num, Ascii, Shaped, KindOf, Fields;
    KeyKinds();
    MemberFits(c, Delegation, v, PassportAuthorityKey);
    MemberFits(c, Delegation, v, ActionAuthorityKey);
  }

  lemma {:induction false} CredentialKey(c: Crypto, v: Value)
    requires ValidCore(c, Credential, v)
    ensures c.hash(Raw(v, AgentKey)) != Raw(v, OrganisationRoot) && Field(v, AgentKey) == ByteString(Raw(v, AgentKey))
  {
    hide Field, Num, Ascii, Shaped, KindOf, Fields;
    AgentKeyKind();
    MemberFits(c, Credential, v, AgentKey);
  }

  lemma {:induction false} RootDocParts(c: Crypto, i: Input, n: Name)
    requires RootDoc(c, i, n).Some?
    ensures var x := RootDoc(c, i, n).value;
            && ValidCore(c, RootSchema(n), x.core) && x.kid in i.roots
            && Field(x.core, OrganisationRoot) == ByteString(i.roots[x.kid].fingerprint)
  {
    hide Field, ValidCore, Canonical, HeaderKid, ClaimedCore, SignatureValid, Decode, IsEnvelope, Pres, RootSchema;
  }

  lemma {:induction false} PassportIsValid(c: Crypto, i: Input)
    requires PassportCwt(c, i).Some?
    ensures ValidCore(c, Credential, Holder(c, i))
  {
    hide Field, ValidCore, Canonical, HeaderKid, ClaimedCore, SignatureValid, Decode, IsEnvelope, Pres, PassportKeys;
  }

  lemma {:induction false} KeyRoles(c: Crypto, i: Input)
    requires RootsHold(c, i) && SignaturesHold(c, i) && PassportHolds(c, i)
    ensures PassportCwt(c, i).Some? && RootDoc(c, i, RootDelegation).Some?
    ensures Field(Holder(c, i), AgentKey) != Field(Root(c, i, RootDelegation), PassportAuthorityKey)
    ensures Field(Holder(c, i), AgentKey) != Field(Root(c, i, RootDelegation), ActionAuthorityKey)
  {
    hide Field, Root, RootDoc, Holder, PassportCwt, HolderProofCwt, AllSigned, SignedCwt, AgentKeys, Action, Within, Agree, SuccessorMatches,
         SuccessorCwt, SameTenant;
    assert IsRoot(c, i, RootDelegation);
  }

  /** No key of a consumable run plays two roles: the pinned root key, the passport authority's, the action
      authority's and the agent's are four different keys. */
  lemma {:induction false} RolesAreSeparate(c: Crypto, i: Input)
    requires Assured(c, i) && WellPinned(c, i)
    ensures RootDoc(c, i, RootDelegation).Some? && RootDoc(c, i, RootDelegation).value.kid in i.roots
    ensures var delegation := Root(c, i, RootDelegation);
            var root, psa, act, agent := i.roots[RootDoc(c, i, RootDelegation).value.kid].key,
                                         Raw(delegation, PassportAuthorityKey), Raw(delegation, ActionAuthorityKey), Raw(Holder(c, i), AgentKey);
            && root != psa && root != act && root != agent && psa != act && psa != agent && act != agent
  {
    hide Assured, ChallengeHolds, PresentationBinds, RootsHold, SignaturesHold, PassportHolds, RegistrationHolds, CheckpointHolds, StatesHold,
         GrantHolds, AsaHolds, FinishHolds, IssuanceHolds, ConsumptionHolds, DigestsMatch, RootDoc, PassportCwt, Holder, ValidCore, Field, Action, Agree;
    StageFacts(c, i);
    KeyRoles(c, i);
    RootDocParts(c, i, RootDelegation);
    DelegationKeys(c, Root(c, i, RootDelegation));
    PassportIsValid(c, i);
    CredentialKey(c, Holder(c, i));
    PassportParts(c, i);
  }
}
