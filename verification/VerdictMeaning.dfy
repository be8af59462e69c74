/** When a verdict dimension has which value (verify-rs/src/action.rs, verify-rs/src/trust.rs), in terms of the
    document and of signatures that verify under keys the relying party named. */
module VerdictMeaning {
  import opened Bytes
  import opened CivilTime
  import opened Verdict

  /** The relying party's table of this category holds, under this name, a key the statement verifies under. */
  ghost predicate KeyVerifies(c: Crypto, t: Trust, k: Category, name: Option<Bytes>, purpose: Purpose, s: Signed) {
    && t.Some? && k in t.value && name.Some? && name.value in t.value[k] && s.signature.Some? && s.body.Some?
    && var key := t.value[k][name.value];
    key.Some? && |key.value| == 32 && c.ed25519(key.value, c.domain(purpose, s.body.value), s.signature.value)
  }

  /** A statement that names its own signer. */
  ghost predicate Attested(c: Crypto, t: Trust, k: Category, purpose: Purpose, s: Signed) {
    KeyVerifies(c, t, k, s.name, purpose, s)
  }

  ghost predicate SecretVerifies(c: Crypto, t: Trust, name: Option<Bytes>, message: Bytes, mac: Bytes) {
    && t.Some? && MacKeys in t.value && name.Some? && name.value in t.value[MacKeys]
    && var secret := t.value[MacKeys][name.value];
    secret.Some? && c.hmac(secret.value, message) == mac
  }

  lemma {:induction false} VerifiedIs(c: Crypto, t: Trust)
    ensures forall k, name, u, s :: Verified(c, t, k, name, u, s) <==> KeyVerifies(c, t, k, name, u, s)
  {
  }

  // ----- facts of a document that several dimensions rest on

  ghost predicate Observes(c: Crypto, t: Trust, i: Input) {
    i.scan.performed && i.scan.authenticated && i.scan.bindsBatch && Attested(c, t, NodeKeys, NodeScan, i.scan.statement)
  }

  ghost predicate AttestsBasis(c: Crypto, t: Trust, i: Input, b: NodeBasis) {
    i.attestation.issued && i.attestation.datesValid && i.attestation.basis == Some(b) && Attested(c, t, NodeRoots, NodeAttestation, i.attestation.statement)
  }

  ghost predicate ProvesPopulation(c: Crypto, t: Trust, i: Input) {
    i.populationScoped && Attested(c, t, PopulationKeys, PopulationProof, i.populationProof)
  }

  ghost predicate ScansAll(c: Crypto, t: Trust, i: Input) {
    Observes(c, t, i) && i.scan.complete && i.scan.gapFree == Some(true) && AttestsBasis(c, t, i, HardwareAttested)
  }

  predicate Open(i: Input) {
    i.gaps || i.forksOpen || i.findingOpen || (i.scan.performed && i.scan.gapFree == Some(false))
  }

  ghost predicate Echoes(c: Crypto, t: Trust, x: Temporal) {
    x.echoes && Attested(c, t, SourceKeys, TemporalEcho, x.echo)
  }

  /** Both bounds are attested, and the instant the intent existed by precedes the one the event happened after. */
  ghost predicate Precedes(c: Crypto, t: Trust, x: Temporal) {
    && Attested(c, t, TemporalKeys, TemporalBounds, x.intent) && Attested(c, t, TemporalKeys, TemporalBounds, x.event)
    && x.intentUpper.Some? && x.eventLower.Some?
    && UtcEpochMicros(x.intentUpper.value).Some? && UtcEpochMicros(x.eventLower.value).Some?
    && UtcEpochMicros(x.intentUpper.value).value < UtcEpochMicros(x.eventLower.value).value
  }

  ghost predicate Timed(c: Crypto, t: Trust, i: Input) {
    i.temporal.Some? && (Echoes(c, t, i.temporal.value) || Precedes(c, t, i.temporal.value))
  }

  // ----- observation, node basis, coverage

  lemma {:induction false} ObservedIff(c: Crypto, t: Trust, i: Input)
    ensures DeriveVector(c, t, Some(i)).observed <==> Observes(c, t, i)
    ensures DeriveVector(c, t, Some(i)).clientAttested <==> i.clientAttested && Observes(c, t, i)
  {
    VerifiedIs(c, t);
    hide Verified, KeyVerifies, SourceSignatureOf, BestOf, Rows, CoverageOf, TemporalOf, EligibilityOf;
  }

  lemma {:induction false} NodeBasisIff(c: Crypto, t: Trust, i: Input, b: NodeBasis)
    ensures b != LogWitnessed ==> (DeriveVector(c, t, Some(i)).nodeBasis == b <==> AttestsBasis(c, t, i, b))
  {
    VerifiedIs(c, t);
    hide Verified, KeyVerifies, SourceSignatureOf, BestOf, Rows, CoverageOf, TemporalOf, EligibilityOf;
  }

  lemma {:induction false} BasisIff(c: Crypto, t: Trust, i: Input)
    ensures BasisOf(c, t, i) == SourceProvenPopulation <==> ProvesPopulation(c, t, i)
    ensures BasisOf(c, t, i) == AttestedNodeFullScan <==> ScansAll(c, t, i) && !ProvesPopulation(c, t, i)
  {
    VerifiedIs(c, t);
    hide Verified, KeyVerifies;
  }

  /** Coverage is gapped exactly when a gap, fork, cursor gap or finding is open, and closed exactly when none is
      and the source proved the whole population or an attested node scanned it all. */
  lemma {:induction false} CoverageIff(c: Crypto, t: Trust, i: Input)
    ensures var v := DeriveVector(c, t, Some(i));
            && (v.coverage == Gapped <==> Open(i))
            && (v.coverage == Closed <==> !Open(i) && (ProvesPopulation(c, t, i) || ScansAll(c, t, i)))
            && (v.basis == SourceProvenPopulation <==> ProvesPopulation(c, t, i))
            && (v.basis == AttestedNodeFullScan <==> ScansAll(c, t, i) && !ProvesPopulation(c, t, i))
  {
    BasisIff(c, t, i);
    hide BasisOf, ProvesPopulation, ScansAll, SourceSignatureOf, BestOf, Rows, TemporalOf, EligibilityOf;
  }

  // ----- control

  /** Overlap is believed when admitted or shown by equal controllers; independence needs distinct controllers
      and a named evaluator's signature. */
  lemma {:induction false} ControlIff(c: Crypto, t: Trust, i: Input)
    ensures var v, e := DeriveVector(c, t, Some(i)), i.control;
            && (v.control == OverlappingControl <==> e.admitsOverlap || (e.controllers.Some? && e.controllers.value.0 == e.controllers.value.1))
            && (v.control == IndependentControl <==>
                  && !e.admitsOverlap && e.controllers.Some? && e.controllers.value.0 != e.controllers.value.1
                  && Attested(c, t, EvaluatorKeys, ControlEvidence, e.statement))
  {
    VerifiedIs(c, t);
    hide Verified, KeyVerifies, SourceSignatureOf, BestOf, Rows, CoverageOf, TemporalOf, EligibilityOf;
  }

  lemma {:induction false} SurfaceIff(c: Crypto, t: Trust, i: Input, k: nat)
    requires k < |i.surfaces|
    ensures |DeriveVector(c, t, Some(i)).surfaces| == |i.surfaces|
    ensures var r, e := DeriveVector(c, t, Some(i)).surfaces[k], i.surfaces[k];
            var grounded := Attested(c, t, EvaluatorKeys, SurfaceEntry, e.statement);
            && (r.mechanism == e.declared <==> e.evidenced || e.declared !in {Enforced, Observed})
            && (r.mechanism != e.declared ==> r.mechanism == Declared)
            && (r.control == OverlappingControl <==> e.admitsOverlap)
            && (r.control == IndependentControl <==> !e.admitsOverlap && e.independent && grounded)
            && (r.coverage == Gapped <==> e.gap) && (r.coverage == Closed <==> !e.gap && e.closed && grounded)
  {
    VerifiedIs(c, t);
    hide Verified, KeyVerifies, SourceSignatureOf, BestOf, CoverageOf, TemporalOf, EligibilityOf;
    assert DeriveVector(c, t, Some(i)).surfaces == Rows(c, t, i.surfaces);
  }

  // ----- time

  lemma {:induction false} BeforeIsEarlier(a: Bytes, b: Bytes)
    ensures Nts(a).Some? && Nts(b).Some? && Less(Nts(a).value, Nts(b).value) <==>
            UtcEpochMicros(a).Some? && UtcEpochMicros(b).Some? && UtcEpochMicros(a).value < UtcEpochMicros(b).value
  {
    hide CanonicalUtc, Less, Number, Fraction, DaysFromCivil;
    if CanonicalUtc(a) && CanonicalUtc(b) {
      OrdersAgree(a, b);
    }
  }

  lemma {:induction false} TemporalCases(c: Crypto, t: Trust, x: Temporal)
    ensures TemporalOf(c, t, Some(x)) == ProvenSourceEcho <==> Echoes(c, t, x)
    ensures TemporalOf(c, t, Some(x)) == ProvenIndependent <==> Precedes(c, t, x) && !Echoes(c, t, x)
  {
    VerifiedIs(c, t);
    hide Verified, KeyVerifies, Nts, Less, UtcEpochMicros;
    if x.intentUpper.Some? && x.eventLower.Some? {
      BeforeIsEarlier(x.intentUpper.value, x.eventLower.value);
    }
  }

  /** Time is proven by an attested echo of the source, or by two attested bounds whose instants, in microseconds,
      are in order. */
  lemma {:induction false} TemporalIff(c: Crypto, t: Trust, i: Input)
    ensures var v := DeriveVector(c, t, Some(i));
            && (v.temporal == ProvenSourceEcho <==> i.temporal.Some? && Echoes(c, t, i.temporal.value))
            && (v.temporal == ProvenIndependent <==> i.temporal.Some? && Precedes(c, t, i.temporal.value) && !Echoes(c, t, i.temporal.value))
  {
    hide Echoes, Precedes, SourceSignatureOf, BestOf, Rows, CoverageOf, EligibilityOf;
    if i.temporal.Some? {
      TemporalCases(c, t, i.temporal.value);
      hide TemporalOf;
    }
  }

  // ----- population, registration, assurance, eligibility

  lemma {:induction false} PopulationIff(c: Crypto, t: Trust, i: Input)
    ensures var v := DeriveVector(c, t, Some(i));
            && (v.population == NoPopulation <==> i.populationIndex.None?)
            && (v.population == Proven <==> (i.populationIndex.Some? && i.populationIndex.value.0
                                            && Attested(c, t, PopulationKeys, PopulationIndex, i.populationIndex.value.1)))
  {
    VerifiedIs(c, t);
    hide Verified, KeyVerifies, SourceSignatureOf, BestOf, Rows, CoverageOf, TemporalOf, EligibilityOf;
  }

  lemma {:induction false} RegistrationIff(c: Crypto, t: Trust, i: Input)
    ensures var v, r := DeriveVector(c, t, Some(i)), i.registration;
            var registered := r.covered && r.carried && r.receiptValid && Attested(c, t, ScittTsKeys, ScopeRegistration, r.statement);
            && (v.registration == Registered <==> registered)
            && (v.registration == Pending <==> !registered && r.intent && r.attempted)
  {
    VerifiedIs(c, t);
    hide Verified, KeyVerifies, SourceSignatureOf, BestOf, Rows, CoverageOf, TemporalOf, EligibilityOf;
  }

  /** A presented digest decides alone: equal to the intent's it is direct when a named node signed what it saw
      and deterministic otherwise, and different or among several candidates it is ambiguous; without one, a
      single candidate with the nonce is deterministic. */
  lemma {:induction false} AssuranceIff(c: Crypto, t: Trust, i: Input)
    ensures var v, a := DeriveVector(c, t, Some(i)), i.assurance;
            var many := a.candidates.Some? && a.candidates.value >= 2;
            && (v.assurance == DirectAssurance <==> a.intentDigest.Some? && !many && a.presented == a.intentDigest && Observes(c, t, i))
            && (v.assurance == AmbiguousAssurance <==> a.intentDigest.Some? && (many || (a.presented.Some? && a.presented != a.intentDigest)))
            && (v.assurance == DeterministicAssurance <==>
                  && a.intentDigest.Some? && !many
                  && if a.presented.Some? then a.presented == a.intentDigest && !Observes(c, t, i) else a.candidates == Some(1) && a.nonceMatch)
  {
    ObservedIff(c, t, i);
    hide Observes, SourceSignatureOf, BestOf, Rows, CoverageOf, TemporalOf, EligibilityOf, ObservedBy;
  }

  lemma {:induction false} EligibilityReads(c: Crypto, t: Trust, i: Input)
    ensures var v := DeriveVector(c, t, Some(i));
            && (v.eligibility == NotRecomputed <==> i.gatedWithheld)
            && (v.eligibility == Eligible <==>
                  && !i.gatedWithheld && i.factsVerified && i.matched && v.coverage == Closed && i.intervalKnown
                  && i.linkage in {DirectLink, DeterministicLink} && v.temporal != Unproven && i.registration.receiptValid)
  {
    hide SourceSignatureOf, BestOf, Rows, TemporalOf, BasisOf;
  }

  /** A document is eligible exactly when its facts verify and match over a known interval, nothing is open, the
      whole population is proven or scanned, its time is proven, it is linked and its receipt is valid. */
  lemma {:induction false} EligibleIff(c: Crypto, t: Trust, i: Input)
    ensures var v := DeriveVector(c, t, Some(i));
            && (v.eligibility == NotRecomputed <==> i.gatedWithheld)
            && (v.eligibility == Eligible <==>
                  && !i.gatedWithheld && i.factsVerified && i.matched && i.intervalKnown && i.linkage in {DirectLink, DeterministicLink}
                  && !Open(i) && (ProvesPopulation(c, t, i) || ScansAll(c, t, i)) && Timed(c, t, i) && i.registration.receiptValid)
  {
    EligibilityReads(c, t, i);
    CoverageIff(c, t, i);
    TemporalIff(c, t, i);
    hide DeriveVector, ProvesPopulation, ScansAll, Echoes, Precedes, Open;
  }

  // ----- accountability

  ghost predicate Qualifies(c: Crypto, t: Trust, b: Binding) {
    && b.rank.Some? && b.specific && Attested(c, t, AccountabilityKeys, AccountabilityBinding, b.statement)
    && (b.rank.value >= 2 ==> b.grounded)
  }

  /** The accountability rank is the greatest of a specific, attested and, from insurer up, grounded binding. */
  lemma {:induction false} AccountabilityIff(c: Crypto, t: Trust, i: Input, rank: nat)
    ensures DeriveVector(c, t, Some(i)).accountability == Some(rank) <==>
            && (exists b | b in i.bindings :: Qualifies(c, t, b) && b.rank == Some(rank))
            && (forall b | b in i.bindings :: Qualifies(c, t, b) ==> b.rank.value <= rank)
  {
    VerifiedIs(c, t);
    hide Verified, KeyVerifies, SourceSignatureOf, BestOf, Rows, CoverageOf, TemporalOf, EligibilityOf;
    assert DeriveVector(c, t, Some(i)).accountability == BestOf(c, t, i.bindings);
    assert BestRank(c, t, i.bindings, BestOf(c, t, i.bindings));
    assert forall b :: Counts(c, t, b) == Qualifies(c, t, b);
  }

  // ----- source signatures

  /** Exactly one bound key has this identity, and it is of this family. */
  ghost predicate OnlyKey(keys: seq<BoundKey>, kid: Option<Bytes>, family: Option<Family>) {
    exists k | 0 <= k < |keys| :: keys[k].kid == kid && keys[k].family == family && forall j | 0 <= j < |keys| && j != k :: keys[j].kid != kid
  }

  lemma {:induction false} MatchingAll(keys: seq<BoundKey>, kid: Option<Bytes>)
    ensures forall x :: x in Matching(keys, kid) <==> x in keys && x.kid == kid
    ensures Matching(keys, kid) == [] <==> forall j | 0 <= j < |keys| :: keys[j].kid != kid
  {
    if keys != [] {
      MatchingAll(keys[1..], kid);
      assert keys == [keys[0]] + keys[1..];
    }
  }

  lemma {:induction false} BoundSplits(keys: seq<BoundKey>, kid: Option<Bytes>)
    requires keys != []
    ensures var rest := keys[1..];
      Bound(keys, kid) == if keys[0].kid != kid then Bound(rest, kid)
                          else if forall j | 0 <= j < |rest| :: rest[j].kid != kid then Some(keys[0]) else None
  {
    MatchingAll(keys[1..], kid);
  }

  lemma {:induction false} OnlySplits(keys: seq<BoundKey>, kid: Option<Bytes>, family: Option<Family>)
    requires keys != []
    ensures var rest := keys[1..];
      OnlyKey(keys, kid, family) <==> (if keys[0].kid != kid then OnlyKey(rest, kid, family)
                                       else keys[0].family == family && forall j | 0 <= j < |rest| :: rest[j].kid != kid)
  {
    var rest := keys[1..];
    assert forall j | 0 <= j < |rest| :: rest[j] == keys[j + 1];
    assert forall j | 0 < j < |keys| :: keys[j] == rest[j - 1];
    if keys[0].kid != kid {
      if OnlyKey(keys, kid, family) {
        var k :| 0 <= k < |keys| && keys[k].kid == kid && keys[k].family == family && forall j | 0 <= j < |keys| && j != k :: keys[j].kid != kid;
        assert rest[k - 1].kid == kid;
      }
      if OnlyKey(rest, kid, family) {
        var k :| 0 <= k < |rest| && rest[k].kid == kid && rest[k].family == family && forall j | 0 <= j < |rest| && j != k :: rest[j].kid != kid;
        assert keys[k + 1].kid == kid;
      }
    }
  }

  lemma {:induction false} BoundIsOnly(keys: seq<BoundKey>, kid: Option<Bytes>, family: Option<Family>)
    ensures OnlyKey(keys, kid, family) <==> Bound(keys, kid).Some? && Bound(keys, kid).value.family == family
  {
    hide OnlyKey, Bound;
    if keys != [] {
      BoundIsOnly(keys[1..], kid, family);
      BoundSplits(keys, kid);
      OnlySplits(keys, kid, family);
    } else {
      NoneBound(kid, family);
    }
  }

  lemma NoneBound(kid: Option<Bytes>, family: Option<Family>)
    ensures !OnlyKey([], kid, family) && Bound([], kid) == None
  {
  }

  /** The proof is a signature under a named source key for an identity with exactly one bound key. */
  ghost predicate ProvesSource(c: Crypto, t: Trust, keys: seq<BoundKey>, p: Proof) {
    p.Proof? && p.kind == AsymmetricProof && (exists family :: OnlyKey(keys, p.kid, family)) &&
    if p.full then
      && OnlyKey(keys, p.kid, Some(Ed25519)) && p.webhook.Some? && p.webhook.value.base64.Some?
      && KeyFor(t, SourceKeys, p.kid).Some? && |KeyFor(t, SourceKeys, p.kid).value| == 32
      && c.ed25519(KeyFor(t, SourceKeys, p.kid).value, p.webhook.value.message, p.webhook.value.base64.value)
    else KeyVerifies(c, t, SourceKeys, p.kid, SourceProof, p.statement)
  }

  /** The proof is a MAC under a named secret; a webhook's also needs exactly one bound key, of the MAC family. */
  ghost predicate ProvesSecret(c: Crypto, t: Trust, keys: seq<BoundKey>, p: Proof) {
    p.Proof? && p.kind == MacProof &&
    if p.full then
      && OnlyKey(keys, p.kid, Some(HmacSha256)) && p.webhook.Some? && p.webhook.value.hex.Some? && |p.webhook.value.hex.value| == 32
      && SecretVerifies(c, t, p.kid, p.webhook.value.message, p.webhook.value.hex.value)
    else p.statement.signature.Some? && p.statement.body.Some?
         && SecretVerifies(c, t, p.kid, c.domain(SourceProof, p.statement.body.value), p.statement.signature.value)
  }

  lemma {:induction false} KindIff(c: Crypto, t: Trust, keys: seq<BoundKey>, p: Proof)
    ensures KindOf(c, t, keys, p) == Asym <==> ProvesSource(c, t, keys, p)
    ensures KindOf(c, t, keys, p) == Mac <==> ProvesSecret(c, t, keys, p)
  {
    hide Bound, OnlyKey;
    if p.Proof? {
      forall family ensures OnlyKey(keys, p.kid, family) <==> Bound(keys, p.kid).Some? && Bound(keys, p.kid).value.family == family {
        BoundIsOnly(keys, p.kid, family);
      }
      assert Bound(keys, p.kid).Some? ==> OnlyKey(keys, p.kid, Bound(keys, p.kid).value.family);
    }
  }

  /** The source signature is asymmetric exactly when some proof is such a signature, and a shared secret exactly
      when none is but some proof is such a MAC, unless the proofs are withheld. */
  lemma {:induction false} SourceIff(c: Crypto, t: Trust, i: Input)
    ensures var v, proofs := DeriveVector(c, t, Some(i)), if i.proofs.Some? then i.proofs.value else [];
            && (v.source == SignatureNotRecomputed <==> i.proofsWithheld)
            && (v.source == Asymmetric <==> !i.proofsWithheld && exists p | p in proofs :: ProvesSource(c, t, i.boundKeys, p))
            && (v.source == SharedSecret <==> && !i.proofsWithheld && (exists p | p in proofs :: ProvesSecret(c, t, i.boundKeys, p))
                                              && !exists p | p in proofs :: ProvesSource(c, t, i.boundKeys, p))
  {
    hide KindOf, ProvesSource, ProvesSecret, BestOf, Rows, CoverageOf, TemporalOf, EligibilityOf, ControlOf;
    forall p
      ensures KindOf(c, t, i.boundKeys, p) == Asym <==> ProvesSource(c, t, i.boundKeys, p)
      ensures KindOf(c, t, i.boundKeys, p) == Mac <==> ProvesSecret(c, t, i.boundKeys, p)
    {
      KindIff(c, t, i.boundKeys, p);
    }
  }

  /** A document with an unreadable member derives the weakest vector, whatever the anchors. */
  lemma {:induction false} UnreadableIsWeakest(c: Crypto, t: Trust)
    ensures DeriveVector(c, t, None) == Vector(NoSignature, UnknownControl, false, false, LogWitnessed, UnknownCoverage, Insufficient, Unproven, [],
                                              None, NoAssurance, NoPopulation, Ineligible, Unregistered)
  {
    assert Rows(c, None, []) == [];
  }
}
