/** Trust-relative verdicts (verify-rs/src/action.rs, verify-rs/src/trust.rs): every externally grounded
    dimension is weak without anchors and never weakens when the relying party names more of them. */
module Verdict {
  import opened Bytes
  import opened CivilTime

  // ----- anchors

  datatype Category = SourceKeys | MacKeys | EvaluatorKeys | NodeKeys | NodeRoots | TemporalKeys
                    | PopulationKeys | AccountabilityKeys | ScittTsKeys

  /** Named key material per category; None is material that does not decode. */
  type Anchors = map<Category, map<Bytes, Option<Bytes>>>

  type Trust = Option<Anchors>

  /** A signed statement: who it says signed it, its decoded signature, and its canonical bytes. */
  datatype Signed = Signed(name: Option<Bytes>, signature: Option<Bytes>, body: Option<Bytes>)

  datatype Crypto = Crypto(
    ed25519: (Bytes, Bytes, Bytes) -> bool,
    hmac: (Bytes, Bytes) -> Bytes,
    domain: (Purpose, Bytes) -> Bytes)

  /** What a statement is signed for; the signed bytes carry it. */
  datatype Purpose = SourceProof | ControlEvidence | NodeScan | NodeAttestation | PopulationProof | PopulationIndex
                   | TemporalEcho | TemporalBounds | SurfaceEntry | AccountabilityBinding | ScopeRegistration

  function KeyFor(trust: Trust, category: Category, name: Option<Bytes>): Option<Bytes> {
    if trust.None? || category !in trust.value || name.None? || name.value !in trust.value[category] then None
    else trust.value[category][name.value]
  }

  predicate Verified(c: Crypto, trust: Trust, category: Category, name: Option<Bytes>, purpose: Purpose, s: Signed) {
    var key := KeyFor(trust, category, name);
    key.Some? && |key.value| == 32 && s.signature.Some? && s.body.Some? &&
    c.ed25519(key.value, c.domain(purpose, s.body.value), s.signature.value)
  }

  predicate MacVerified(c: Crypto, trust: Trust, name: Option<Bytes>, purpose: Purpose, s: Signed) {
    var secret := KeyFor(trust, MacKeys, name);
    secret.Some? && s.signature.Some? && s.body.Some? &&
    c.hmac(secret.value, c.domain(purpose, s.body.value)) == s.signature.value
  }

  /** Every anchor named before is still named, with the same material. */
  ghost predicate Enlarges(less: Trust, more: Trust) {
    less.Some? ==>
      more.Some? && forall k, n | k in less.value && n in less.value[k] ::
        k in more.value && n in more.value[k] && more.value[k][n] == less.value[k][n]
  }

  lemma VerifiedMonotone(c: Crypto, less: Trust, more: Trust, category: Category, name: Option<Bytes>, purpose: Purpose, s: Signed)
    requires Enlarges(less, more)
    ensures Verified(c, less, category, name, purpose, s) ==> Verified(c, more, category, name, purpose, s)
    ensures MacVerified(c, less, name, purpose, s) ==> MacVerified(c, more, name, purpose, s)
    ensures KeyFor(less, category, name).Some? ==> KeyFor(more, category, name) == KeyFor(less, category, name)
  {
  }

  // ----- source signatures

  datatype ProofType = AsymmetricProof | MacProof | OtherProof
  datatype Family = Ed25519 | HmacSha256 | OtherFamily

  /** A delivered webhook statement: its signature as base64 and as lower-case hex, and its message. */
  datatype Webhook = Webhook(base64: Option<Bytes>, hex: Option<Bytes>, message: Bytes)

  /** `full` when the proof carries its material; `webhook` is the statement that material yields. */
  datatype Proof = NotAnObject | Proof(kid: Option<Bytes>, kind: ProofType, full: bool, webhook: Option<Webhook>, statement: Signed)

  datatype BoundKey = BoundKey(kid: Option<Bytes>, family: Option<Family>)

  datatype SourceSignature = NoSignature | SharedSecret | Asymmetric | SignatureNotRecomputed

  datatype ProofKind = Nothing | Mac | Asym

  function Matching(keys: seq<BoundKey>, kid: Option<Bytes>): seq<BoundKey> {
    if keys == [] then [] else (if keys[0].kid == kid then [keys[0]] else []) + Matching(keys[1..], kid)
  }

  /** The one key bound under this identity; two make none. */
  function Bound(keys: seq<BoundKey>, kid: Option<Bytes>): Option<BoundKey> {
    var m := Matching(keys, kid);
    if |m| == 1 then Some(m[0]) else None
  }

  predicate WebhookVerified(c: Crypto, trust: Trust, kid: Option<Bytes>, family: Option<Family>, p: Proof)
    requires p.Proof?
  {
    p.webhook.Some? &&
    var w := p.webhook.value;
    match (p.kind, family)
    case (AsymmetricProof, Some(Ed25519)) =>
      var key := KeyFor(trust, SourceKeys, kid);
      key.Some? && |key.value| == 32 && w.base64.Some? && c.ed25519(key.value, w.message, w.base64.value)
    case (MacProof, Some(HmacSha256)) =>
      var secret := KeyFor(trust, MacKeys, kid);
      secret.Some? && w.hex.Some? && |w.hex.value| == 32 && c.hmac(secret.value, w.message) == w.hex.value
    case _ => false
  }

  function KindOf(c: Crypto, trust: Trust, keys: seq<BoundKey>, p: Proof): ProofKind {
    if p.NotAnObject? then Nothing
    else
      var key := Bound(keys, p.kid);
      if p.full then
        if key.None? || !WebhookVerified(c, trust, p.kid, key.value.family, p) then Nothing
        else if p.kind == AsymmetricProof then Asym else Mac
      else if p.kind == AsymmetricProof && key.Some? && Verified(c, trust, SourceKeys, p.kid, SourceProof, p.statement) then Asym
      else if p.kind == MacProof && MacVerified(c, trust, p.kid, SourceProof, p.statement) then Mac
      else Nothing
  }

  predicate AnyOfKind(c: Crypto, trust: Trust, keys: seq<BoundKey>, proofs: seq<Proof>, kind: ProofKind) {
    exists p | p in proofs :: KindOf(c, trust, keys, p) == kind
  }

  function SourceSignatureOf(c: Crypto, trust: Trust, withheld: bool, keys: seq<BoundKey>, proofs: Option<seq<Proof>>): SourceSignature {
    if withheld then SignatureNotRecomputed
    else if proofs.None? then NoSignature
    else if AnyOfKind(c, trust, keys, proofs.value, Asym) then Asymmetric
    else if AnyOfKind(c, trust, keys, proofs.value, Mac) then SharedSecret
    else NoSignature
  }

  /** The source's scan: stops at the first asymmetric proof, remembers whether a MAC was seen. */
  method DeriveSourceSignature(c: Crypto, trust: Trust, withheld: bool, keys: seq<BoundKey>, proofs: Option<seq<Proof>>)
    returns (r: SourceSignature)
    ensures r == SourceSignatureOf(c, trust, withheld, keys, proofs)
  {
    hide KindOf;
    if withheld {
      return SignatureNotRecomputed;
    }
    if proofs.None? {
      return NoSignature;
    }
    var hasMac := false;
    for i := 0 to |proofs.value|
      invariant hasMac <==> AnyOfKind(c, trust, keys, proofs.value[..i], Mac)
      invariant !AnyOfKind(c, trust, keys, proofs.value[..i], Asym)
    {
      var kind := KindOf(c, trust, keys, proofs.value[i]);
      assert proofs.value[..i + 1] == proofs.value[..i] + [proofs.value[i]];
      if kind == Asym {
        assert proofs.value[i] in proofs.value;
        return Asymmetric;
      }
      hasMac := hasMac || kind == Mac;
    }
    assert proofs.value[..|proofs.value|] == proofs.value;
    r := if hasMac then SharedSecret else NoSignature;
  }

  // ----- the verdict input

  datatype Scan = Scan(performed: bool, authenticated: bool, complete: bool, gapFree: Option<bool>, bindsBatch: bool, statement: Signed)

  datatype NodeBasis = LogWitnessed | IndependentlyAttested | HardwareAttested

  /** `method` is None when it is not one of the three recognised bases. */
  datatype Attestation = Attestation(issued: bool, basis: Option<NodeBasis>, datesValid: bool, statement: Signed)

  /** Controllers are present exactly when the control evidence is complete. */
  datatype Control = Control(admitsOverlap: bool, controllers: Option<(Bytes, Bytes)>, statement: Signed)

  datatype Temporal = Temporal(echoes: bool, echo: Signed, intentUpper: Option<Bytes>, intent: Signed, eventLower: Option<Bytes>, event: Signed)

  datatype Mechanism = Enforced | Observed | Declared | UndeclaredMechanism

  datatype Surface = Surface(declared: Mechanism, evidenced: bool, admitsOverlap: bool, independent: bool, gap: bool, closed: bool, statement: Signed)

  /** rank: sponsor 0, parent 1, insurer 2, bond or escrow 3. */
  datatype Binding = Binding(rank: Option<nat>, specific: bool, grounded: bool, statement: Signed)

  datatype Assurance = Assurance(intentDigest: Option<Bytes>, candidates: Option<int>, presented: Option<Bytes>, nonceMatch: bool)

  datatype Registration = Registration(covered: bool, carried: bool, receiptValid: bool, statement: Signed, intent: bool, attempted: bool)

  datatype Linkage = NoLink | DirectLink | DeterministicLink | AmbiguousLink

  /** The parts of a verdict input, as the derivation reads them. The facts from the bundle and the linkage
      are settled without trust and enter as they are. */
  datatype Input = Input(
    factsVerified: bool,
    intervalKnown: bool,
    matched: bool,
    linkage: Linkage,
    gatedWithheld: bool,
    proofsWithheld: bool,
    boundKeys: seq<BoundKey>,
    proofs: Option<seq<Proof>>,
    control: Control,
    scan: Scan,
    attestation: Attestation,
    clientAttested: bool,
    populationScoped: bool,
    populationProof: Signed,
    gaps: bool,
    forksOpen: bool,
    findingOpen: bool,
    temporal: Option<Temporal>,
    surfaces: seq<Surface>,
    bindings: seq<Binding>,
    assurance: Assurance,
    populationIndex: Option<(bool, Signed)>,
    registration: Registration)

  // ----- the dimensions

  datatype ControlDomain = OverlappingControl | UnknownControl | IndependentControl
  datatype Coverage = Gapped | UnknownCoverage | Closed
  datatype CoverageBasis = Insufficient | AttestedNodeFullScan | SourceProvenPopulation
  datatype TemporalBinding = Unproven | ProvenIndependent | ProvenSourceEcho
  datatype AssuranceLinkage = NoAssurance | AmbiguousAssurance | DeterministicAssurance | DirectAssurance
  datatype PopulationStatus = NoPopulation | Indeterminate | Proven
  datatype Eligibility = NotRecomputed | Ineligible | Eligible
  datatype RegistrationStatus = Unregistered | Pending | Registered
  datatype SurfaceRow = SurfaceRow(mechanism: Mechanism, control: ControlDomain, coverage: Coverage)

  datatype Vector = Vector(
    source: SourceSignature,
    control: ControlDomain,
    observed: bool,
    clientAttested: bool,
    nodeBasis: NodeBasis,
    coverage: Coverage,
    basis: CoverageBasis,
    temporal: TemporalBinding,
    surfaces: seq<SurfaceRow>,
    accountability: Option<nat>,
    assurance: AssuranceLinkage,
    population: PopulationStatus,
    eligibility: Eligibility,
    registration: RegistrationStatus)

  /** An admission of overlap is believed without proof; independence needs the evaluator's signature. */
  function ControlOf(c: Crypto, t: Trust, e: Control): ControlDomain {
    if e.admitsOverlap || (e.controllers.Some? && e.controllers.value.0 == e.controllers.value.1) then OverlappingControl
    else if e.controllers.Some? && Verified(c, t, EvaluatorKeys, e.statement.name, ControlEvidence, e.statement) then IndependentControl
    else UnknownControl
  }

  predicate ObservedBy(c: Crypto, t: Trust, s: Scan) {
    s.performed && s.authenticated && s.bindsBatch && Verified(c, t, NodeKeys, s.statement.name, NodeScan, s.statement)
  }

  function NodeBasisOf(c: Crypto, t: Trust, a: Attestation): NodeBasis {
    if Verified(c, t, NodeRoots, a.statement.name, NodeAttestation, a.statement) && a.issued && a.basis.Some? && a.datesValid
    then a.basis.value else LogWitnessed
  }

  function BasisOf(c: Crypto, t: Trust, i: Input): CoverageBasis {
    if i.populationScoped && Verified(c, t, PopulationKeys, i.populationProof.name, PopulationProof, i.populationProof) then SourceProvenPopulation
    else if i.scan.performed && i.scan.complete && i.scan.gapFree == Some(true) && ObservedBy(c, t, i.scan)
            && NodeBasisOf(c, t, i.attestation) == HardwareAttested then AttestedNodeFullScan
    else Insufficient
  }

  function CoverageOf(c: Crypto, t: Trust, i: Input): Coverage {
    if i.gaps || i.forksOpen || (i.scan.performed && i.scan.gapFree == Some(false)) || i.findingOpen then Gapped
    else if BasisOf(c, t, i) != Insufficient then Closed
    else UnknownCoverage
  }

  function TemporalOf(c: Crypto, t: Trust, temporal: Option<Temporal>): TemporalBinding {
    if temporal.None? then Unproven
    else
      var x := temporal.value;
      if x.echoes && Verified(c, t, SourceKeys, x.echo.name, TemporalEcho, x.echo) then ProvenSourceEcho
      else if Verified(c, t, TemporalKeys, x.intent.name, TemporalBounds, x.intent)
              && Verified(c, t, TemporalKeys, x.event.name, TemporalBounds, x.event)
              && x.intentUpper.Some? && x.eventLower.Some? && Nts(x.intentUpper.value).Some? && Nts(x.eventLower.value).Some?
              && Less(Nts(x.intentUpper.value).value, Nts(x.eventLower.value).value) then ProvenIndependent
      else Unproven
  }

  function RowOf(c: Crypto, t: Trust, e: Surface): SurfaceRow {
    var mechanism := if e.declared in {Enforced, Observed} && !e.evidenced then Declared else e.declared;
    var grounded := Verified(c, t, EvaluatorKeys, e.statement.name, SurfaceEntry, e.statement);
    SurfaceRow(mechanism,
               if e.admitsOverlap then OverlappingControl else if grounded && e.independent then IndependentControl else UnknownControl,
               if e.gap then Gapped else if grounded && e.closed then Closed else UnknownCoverage)
  }

  function Rows(c: Crypto, t: Trust, surfaces: seq<Surface>): (r: seq<SurfaceRow>)
    ensures |r| == |surfaces| && forall i | 0 <= i < |r| :: r[i] == RowOf(c, t, surfaces[i])
  {
    seq(|surfaces|, i requires 0 <= i < |surfaces| => RowOf(c, t, surfaces[i]))
  }

  /** A binding counts when it is specific, signed by a party this relying party named, and, from insurer
      upward, externally grounded. */
  predicate Counts(c: Crypto, t: Trust, b: Binding) {
    b.rank.Some? && b.specific && Verified(c, t, AccountabilityKeys, b.statement.name, AccountabilityBinding, b.statement)
    && (b.rank.value >= 2 ==> b.grounded)
  }

  /** `best` is the greatest rank among the bindings that count. */
  ghost predicate BestRank(c: Crypto, t: Trust, bindings: seq<Binding>, best: Option<nat>) {
    && (best.None? <==> forall b | b in bindings :: !Counts(c, t, b))
    && (best.Some? ==> (exists b | b in bindings :: Counts(c, t, b) && b.rank == best)
                       && forall b | b in bindings :: Counts(c, t, b) ==> b.rank.value <= best.value)
  }

  function BestOf(c: Crypto, t: Trust, bindings: seq<Binding>): (best: Option<nat>)
    ensures BestRank(c, t, bindings, best)
  {
    if bindings == [] then None
    else
      var last := |bindings| - 1;
      var best, b := BestOf(c, t, bindings[..last]), bindings[last];
      assert bindings == bindings[..last] + [b];
      if !Counts(c, t, b) then best
      else if best.Some? && best.value >= b.rank.value then best
      else b.rank
  }

  method DeriveAccountability(c: Crypto, t: Trust, bindings: seq<Binding>) returns (best: Option<nat>)
    ensures best == BestOf(c, t, bindings)
  {
    hide Verified;
    best := None;
    for i := 0 to |bindings|
      invariant best == BestOf(c, t, bindings[..i])
    {
      assert bindings[..i + 1][..i] == bindings[..i];
      var b := bindings[i];
      if b.rank.None? || !b.specific {
        continue;
      }
      if !Verified(c, t, AccountabilityKeys, b.statement.name, AccountabilityBinding, b.statement) {
        continue;
      }
      if b.rank.value >= 2 && !b.grounded {
        continue;
      }
      best := if best.Some? && best.value >= b.rank.value then best else b.rank;
    }
    assert bindings[..|bindings|] == bindings;
  }

  /** A digest match earns more than deterministic only when the node signed what it saw. */
  function AssuranceOf(a: Assurance, observed: bool): AssuranceLinkage {
    if a.intentDigest.None? then NoAssurance
    else if a.candidates.Some? && a.candidates.value >= 2 then AmbiguousAssurance
    else if a.presented.Some? then
      if a.presented != a.intentDigest then AmbiguousAssurance
      else if observed then DirectAssurance else DeterministicAssurance
    else if a.candidates == Some(1) && a.nonceMatch then DeterministicAssurance
    else NoAssurance
  }

  function PopulationOf(c: Crypto, t: Trust, p: Option<(bool, Signed)>): PopulationStatus {
    if p.None? then NoPopulation
    else if p.value.0 && Verified(c, t, PopulationKeys, p.value.1.name, PopulationIndex, p.value.1) then Proven
    else Indeterminate
  }

  function EligibilityOf(c: Crypto, t: Trust, i: Input): Eligibility {
    if i.gatedWithheld then NotRecomputed
    else if i.factsVerified && i.matched && CoverageOf(c, t, i) == Closed && i.intervalKnown
            && i.linkage in {DirectLink, DeterministicLink} && BasisOf(c, t, i) != Insufficient && !i.forksOpen
            && TemporalOf(c, t, i.temporal) != Unproven && i.registration.receiptValid then Eligible
    else Ineligible
  }

  function RegistrationOf(c: Crypto, t: Trust, r: Registration): RegistrationStatus {
    if r.covered && r.carried && r.receiptValid && Verified(c, t, ScittTsKeys, r.statement.name, ScopeRegistration, r.statement) then Registered
    else if r.intent && r.attempted then Pending
    else Unregistered
  }

  function DeriveInner(c: Crypto, t: Trust, i: Input): Vector {
    var observed := ObservedBy(c, t, i.scan);
    Vector(SourceSignatureOf(c, t, i.proofsWithheld, i.boundKeys, i.proofs), ControlOf(c, t, i.control),
           observed, i.clientAttested && observed, NodeBasisOf(c, t, i.attestation),
           CoverageOf(c, t, i), BasisOf(c, t, i), TemporalOf(c, t, i.temporal), Rows(c, t, i.surfaces),
           BestOf(c, t, i.bindings), AssuranceOf(i.assurance, observed), PopulationOf(c, t, i.populationIndex),
           EligibilityOf(c, t, i), RegistrationOf(c, t, i.registration))
  }

  const NO_STATEMENT := Signed(None, None, None)

  /** The input of a document with no members. */
  const EMPTY := Input(false, false, false, NoLink, false, false, [], Some([]), Control(false, None, NO_STATEMENT),
                       Scan(false, false, false, None, false, NO_STATEMENT), Attestation(false, None, false, NO_STATEMENT), false,
                       false, NO_STATEMENT, false, false, false, None, [], [], Assurance(None, None, None, false), None,
                       Registration(false, false, false, NO_STATEMENT, false, false))

  /** None is a document with a member that cannot be read; it derives the fully weak vector. */
  function DeriveVector(c: Crypto, t: Trust, i: Option<Input>): Vector {
    if i.Some? then DeriveInner(c, t, i.value) else DeriveInner(c, None, EMPTY)
  }

  // ----- no favourable value without an anchor

  predicate WeakRow(r: SurfaceRow) {
    r.control != IndependentControl && r.coverage != Closed
  }

  /** No dimension holds a value that needs a third party. */
  predicate Weak(v: Vector) {
    && v.source !in {Asymmetric, SharedSecret} && v.control != IndependentControl
    && !v.observed && !v.clientAttested && v.nodeBasis == LogWitnessed
    && v.coverage != Closed && v.basis == Insufficient && v.temporal == Unproven
    && (forall i | 0 <= i < |v.surfaces| :: WeakRow(v.surfaces[i]))
    && v.accountability.None? && v.assurance != DirectAssurance && v.population != Proven
    && v.registration != Registered && v.eligibility != Eligible
  }

  lemma {:induction false} WeakFloor(c: Crypto, i: Option<Input>)
    ensures Weak(DeriveVector(c, None, i))
  {
    hide Nts, Less, Matching;
    var input := if i.Some? then i.value else EMPTY;
    forall p ensures KindOf(c, None, input.boundKeys, p) == Nothing {
    }
  }

  // ----- no favourable value without an anchor of its own category

  /** The relying party names no usable key in this category. */
  ghost predicate Barren(t: Trust, k: Category) {
    forall name :: KeyFor(t, k, name).None?
  }

  /** The values that need an anchor of the category are absent. */
  ghost predicate WeakIn(k: Category, v: Vector) {
    match k
    case SourceKeys => v.source != Asymmetric && v.temporal != ProvenSourceEcho
    case MacKeys => v.source != SharedSecret
    case EvaluatorKeys => v.control != IndependentControl && forall i | 0 <= i < |v.surfaces| :: WeakRow(v.surfaces[i])
    case NodeKeys => !v.observed && !v.clientAttested && v.assurance != DirectAssurance && v.basis != AttestedNodeFullScan
    case NodeRoots => v.nodeBasis == LogWitnessed && v.basis != AttestedNodeFullScan
    case TemporalKeys => v.temporal != ProvenIndependent
    case PopulationKeys => v.basis != SourceProvenPopulation && v.population != Proven
    case AccountabilityKeys => v.accountability.None?
    case ScittTsKeys => v.registration != Registered
  }

  lemma {:induction false} BarrenVerifiesNothing(c: Crypto, t: Trust, k: Category)
    requires Barren(t, k)
    ensures forall name, u, s :: !Verified(c, t, k, name, u, s)
    ensures k == MacKeys ==> forall name, u, s :: !MacVerified(c, t, name, u, s)
  {
    hide KeyFor;
  }

  lemma {:induction false} SourceFloor(c: Crypto, t: Trust, i: Input)
    ensures Barren(t, SourceKeys) ==> SourceSignatureOf(c, t, i.proofsWithheld, i.boundKeys, i.proofs) != Asymmetric
    ensures Barren(t, MacKeys) ==> SourceSignatureOf(c, t, i.proofsWithheld, i.boundKeys, i.proofs) != SharedSecret
  {
    hide Bound, KeyFor;
    if Barren(t, SourceKeys) {
      forall p ensures KindOf(c, t, i.boundKeys, p) != Asym {
      }
    }
    if Barren(t, MacKeys) {
      forall p ensures KindOf(c, t, i.boundKeys, p) != Mac {
      }
    }
  }

  lemma {:induction false} AccountabilityFloor(c: Crypto, t: Trust, bindings: seq<Binding>)
    requires Barren(t, AccountabilityKeys)
    ensures BestOf(c, t, bindings).None?
  {
    BarrenVerifiesNothing(c, t, AccountabilityKeys);
    hide Verified, BestOf;
    assert BestRank(c, t, bindings, BestOf(c, t, bindings));
  }

  /** Whatever the other tables hold, a category without a usable key leaves every dimension that rests on it
      weak; and what rests on several categories needs each of them. */
  lemma {:induction false} CategoryFloor(c: Crypto, t: Trust, k: Category, i: Option<Input>)
    requires Barren(t, k)
    ensures WeakIn(k, DeriveVector(c, t, i))
  {
    if i.None? {
      WeakFloor(c, i);
      WeakIsWeakIn(k, DeriveVector(c, t, i));
    } else {
      CategoryFloorInner(c, t, k, i.value);
    }
  }

  lemma {:induction false} WeakIsWeakIn(k: Category, v: Vector)
    requires Weak(v)
    ensures WeakIn(k, v)
  {
  }

  lemma {:induction false} CategoryFloorInner(c: Crypto, t: Trust, k: Category, i: Input)
    requires Barren(t, k)
    ensures WeakIn(k, DeriveInner(c, t, i))
  {
    hide KeyFor, Verified, MacVerified, SourceSignatureOf, BestOf, Nts, Less, Barren;
    BarrenVerifiesNothing(c, t, k);
    SourceFloor(c, t, i);
    if k == AccountabilityKeys {
      AccountabilityFloor(c, t, i.bindings);
    }
  }

  /** Closed coverage needs the population table or both node tables; eligibility also needs a table that
      proves time. */
  lemma {:induction false} ComposedFloor(c: Crypto, t: Trust, i: Option<Input>)
    ensures var v := DeriveVector(c, t, i);
            && (Barren(t, PopulationKeys) && (Barren(t, NodeKeys) || Barren(t, NodeRoots)) ==> v.coverage != Closed && v.eligibility != Eligible)
            && (Barren(t, SourceKeys) && Barren(t, TemporalKeys) ==> v.eligibility != Eligible)
  {
    hide SourceSignatureOf, BestOf, Nts, Less, Barren, Rows, ControlOf, ObservedBy, NodeBasisOf, RegistrationOf, AssuranceOf, PopulationOf;
    if i.Some? {
      forall k | Barren(t, k) ensures WeakIn(k, DeriveInner(c, t, i.value)) {
        CategoryFloorInner(c, t, k, i.value);
      }
      assert Barren(t, PopulationKeys) ==> WeakIn(PopulationKeys, DeriveInner(c, t, i.value));
      assert Barren(t, NodeKeys) ==> WeakIn(NodeKeys, DeriveInner(c, t, i.value));
      assert Barren(t, NodeRoots) ==> WeakIn(NodeRoots, DeriveInner(c, t, i.value));
      assert Barren(t, SourceKeys) ==> WeakIn(SourceKeys, DeriveInner(c, t, i.value));
      assert Barren(t, TemporalKeys) ==> WeakIn(TemporalKeys, DeriveInner(c, t, i.value));
    } else {
      WeakFloor(c, i);
    }
  }

  // ----- only the anchors a document names matter

  /** Both contexts answer alike for this name. */
  ghost predicate Alike(t: Trust, u: Trust, k: Category, name: Option<Bytes>) {
    KeyFor(t, k, name) == KeyFor(u, k, name)
  }

  /** Both contexts answer alike for every name the document gives, each in the category it is read from. */
  ghost predicate AlikeFor(t: Trust, u: Trust, i: Input) {
    && (i.proofs.Some? ==> forall p | p in i.proofs.value && p.Proof? :: Alike(t, u, SourceKeys, p.kid) && Alike(t, u, MacKeys, p.kid))
    && Alike(t, u, EvaluatorKeys, i.control.statement.name)
    && Alike(t, u, NodeKeys, i.scan.statement.name) && Alike(t, u, NodeRoots, i.attestation.statement.name)
    && Alike(t, u, PopulationKeys, i.populationProof.name)
    && (i.populationIndex.Some? ==> Alike(t, u, PopulationKeys, i.populationIndex.value.1.name))
    && (i.temporal.Some? ==> && Alike(t, u, SourceKeys, i.temporal.value.echo.name)
                             && Alike(t, u, TemporalKeys, i.temporal.value.intent.name) && Alike(t, u, TemporalKeys, i.temporal.value.event.name))
    && (forall e | e in i.surfaces :: Alike(t, u, EvaluatorKeys, e.statement.name))
    && (forall b | b in i.bindings :: Alike(t, u, AccountabilityKeys, b.statement.name))
    && Alike(t, u, ScittTsKeys, i.registration.statement.name)
  }

  lemma {:induction false} AlikeVerifies(c: Crypto, t: Trust, u: Trust, k: Category, name: Option<Bytes>)
    requires Alike(t, u, k, name)
    ensures forall purpose, s :: Verified(c, t, k, name, purpose, s) == Verified(c, u, k, name, purpose, s)
    ensures k == MacKeys ==> forall purpose, s :: MacVerified(c, t, name, purpose, s) == MacVerified(c, u, name, purpose, s)
  {
    hide KeyFor;
  }

  lemma {:induction false} KindLocal(c: Crypto, t: Trust, u: Trust, keys: seq<BoundKey>, p: Proof)
    requires p.Proof? ==> Alike(t, u, SourceKeys, p.kid) && Alike(t, u, MacKeys, p.kid)
    ensures KindOf(c, t, keys, p) == KindOf(c, u, keys, p)
  {
    hide KeyFor, Bound;
  }

  lemma {:induction false} SourceLocal(c: Crypto, t: Trust, u: Trust, i: Input)
    requires AlikeFor(t, u, i)
    ensures SourceSignatureOf(c, t, i.proofsWithheld, i.boundKeys, i.proofs) == SourceSignatureOf(c, u, i.proofsWithheld, i.boundKeys, i.proofs)
  {
    hide KindOf, Alike;
    if i.proofs.Some? {
      forall p | p in i.proofs.value ensures KindOf(c, t, i.boundKeys, p) == KindOf(c, u, i.boundKeys, p) {
        KindLocal(c, t, u, i.boundKeys, p);
      }
    }
  }

  lemma {:induction false} AccountabilityLocal(c: Crypto, t: Trust, u: Trust, bindings: seq<Binding>)
    requires forall b | b in bindings :: Alike(t, u, AccountabilityKeys, b.statement.name)
    ensures BestOf(c, t, bindings) == BestOf(c, u, bindings)
  {
    hide Alike, Verified;
    if bindings != [] {
      var last := |bindings| - 1;
      assert bindings[last] in bindings && forall b | b in bindings[..last] :: b in bindings;
      AlikeVerifies(c, t, u, AccountabilityKeys, bindings[last].statement.name);
      AccountabilityLocal(c, t, u, bindings[..last]);
    }
  }

  lemma {:induction false} SurfacesLocal(c: Crypto, t: Trust, u: Trust, surfaces: seq<Surface>)
    requires forall e | e in surfaces :: Alike(t, u, EvaluatorKeys, e.statement.name)
    ensures Rows(c, t, surfaces) == Rows(c, u, surfaces)
  {
    hide Alike, Verified;
    forall k | 0 <= k < |surfaces| ensures RowOf(c, t, surfaces[k]) == RowOf(c, u, surfaces[k]) {
      assert surfaces[k] in surfaces;
      AlikeVerifies(c, t, u, EvaluatorKeys, surfaces[k].statement.name);
    }
  }

  lemma {:induction false} TemporalLocal(c: Crypto, t: Trust, u: Trust, x: Option<Temporal>)
    requires x.Some? ==> && Alike(t, u, SourceKeys, x.value.echo.name)
                         && Alike(t, u, TemporalKeys, x.value.intent.name) && Alike(t, u, TemporalKeys, x.value.event.name)
    ensures TemporalOf(c, t, x) == TemporalOf(c, u, x)
  {
    hide Alike, Verified, Nts, Less;
    if x.Some? {
      AlikeVerifies(c, t, u, SourceKeys, x.value.echo.name);
      AlikeVerifies(c, t, u, TemporalKeys, x.value.intent.name);
      AlikeVerifies(c, t, u, TemporalKeys, x.value.event.name);
    }
  }

  lemma {:induction false} StatementsLocal(c: Crypto, t: Trust, u: Trust, i: Input)
    requires AlikeFor(t, u, i)
    ensures ControlOf(c, t, i.control) == ControlOf(c, u, i.control) && ObservedBy(c, t, i.scan) == ObservedBy(c, u, i.scan)
    ensures NodeBasisOf(c, t, i.attestation) == NodeBasisOf(c, u, i.attestation) && BasisOf(c, t, i) == BasisOf(c, u, i)
    ensures PopulationOf(c, t, i.populationIndex) == PopulationOf(c, u, i.populationIndex)
    ensures RegistrationOf(c, t, i.registration) == RegistrationOf(c, u, i.registration)
  {
    hide Alike, Verified;
    AlikeVerifies(c, t, u, EvaluatorKeys, i.control.statement.name);
    AlikeVerifies(c, t, u, NodeKeys, i.scan.statement.name);
    AlikeVerifies(c, t, u, NodeRoots, i.attestation.statement.name);
    AlikeVerifies(c, t, u, PopulationKeys, i.populationProof.name);
    AlikeVerifies(c, t, u, ScittTsKeys, i.registration.statement.name);
    if i.populationIndex.Some? {
      AlikeVerifies(c, t, u, PopulationKeys, i.populationIndex.value.1.name);
    }
  }

  /** Contexts that agree on the anchors a document names, each in its own category, give it one verdict: no
      anchor the document does not name, and none of another category, ever changes a dimension. */
  lemma {:induction false} OnlyNamedAnchorsMatter(c: Crypto, t: Trust, u: Trust, i: Input)
    requires AlikeFor(t, u, i)
    ensures DeriveVector(c, t, Some(i)) == DeriveVector(c, u, Some(i))
  {
    SourceLocal(c, t, u, i);
    StatementsLocal(c, t, u, i);
    TemporalLocal(c, t, u, i.temporal);
    SurfacesLocal(c, t, u, i.surfaces);
    AccountabilityLocal(c, t, u, i.bindings);
    hide AlikeFor, SourceSignatureOf, ControlOf, ObservedBy, NodeBasisOf, BasisOf, PopulationOf, RegistrationOf, TemporalOf, Rows, BestOf;
  }

  // ----- what a favourable source signature rests on

  /** The proof verifies under the source key named for it. */
  ghost predicate SignedUnder(c: Crypto, p: Proof, key: Bytes)
    requires p.Proof?
  {
    |key| == 32 &&
    if p.full then p.webhook.Some? && p.webhook.value.base64.Some? && c.ed25519(key, p.webhook.value.message, p.webhook.value.base64.value)
    else p.statement.signature.Some? && p.statement.body.Some?
         && c.ed25519(key, c.domain(SourceProof, p.statement.body.value), p.statement.signature.value)
  }

  ghost predicate MacUnder(c: Crypto, p: Proof, secret: Bytes)
    requires p.Proof?
  {
    if p.full then p.webhook.Some? && p.webhook.value.hex.Some? && c.hmac(secret, p.webhook.value.message) == p.webhook.value.hex.value
    else p.statement.signature.Some? && p.statement.body.Some?
         && c.hmac(secret, c.domain(SourceProof, p.statement.body.value)) == p.statement.signature.value
  }

  /** An asymmetric source signature is a signature that verifies under a named source key for an identity
      with exactly one bound key; a shared-secret one is a MAC under a named secret. */
  lemma {:induction false} SourceGrounded(c: Crypto, t: Trust, i: Input)
    ensures var s := SourceSignatureOf(c, t, i.proofsWithheld, i.boundKeys, i.proofs);
            && (s == Asymmetric ==> exists p | p in i.proofs.value ::
                  p.Proof? && Bound(i.boundKeys, p.kid).Some? && KeyFor(t, SourceKeys, p.kid).Some? && SignedUnder(c, p, KeyFor(t, SourceKeys, p.kid).value))
            && (s == SharedSecret ==> exists p | p in i.proofs.value ::
                  p.Proof? && KeyFor(t, MacKeys, p.kid).Some? && MacUnder(c, p, KeyFor(t, MacKeys, p.kid).value))
  {
    hide Bound, KeyFor;
    var s := SourceSignatureOf(c, t, i.proofsWithheld, i.boundKeys, i.proofs);
    if s == Asymmetric {
      var p :| p in i.proofs.value && KindOf(c, t, i.boundKeys, p) == Asym;
      assert KeyFor(t, SourceKeys, p.kid).Some? && SignedUnder(c, p, KeyFor(t, SourceKeys, p.kid).value);
    } else if s == SharedSecret {
      var p :| p in i.proofs.value && KindOf(c, t, i.boundKeys, p) == Mac;
      assert KeyFor(t, MacKeys, p.kid).Some? && MacUnder(c, p, KeyFor(t, MacKeys, p.kid).value);
    }
  }

  // ----- more anchors never weaken a verdict

  function SourceRank(s: SourceSignature): nat {
    match s
    case NoSignature => 0
    case SharedSecret => 1
    case Asymmetric => 2
    case SignatureNotRecomputed => 3
  }

  /** `b` is at least as strong as `a` in every dimension. Values that do not depend on trust must be equal. */
  ghost predicate NoWeaker(a: Vector, b: Vector) {
    && SourceRank(a.source) <= SourceRank(b.source) && (a.source == SignatureNotRecomputed <==> b.source == SignatureNotRecomputed)
    && (a.control == b.control || (a.control == UnknownControl && b.control == IndependentControl))
    && (a.observed ==> b.observed) && (a.clientAttested ==> b.clientAttested)
    && (a.nodeBasis == b.nodeBasis || a.nodeBasis == LogWitnessed)
    && (a.coverage == b.coverage || (a.coverage == UnknownCoverage && b.coverage == Closed))
    && (a.basis == b.basis || a.basis == Insufficient || b.basis == SourceProvenPopulation)
    && (a.temporal == b.temporal || a.temporal == Unproven || b.temporal == ProvenSourceEcho)
    && |a.surfaces| == |b.surfaces|
    && (forall i | 0 <= i < |a.surfaces| :: NoWeakerRow(a.surfaces[i], b.surfaces[i]))
    && (a.accountability.Some? ==> b.accountability.Some? && a.accountability.value <= b.accountability.value)
    && (a.assurance == b.assurance || (a.assurance == DeterministicAssurance && b.assurance == DirectAssurance))
    && (a.population == b.population || (a.population == Indeterminate && b.population == Proven))
    && (a.eligibility == b.eligibility || (a.eligibility == Ineligible && b.eligibility == Eligible))
    && (a.registration == b.registration || b.registration == Registered)
  }

  ghost predicate NoWeakerRow(a: SurfaceRow, b: SurfaceRow) {
    && a.mechanism == b.mechanism
    && (a.control == b.control || (a.control == UnknownControl && b.control == IndependentControl))
    && (a.coverage == b.coverage || (a.coverage == UnknownCoverage && b.coverage == Closed))
  }

  lemma {:induction false} AllVerifiedMonotone(c: Crypto, less: Trust, more: Trust)
    requires Enlarges(less, more)
    ensures forall k, n, u, s :: Verified(c, less, k, n, u, s) ==> Verified(c, more, k, n, u, s)
  {
    forall k, n, u, s ensures Verified(c, less, k, n, u, s) ==> Verified(c, more, k, n, u, s) {
      VerifiedMonotone(c, less, more, k, n, u, s);
    }
  }

  lemma {:induction false} KindMonotone(c: Crypto, less: Trust, more: Trust, keys: seq<BoundKey>, p: Proof)
    requires Enlarges(less, more)
    ensures KindOf(c, less, keys, p) != Nothing ==> KindOf(c, more, keys, p) == KindOf(c, less, keys, p)
  {
    hide Bound;
    if p.Proof? {
      VerifiedMonotone(c, less, more, SourceKeys, p.kid, SourceProof, p.statement);
      VerifiedMonotone(c, less, more, MacKeys, p.kid, SourceProof, p.statement);
    }
  }

  lemma {:induction false} SourceMonotone(c: Crypto, less: Trust, more: Trust, i: Input)
    requires Enlarges(less, more)
    ensures var a, b := SourceSignatureOf(c, less, i.proofsWithheld, i.boundKeys, i.proofs), SourceSignatureOf(c, more, i.proofsWithheld, i.boundKeys, i.proofs);
            SourceRank(a) <= SourceRank(b) && (a == SignatureNotRecomputed <==> b == SignatureNotRecomputed)
  {
    hide KindOf;
    forall p ensures KindOf(c, less, i.boundKeys, p) != Nothing ==> KindOf(c, more, i.boundKeys, p) == KindOf(c, less, i.boundKeys, p) {
      KindMonotone(c, less, more, i.boundKeys, p);
    }
  }

  lemma {:induction false} CoverageMonotone(c: Crypto, less: Trust, more: Trust, i: Input)
    requires Enlarges(less, more)
    ensures var a, b := BasisOf(c, less, i), BasisOf(c, more, i); a == b || a == Insufficient || b == SourceProvenPopulation
    ensures var a, b := CoverageOf(c, less, i), CoverageOf(c, more, i); a == b || (a == UnknownCoverage && b == Closed)
  {
    AllVerifiedMonotone(c, less, more);
    hide Verified;
  }

  lemma {:induction false} TemporalMonotone(c: Crypto, less: Trust, more: Trust, x: Option<Temporal>)
    requires Enlarges(less, more)
    ensures var a, b := TemporalOf(c, less, x), TemporalOf(c, more, x); a == b || a == Unproven || b == ProvenSourceEcho
  {
    AllVerifiedMonotone(c, less, more);
    hide Verified, Nts, Less;
  }

  lemma {:induction false} AccountabilityMonotone(c: Crypto, less: Trust, more: Trust, bindings: seq<Binding>)
    requires Enlarges(less, more)
    ensures var a, b := BestOf(c, less, bindings), BestOf(c, more, bindings); a.Some? ==> b.Some? && a.value <= b.value
  {
    AllVerifiedMonotone(c, less, more);
    hide Verified, BestOf;
    var a, b := BestOf(c, less, bindings), BestOf(c, more, bindings);
    assert BestRank(c, less, bindings, a) && BestRank(c, more, bindings, b);
    if a.Some? {
      var x :| x in bindings && Counts(c, less, x) && x.rank == a;
      assert Counts(c, more, x);
    }
  }

  lemma {:induction false} SurfaceMonotone(c: Crypto, less: Trust, more: Trust, e: Surface)
    requires Enlarges(less, more)
    ensures NoWeakerRow(RowOf(c, less, e), RowOf(c, more, e))
  {
    AllVerifiedMonotone(c, less, more);
    hide Verified;
  }

  /** Naming more anchors never weakens any dimension of any document's verdict. */
  lemma {:induction false} TrustMonotone(c: Crypto, less: Trust, more: Trust, i: Option<Input>)
    requires Enlarges(less, more)
    ensures NoWeaker(DeriveVector(c, less, i), DeriveVector(c, more, i))
  {
    hide SourceSignatureOf, CoverageOf, BasisOf, TemporalOf, BestOf, RowOf, Verified;
    AllVerifiedMonotone(c, less, more);
    if i.Some? {
      SourceMonotone(c, less, more, i.value);
      CoverageMonotone(c, less, more, i.value);
      TemporalMonotone(c, less, more, i.value.temporal);
      AccountabilityMonotone(c, less, more, i.value.bindings);
      forall k | 0 <= k < |i.value.surfaces| ensures NoWeakerRow(Rows(c, less, i.value.surfaces)[k], Rows(c, more, i.value.surfaces)[k]) {
        SurfaceMonotone(c, less, more, i.value.surfaces[k]);
      }
    }
  }
}
