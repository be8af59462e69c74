/** The key log read off its entries (verify-rs/src/lib.rs): which key is active when, who vouches for an
    entry, and when a whole list replays, stated over the entries alone. */
module KeyLogEntries {
  import opened Bytes
  import opened CivilTime
  import opened KeyLogReplay

  // ----- what the entries say

  function Instant(t: Option<Bytes>): Option<int> {
    if t.Some? then UtcEpochMicros(t.value) else None
  }

  predicate NotLater(a: Option<int>, b: Option<int>) {
    a.Some? && b.Some? && a.value <= b.value
  }

  predicate About(e: KeyEntry, kid: Kid) {
    e.key.Some? && e.key.value.1 == kid
  }

  /** Entry j is among the first n and brings the key into the log. */
  predicate Introduces(entries: seq<KeyEntry>, n: nat, kid: Kid, j: nat) {
    j < n <= |entries| && entries[j].action in {Created, Rotated} && About(entries[j], kid)
  }

  predicate Revokes(entries: seq<KeyEntry>, n: nat, kid: Kid, r: nat) {
    r < n <= |entries| && entries[r].action == Revoked && About(entries[r], kid)
  }

  /** Among the first n entries none revokes the key at or below this size, or before this time. */
  ghost predicate NotRevoked(entries: seq<KeyEntry>, n: nat, kid: Kid, at: Option<int>, size: nat) {
    forall r: nat | Revokes(entries, n, kid, r) :: size <= entries[r].leaf && NotLater(at, Instant(entries[r].effectiveTs))
  }

  /** The key introduced by entry j is in force: above that leaf, from that effective time on, and not revoked. */
  ghost predicate InForce(entries: seq<KeyEntry>, n: nat, kid: Kid, j: nat, at: Option<int>, size: nat) {
    && Introduces(entries, n, kid, j)
    && entries[j].leaf < size && NotLater(Instant(entries[j].effectiveTs), at) && NotRevoked(entries, n, kid, at, size)
  }

  /** The envelope carries a signature named for the key that verifies under the material. */
  predicate Signs(c: Crypto, env: Envelope, kid: Kid, material: Material) {
    exists s | s in env.signatures :: s.keyid == Some(kid) && env.message.Some? && c.signatureValid(s, env.message.value, material)
  }

  /** The key introduced by entry j is in force at entry m's own time and leaf and signed it. */
  ghost predicate Backs(c: Crypto, entries: seq<KeyEntry>, m: nat, kid: Kid, j: nat)
    requires m < |entries|
  {
    && InForce(entries, m, kid, j, UtcEpochMicros(entries[m].ts), entries[m].leaf)
    && Signs(c, entries[m].envelope, kid, entries[j].key.value.0)
  }

  /** Entry j introduced a key with issuer authority: genesis, a role-free key an issuer backed, or the
      successor of an issuer. */
  ghost predicate IntroducesIssuer(c: Crypto, entries: seq<KeyEntry>, j: nat)
    requires j < |entries|
    decreases j, 1
  {
    match entries[j].action
    case Created => entries[j].role == NoRole && (j == 0 || IssuerBacks(c, entries, j))
    case Rotated => exists i | 0 <= i < j :: entries[j].prevKid.Some? && Introduces(entries, j, entries[j].prevKid.value, i) && IntroducesIssuer(c, entries, i)
    case _ => false
  }

  ghost predicate IssuerBacks(c: Crypto, entries: seq<KeyEntry>, m: nat)
    requires m < |entries|
    decreases m, 0
  {
    exists j | 0 <= j < m :: entries[j].key.Some? && Backs(c, entries, m, entries[j].key.value.1, j) && IntroducesIssuer(c, entries, j)
  }

  ghost predicate SomeoneBacks(c: Crypto, entries: seq<KeyEntry>, m: nat)
    requires m < |entries|
  {
    exists kid, j: nat :: Backs(c, entries, m, kid, j)
  }

  /** What entry m must be for the log to go on. */
  ghost predicate EntryOk(c: Crypto, entries: seq<KeyEntry>, m: nat)
    requires m < |entries|
  {
    var e := entries[m];
    && (e.role != NoRole ==> e.role in {Recorder, ScittIssuer} && m > 0 && e.action == Created)
    && Instant(e.effectiveTs).Some? && UtcEpochMicros(e.ts).Some? && e.key.Some?
    && var (material, kid) := e.key.value;
    match e.action
    case Created =>
      && !(exists j: nat :: Introduces(entries, m, kid, j))
      && (m == 0 ==> Signs(c, e.envelope, kid, material))
      && (m > 0 ==> SomeoneBacks(c, entries, m))
      && (e.role != NoRole ==> IssuerBacks(c, entries, m))
    case Rotated =>
      && !(exists j: nat :: Introduces(entries, m, kid, j))
      && e.prevKid.Some? && e.prevKid.value != []
      && exists j: nat :: Backs(c, entries, m, e.prevKid.value, j) && e.jwkBytes.Some? && e.continuity.Some? && e.continuity.value.Some?
                     && c.detachedValid(entries[j].key.value.0, e.jwkBytes.value, e.continuity.value.value)
    case Revoked =>
      && (exists j: nat :: Introduces(entries, m, kid, j)) && !(exists r: nat :: Revokes(entries, m, kid, r))
      && SomeoneBacks(c, entries, m)
    case OtherAction => false
  }

  // ----- the state after n entries is what they say

  /** What the log knows of a key is what the first n entries say of it. */
  ghost predicate Agrees(c: Crypto, entries: seq<KeyEntry>, n: nat, log: Log, kid: Kid)
    requires n <= |entries|
  {
    && (kid in log.state <==> kid in log.keys)
    && (kid in log.state <==> exists j: nat :: Introduces(entries, n, kid, j))
    && (forall j: nat | Introduces(entries, n, kid, j) :: kid in log.state && Records(c, entries, j, log, kid))
    && (forall r: nat | Revokes(entries, n, kid, r) ::
          kid in log.state && entries[r].effectiveTs.Some? && log.state[kid].revoked == Some(Revocation(entries[r].leaf, entries[r].effectiveTs.value)))
    && (kid in log.state && log.state[kid].revoked.Some? ==> exists r: nat :: Revokes(entries, n, kid, r))
  }

  ghost predicate Records(c: Crypto, entries: seq<KeyEntry>, j: nat, log: Log, kid: Kid)
    requires j < |entries| && entries[j].key.Some? && kid in log.state
  {
    && kid in log.keys && log.keys[kid] == entries[j].key.value.0 && log.state[kid].leaf == entries[j].leaf
    && Instant(entries[j].effectiveTs) == Some(log.state[kid].since)
    && (log.state[kid].nonIssuer <==> !IntroducesIssuer(c, entries, j))
  }

  ghost predicate AllAgree(c: Crypto, entries: seq<KeyEntry>, n: nat, log: Log)
    requires n <= |entries|
  {
    forall kid :: Agrees(c, entries, n, log, kid)
  }

  /** Activity as the replay computes it is being in force. */
  lemma {:induction false} ActiveIsInForce(c: Crypto, entries: seq<KeyEntry>, n: nat, log: Log, kid: Kid, at: Bytes, size: nat)
    requires n <= |entries| && Agrees(c, entries, n, log, kid)
    ensures log.Active(kid, at, size) <==> exists j: nat :: InForce(entries, n, kid, j, UtcEpochMicros(at), size)
  {
    hide UtcEpochMicros, IntroducesIssuer;
    if log.Active(kid, at, size) {
      var j: nat :| Introduces(entries, n, kid, j);
      assert Records(c, entries, j, log, kid);
      assert InForce(entries, n, kid, j, UtcEpochMicros(at), size);
    }
    if j: nat :| InForce(entries, n, kid, j, UtcEpochMicros(at), size) {
      assert Records(c, entries, j, log, kid);
      if log.state[kid].revoked.Some? {
        var r: nat :| Revokes(entries, n, kid, r);
      }
    }
  }

  lemma {:induction false} VouchesIsBacks(c: Crypto, entries: seq<KeyEntry>, m: nat, log: Log, kid: Kid)
    requires m < |entries| && log.Valid() && Agrees(c, entries, m, log, kid)
    ensures Vouches(c, log, entries[m].envelope, kid, entries[m].ts, entries[m].leaf) <==> exists j: nat :: Backs(c, entries, m, kid, j)
    ensures forall j: nat | Backs(c, entries, m, kid, j) ::
              j < m && entries[j].key.Some? && kid in log.state && Records(c, entries, j, log, kid)
  {
    hide UtcEpochMicros, IntroducesIssuer, Log.Active, Records, InForce;
    var e := entries[m];
    ActiveIsInForce(c, entries, m, log, kid, e.ts, e.leaf);
    InForceIntroduces(entries, m, kid, UtcEpochMicros(e.ts), e.leaf);
    RecordsKey(c, entries, m, log, kid);
    if Vouches(c, log, e.envelope, kid, e.ts, e.leaf) {
      var j: nat :| InForce(entries, m, kid, j, UtcEpochMicros(e.ts), e.leaf);
      assert Backs(c, entries, m, kid, j);
    }
  }

  lemma {:induction false} InForceIntroduces(entries: seq<KeyEntry>, n: nat, kid: Kid, at: Option<int>, size: nat)
    ensures forall j: nat | InForce(entries, n, kid, j, at, size) :: Introduces(entries, n, kid, j)
  {
  }

  lemma {:induction false} RecordsKey(c: Crypto, entries: seq<KeyEntry>, n: nat, log: Log, kid: Kid)
    requires n <= |entries| && Agrees(c, entries, n, log, kid)
    ensures forall j: nat | Introduces(entries, n, kid, j) :: kid in log.state && kid in log.keys && log.keys[kid] == entries[j].key.value.0
  {
    hide IntroducesIssuer, UtcEpochMicros;
  }

  /** Some active key's signature verifies exactly when some key backs the entry. */
  lemma {:induction false} SponsorIsBacker(c: Crypto, entries: seq<KeyEntry>, m: nat, log: Log)
    requires m < |entries| && log.Valid() && AllAgree(c, entries, m, log)
    ensures SignedByActiveKey(c, log, entries[m].envelope, entries[m].ts, entries[m].leaf, false) <==> SomeoneBacks(c, entries, m)
  {
    hide Vouches, Backs, Agrees, IntroducesIssuer, UtcEpochMicros;
    var e := entries[m];
    if SignedByActiveKey(c, log, e.envelope, e.ts, e.leaf, false) {
      var s :| s in e.envelope.signatures && Vouches(c, log, e.envelope, KidOf(s), e.ts, e.leaf);
      VouchesIsBacks(c, entries, m, log, KidOf(s));
    }
    if kid, j: nat :| Backs(c, entries, m, kid, j) {
      VouchesIsBacks(c, entries, m, log, kid);
      BackerSigned(c, entries, m, kid, j);
    }
  }

  /** ... and an issuer's exactly when a key with issuer authority does. */
  lemma {:induction false} IssuerSponsorIsBacker(c: Crypto, entries: seq<KeyEntry>, m: nat, log: Log)
    requires m < |entries| && log.Valid() && AllAgree(c, entries, m, log)
    ensures SignedByActiveKey(c, log, entries[m].envelope, entries[m].ts, entries[m].leaf, true) <==> IssuerBacks(c, entries, m)
  {
    hide Vouches, Backs, Agrees, IntroducesIssuer, UtcEpochMicros;
    var e := entries[m];
    if SignedByActiveKey(c, log, e.envelope, e.ts, e.leaf, true) {
      var s :| s in e.envelope.signatures && !(KidOf(s) in log.state && log.state[KidOf(s)].nonIssuer) && Vouches(c, log, e.envelope, KidOf(s), e.ts, e.leaf);
      VouchesIsBacks(c, entries, m, log, KidOf(s));
      var j: nat :| Backs(c, entries, m, KidOf(s), j);
      BackerSigned(c, entries, m, KidOf(s), j);
      assert Records(c, entries, j, log, KidOf(s));
    }
    if IssuerBacks(c, entries, m) {
      var j :| 0 <= j < m && entries[j].key.Some? && Backs(c, entries, m, entries[j].key.value.1, j) && IntroducesIssuer(c, entries, j);
      var kid := entries[j].key.value.1;
      VouchesIsBacks(c, entries, m, log, kid);
      BackerSigned(c, entries, m, kid, j);
      assert Records(c, entries, j, log, kid);
    }
  }

  lemma {:induction false} BackerSigned(c: Crypto, entries: seq<KeyEntry>, m: nat, kid: Kid, j: nat)
    requires m < |entries| && Backs(c, entries, m, kid, j)
    ensures j < m && entries[j].key.Some? && entries[j].key.value.1 == kid
    ensures exists s :: s in entries[m].envelope.signatures && KidOf(s) == kid
  {
    hide UtcEpochMicros, NotRevoked;
    var s :| s in entries[m].envelope.signatures && s.keyid == Some(kid);
    assert KidOf(s) == kid;
  }

  // ----- one step

  lemma {:induction false} SignsIsSigned(c: Crypto, env: Envelope, kid: Kid, material: Material)
    ensures Signs(c, env, kid, material) <==> EnvelopeSignedBy(c, env, kid, material)
  {
  }

  lemma {:induction false} KnownIsIntroduced(c: Crypto, entries: seq<KeyEntry>, m: nat, log: Log, kid: Kid)
    requires m <= |entries| && Agrees(c, entries, m, log, kid)
    ensures kid in log.keys <==> exists j: nat :: Introduces(entries, m, kid, j)
    ensures kid in log.state <==> kid in log.keys
    ensures kid in log.state ==> (log.state[kid].revoked.Some? <==> exists r: nat :: Revokes(entries, m, kid, r))
  {
    hide Records, UtcEpochMicros;
  }

  lemma {:induction false} CreatedIff(c: Crypto, entries: seq<KeyEntry>, m: nat, log: Log)
    requires m < |entries| && log.Valid() && AllAgree(c, entries, m, log) && entries[m].action == Created
    ensures Step(c, log, m, entries[m]).Some? <==> EntryOk(c, entries, m)
  {
    hide SignedByActiveKey, EnvelopeSignedBy, Signs, SomeoneBacks, IssuerBacks, UtcEpochMicros, AllAgree, Introduces;
    var e := entries[m];
    SponsorIsBacker(c, entries, m, log);
    IssuerSponsorIsBacker(c, entries, m, log);
    MicrosAreCanonical(e.ts);
    if e.key.Some? {
      KnownHere(c, entries, m, log, e.key.value.1);
      SignsIsSigned(c, e.envelope, e.key.value.1, e.key.value.0);
    }
    IssuerIsSponsor(c, log, e);
  }

  lemma {:induction false} IssuerIsSponsor(c: Crypto, log: Log, e: KeyEntry)
    requires log.Valid()
    ensures SignedByActiveKey(c, log, e.envelope, e.ts, e.leaf, true) ==> SignedByActiveKey(c, log, e.envelope, e.ts, e.leaf, false)
  {
    hide Vouches;
  }

  lemma {:induction false} MicrosAreCanonical(b: Bytes)
    ensures UtcEpochMicros(b).Some? <==> CanonicalUtc(b)
  {
    hide CanonicalUtc;
  }

  lemma {:induction false} KnownHere(c: Crypto, entries: seq<KeyEntry>, m: nat, log: Log, kid: Kid)
    requires m <= |entries| && AllAgree(c, entries, m, log)
    ensures Agrees(c, entries, m, log, kid)
    ensures kid in log.keys <==> exists j: nat :: Introduces(entries, m, kid, j)
    ensures kid in log.state <==> kid in log.keys
    ensures kid in log.state ==> (log.state[kid].revoked.Some? <==> exists r: nat :: Revokes(entries, m, kid, r))
  {
    hide Agrees;
    KnownIsIntroduced(c, entries, m, log, kid);
  }

  lemma {:induction false} RotatedIff(c: Crypto, entries: seq<KeyEntry>, m: nat, log: Log)
    requires m < |entries| && log.Valid() && AllAgree(c, entries, m, log) && entries[m].action == Rotated
    ensures Step(c, log, m, entries[m]).Some? <==> EntryOk(c, entries, m)
  {
    hide Vouches, Backs, UtcEpochMicros, AllAgree, Introduces, Agrees, IntroducesIssuer;
    var e := entries[m];
    MicrosAreCanonical(e.ts);
    if e.key.Some? {
      KnownHere(c, entries, m, log, e.key.value.1);
    }
    if e.prevKid.Some? {
      var prev := e.prevKid.value;
      KnownHere(c, entries, m, log, prev);
      VouchesIsBacks(c, entries, m, log, prev);
      forall j: nat | Backs(c, entries, m, prev, j) ensures prev in log.keys && log.keys[prev] == entries[j].key.value.0 {
        assert Records(c, entries, j, log, prev);
      }
    }
  }

  lemma {:induction false} RevokedIff(c: Crypto, entries: seq<KeyEntry>, m: nat, log: Log)
    requires m < |entries| && log.Valid() && AllAgree(c, entries, m, log) && entries[m].action == Revoked
    ensures Step(c, log, m, entries[m]).Some? <==> EntryOk(c, entries, m)
  {
    hide SignedByActiveKey, SomeoneBacks, UtcEpochMicros, CanonicalUtc, AllAgree, Introduces, Revokes, Agrees;
    var e := entries[m];
    SponsorIsBacker(c, entries, m, log);
    MicrosAreCanonical(e.ts);
    if e.effectiveTs.Some? {
      MicrosAreCanonical(e.effectiveTs.value);
    }
    if e.key.Some? {
      KnownHere(c, entries, m, log, e.key.value.1);
    }
  }

  lemma {:induction false} StepIff(c: Crypto, entries: seq<KeyEntry>, m: nat, log: Log)
    requires m < |entries| && log.Valid() && AllAgree(c, entries, m, log)
    ensures Step(c, log, m, entries[m]).Some? <==> EntryOk(c, entries, m)
  {
    match entries[m].action
    case Created => CreatedIff(c, entries, m, log);
    case Rotated => RotatedIff(c, entries, m, log);
    case Revoked => RevokedIff(c, entries, m, log);
    case OtherAction => OtherIff(c, entries, m, log);
  }

  lemma {:induction false} OtherIff(c: Crypto, entries: seq<KeyEntry>, m: nat, log: Log)
    requires m < |entries| && log.Valid() && entries[m].action == OtherAction
    ensures Step(c, log, m, entries[m]).None? && !EntryOk(c, entries, m)
  {
    hide UtcEpochMicros;
  }

  // ----- the agreement is kept

  /** The new entry says something of its own key only. */
  lemma {:induction false} OthersUnaffected(entries: seq<KeyEntry>, m: nat, n: nat, kid: Kid)
    requires m < |entries| && n == m + 1 && !About(entries[m], kid)
    ensures forall j: nat | Introduces(entries, m, kid, j) :: Introduces(entries, n, kid, j)
    ensures forall j: nat | Introduces(entries, n, kid, j) :: Introduces(entries, m, kid, j)
    ensures forall r: nat | Revokes(entries, m, kid, r) :: Revokes(entries, n, kid, r)
    ensures forall r: nat | Revokes(entries, n, kid, r) :: Revokes(entries, m, kid, r)
  {
  }

  lemma {:induction false} AgreesCarries(c: Crypto, entries: seq<KeyEntry>, m: nat, n: nat, log: Log, next: Log, kid: Kid)
    requires m < |entries| && n == m + 1 && Agrees(c, entries, m, log, kid) && !About(entries[m], kid)
    requires kid in log.state <==> kid in next.state
    requires kid in log.keys <==> kid in next.keys
    requires kid in log.state ==> next.state[kid] == log.state[kid]
    requires kid in log.keys ==> next.keys[kid] == log.keys[kid]
    ensures Agrees(c, entries, n, next, kid)
  {
    hide UtcEpochMicros, IntroducesIssuer;
    OthersUnaffected(entries, m, n, kid);
    forall j: nat | Introduces(entries, n, kid, j) ensures kid in next.state && Records(c, entries, j, next, kid) {
      assert Introduces(entries, m, kid, j);
      assert Records(c, entries, j, log, kid);
    }
  }

  lemma {:induction false} IntroducesReads(entries: seq<KeyEntry>, n: nat, kid: Kid)
    ensures forall j: nat | Introduces(entries, n, kid, j) :: j < n <= |entries| && entries[j].key.Some? && entries[j].key.value.1 == kid
    ensures forall r: nat | Revokes(entries, n, kid, r) :: r < n <= |entries|
  {
  }

  lemma {:induction false} NewKeyAgrees(c: Crypto, entries: seq<KeyEntry>, m: nat, n: nat, log: Log, next: Log, kid: Kid)
    requires m < |entries| && n == m + 1 && Agrees(c, entries, m, log, kid) && kid !in log.keys && kid !in log.state
    requires entries[m].action in {Created, Rotated} && About(entries[m], kid)
    requires kid in next.state && kid in next.keys && next.state[kid].revoked.None? && Records(c, entries, m, next, kid)
    ensures Agrees(c, entries, n, next, kid)
  {
    hide Records, UtcEpochMicros;
    assert Introduces(entries, n, kid, m);
    assert forall j: nat :: Introduces(entries, n, kid, j) && j != m ==> Introduces(entries, m, kid, j);
    assert forall r: nat :: Revokes(entries, n, kid, r) ==> Revokes(entries, m, kid, r);
  }

  lemma {:induction false} RevokedKeyAgrees(c: Crypto, entries: seq<KeyEntry>, m: nat, n: nat, log: Log, next: Log, kid: Kid)
    requires m < |entries| && n == m + 1 && Agrees(c, entries, m, log, kid) && kid in log.keys && kid in log.state && log.state[kid].revoked.None?
    requires entries[m].action == Revoked && About(entries[m], kid) && entries[m].effectiveTs.Some?
    requires next.keys == log.keys && kid in next.state
    requires next.state[kid] == log.state[kid].(revoked := Some(Revocation(entries[m].leaf, entries[m].effectiveTs.value)))
    ensures Agrees(c, entries, n, next, kid)
  {
    hide UtcEpochMicros, IntroducesIssuer;
    assert Revokes(entries, n, kid, m);
    forall j: nat | Introduces(entries, n, kid, j) ensures Records(c, entries, j, next, kid) {
      assert Introduces(entries, m, kid, j);
      assert Records(c, entries, j, log, kid);
    }
    var i: nat :| Introduces(entries, m, kid, i);
    assert Introduces(entries, n, kid, i);
    assert forall r: nat :: Revokes(entries, n, kid, r) && r != m ==> Revokes(entries, m, kid, r);
  }

  lemma {:induction false} CreatedRecords(c: Crypto, entries: seq<KeyEntry>, m: nat, log: Log)
    requires m < |entries| && log.Valid() && AllAgree(c, entries, m, log) && entries[m].action == Created
    requires Step(c, log, m, entries[m]).Some?
    ensures var next, (material, kid) := Step(c, log, m, entries[m]).value, entries[m].key.value;
            && kid !in log.keys && kid in next.state && Records(c, entries, m, next, kid) && next.state[kid].revoked.None?
            && next.keys == log.keys[kid := material] && next.state == log.state[kid := next.state[kid]]
  {
    hide SignedByActiveKey, EnvelopeSignedBy, IssuerBacks, UtcEpochMicros, AllAgree;
    IssuerSponsorIsBacker(c, entries, m, log);
  }

  lemma {:induction false} RotatedRecords(c: Crypto, entries: seq<KeyEntry>, m: nat, log: Log)
    requires m < |entries| && log.Valid() && AllAgree(c, entries, m, log) && entries[m].action == Rotated
    requires Step(c, log, m, entries[m]).Some?
    ensures var next, (material, kid) := Step(c, log, m, entries[m]).value, entries[m].key.value;
            && kid !in log.keys && kid in next.state && Records(c, entries, m, next, kid) && next.state[kid].revoked.None?
            && next.keys == log.keys[kid := material] && next.state == log.state[kid := next.state[kid]]
  {
    hide UtcEpochMicros, AllAgree, Introduces, EnvelopeSignedBy, Log.Active, Agrees;
    var prev := entries[m].prevKid.value;
    ActiveIsKnown(log, prev, entries[m].ts, entries[m].leaf);
    KnownHere(c, entries, m, log, prev);
    IntroducesReads(entries, m, prev);
    forall i: nat | Introduces(entries, m, prev, i) ensures i < m && (IntroducesIssuer(c, entries, i) <==> !log.state[prev].nonIssuer) {
      TaintOf(c, entries, m, log, prev, i);
    }
  }

  lemma {:induction false} ActiveIsKnown(log: Log, kid: Kid, at: Bytes, size: nat)
    ensures log.Active(kid, at, size) ==> kid in log.state
  {
    hide UtcEpochMicros;
  }

  lemma {:induction false} TaintOf(c: Crypto, entries: seq<KeyEntry>, m: nat, log: Log, kid: Kid, i: nat)
    requires m <= |entries| && Agrees(c, entries, m, log, kid) && Introduces(entries, m, kid, i)
    ensures kid in log.state && (IntroducesIssuer(c, entries, i) <==> !log.state[kid].nonIssuer)
  {
    hide UtcEpochMicros, IntroducesIssuer;
    assert Records(c, entries, i, log, kid);
  }

  lemma {:induction false} RevokedEffect(c: Crypto, log: Log, m: nat, e: KeyEntry)
    requires log.Valid() && e.action == Revoked && Step(c, log, m, e).Some?
    ensures var next := Step(c, log, m, e).value;
            && e.key.Some? && e.effectiveTs.Some?
            && var kid := e.key.value.1;
            && kid in log.keys && kid in log.state && log.state[kid].revoked.None? && next.keys == log.keys
            && next.state == log.state[kid := log.state[kid].(revoked := Some(Revocation(e.leaf, e.effectiveTs.value)))]
  {
    hide SignedByActiveKey, UtcEpochMicros, CanonicalUtc;
  }

  lemma {:induction false} StepHasKey(c: Crypto, log: Log, m: nat, e: KeyEntry)
    requires log.Valid() && Step(c, log, m, e).Some?
    ensures e.key.Some? && e.action in {Created, Rotated, Revoked}
  {
    hide ApplyCreated, ApplyRotated, ApplyRevoked, UtcEpochMicros, CanonicalUtc;
  }

  lemma {:induction false} StepAgrees(c: Crypto, entries: seq<KeyEntry>, m: nat, log: Log)
    requires m < |entries| && log.Valid() && AllAgree(c, entries, m, log) && Step(c, log, m, entries[m]).Some?
    ensures AllAgree(c, entries, m + 1, Step(c, log, m, entries[m]).value)
  {
    hide Step, Agrees, Records;
    var e, next, n := entries[m], Step(c, log, m, entries[m]).value, m + 1;
    StepHasKey(c, log, m, e);
    var (material, own) := e.key.value;
    match e.action {
      case Created => CreatedRecords(c, entries, m, log);
      case Rotated => RotatedRecords(c, entries, m, log);
      case Revoked => RevokedEffect(c, log, m, e);
    }
    forall kid ensures Agrees(c, entries, n, next, kid) {
      assert Agrees(c, entries, m, log, kid);
      if kid != own {
        AgreesCarries(c, entries, m, n, log, next, kid);
      } else if e.action == Revoked {
        RevokedKeyAgrees(c, entries, m, n, log, next, kid);
      } else {
        NewKeyAgrees(c, entries, m, n, log, next, kid);
      }
    }
  }

  // ----- main results

  lemma {:induction false} NothingAgrees(c: Crypto, entries: seq<KeyEntry>)
    ensures AllAgree(c, entries, 0, EMPTY)
  {
    hide IntroducesIssuer, UtcEpochMicros;
  }

  lemma {:induction false} AfterAgrees(c: Crypto, entries: seq<KeyEntry>, n: nat)
    requires n <= |entries| && After(c, entries, n).Some?
    ensures AllAgree(c, entries, n, After(c, entries, n).value)
  {
    hide Step;
    if n == 0 {
      assert After(c, entries, 0) == Some(EMPTY);
      NothingAgrees(c, entries);
    } else {
      AfterAgrees(c, entries, n - 1);
      StepAgrees(c, entries, n - 1, After(c, entries, n - 1).value);
    }
  }

  /** A list of key entries replays exactly when each is, by the entries before it, a key-log entry: of a new or
      known key as its action needs, with well-formed times and role, and backed by a key in force. */
  lemma {:induction false} ReplaysIff(c: Crypto, entries: seq<KeyEntry>, n: nat)
    requires n <= |entries|
    ensures After(c, entries, n).Some? <==> forall m | 0 <= m < n :: EntryOk(c, entries, m)
  {
    hide Step, EntryOk, AllAgree;
    if n > 0 {
      ReplaysIff(c, entries, n - 1);
      if After(c, entries, n - 1).Some? {
        AfterAgrees(c, entries, n - 1);
        StepIff(c, entries, n - 1, After(c, entries, n - 1).value);
      }
    }
  }

  /** A list is a good log exactly when it begins with a creation at leaf 0, is numbered densely from 1, and each entry
      is one its predecessors allow. */
  lemma {:induction false} GoodIff(c: Crypto, entries: seq<KeyEntry>)
    ensures WellFormed(entries) && After(c, entries, |entries|).Some? <==>
              && entries != [] && entries[0].leaf == 0 && entries[0].action == Created
              && (forall m | 0 <= m < |entries| :: entries[m].sequence == m + 1)
              && forall m | 0 <= m < |entries| :: EntryOk(c, entries, m)
  {
    hide After, EntryOk;
    ReplaysIff(c, entries, |entries|);
  }

  /** After any run a key is active exactly when an entry introduced it below the size and effective by the time,
      and no entry revokes it at a smaller leaf or from an earlier time. */
  lemma {:induction false} ActiveIff(c: Crypto, entries: seq<KeyEntry>, n: nat, kid: Kid, at: Bytes, size: nat)
    requires n <= |entries| && After(c, entries, n).Some?
    ensures After(c, entries, n).value.Active(kid, at, size) <==> exists j: nat :: InForce(entries, n, kid, j, UtcEpochMicros(at), size)
  {
    hide After, Agrees, Log.Active, InForce, UtcEpochMicros;
    AfterAgrees(c, entries, n);
    ActiveIsInForce(c, entries, n, After(c, entries, n).value, kid, at, size);
  }

  /** Once an entry has revoked a key, the key is active nowhere above that entry's leaf and never after the
      revocation takes effect, however the log goes on. */
  lemma {:induction false} RevokedIsInactive(c: Crypto, entries: seq<KeyEntry>, n: nat, kid: Kid, r: nat, at: Bytes, size: nat)
    requires n <= |entries| && After(c, entries, n).Some? && Revokes(entries, n, kid, r)
    requires size > entries[r].leaf || !NotLater(UtcEpochMicros(at), Instant(entries[r].effectiveTs))
    ensures !After(c, entries, n).value.Active(kid, at, size)
  {
    hide After, Log.Active, UtcEpochMicros, Introduces, Revokes, NotLater;
    ActiveIff(c, entries, n, kid, at, size);
  }

  /** A key no entry revokes is active exactly above its leaf and from its effective time on. */
  lemma {:induction false} UnrevokedIsActive(c: Crypto, entries: seq<KeyEntry>, n: nat, kid: Kid, j: nat, at: Bytes, size: nat)
    requires n <= |entries| && After(c, entries, n).Some? && Introduces(entries, n, kid, j) && !(exists r: nat :: Revokes(entries, n, kid, r))
    ensures After(c, entries, n).value.Active(kid, at, size) <==>
            entries[j].leaf < size && NotLater(Instant(entries[j].effectiveTs), UtcEpochMicros(at))
  {
    hide After, Log.Active, UtcEpochMicros, Revokes, NotLater;
    ActiveIff(c, entries, n, kid, at, size);
    if i: nat :| InForce(entries, n, kid, i, UtcEpochMicros(at), size) {
      IntroducedOnce(c, entries, n, kid, i, j);
    }
    if entries[j].leaf < size && NotLater(Instant(entries[j].effectiveTs), UtcEpochMicros(at)) {
      assert InForce(entries, n, kid, j, UtcEpochMicros(at), size);
    }
  }

  /** No key is introduced twice. */
  lemma {:induction false} IntroducedOnce(c: Crypto, entries: seq<KeyEntry>, n: nat, kid: Kid, i: nat, j: nat)
    requires n <= |entries| && After(c, entries, n).Some? && Introduces(entries, n, kid, i) && Introduces(entries, n, kid, j)
    ensures i == j
  {
    hide After, EntryOk;
    ReplaysIff(c, entries, n);
    OnlyFirst(c, entries, i, kid);
    OnlyFirst(c, entries, j, kid);
    assert i < j ==> Introduces(entries, j, kid, i);
    assert j < i ==> Introduces(entries, i, kid, j);
  }

  lemma {:induction false} OnlyFirst(c: Crypto, entries: seq<KeyEntry>, j: nat, kid: Kid)
    requires j < |entries| && EntryOk(c, entries, j) && entries[j].action in {Created, Rotated} && About(entries[j], kid)
    ensures forall i: nat :: !Introduces(entries, j, kid, i)
  {
    hide UtcEpochMicros, SomeoneBacks, IssuerBacks, Backs, Signs, Introduces;
    assert entries[j].key.value.1 == kid;
  }

  /** Every entry of an accepted log after the first carries a verifying signature of a key in force at its own
      time and leaf; so none after a revocation rests on the revoked key alone. */
  lemma {:induction false} EntriesOutliveRevocation(c: Crypto, entries: seq<KeyEntry>, n: nat, m: nat, kid: Kid, r: nat)
    returns (backer: Kid, j: nat)
    requires n <= |entries| && After(c, entries, n).Some? && 0 < m < n && Revokes(entries, m, kid, r)
    requires entries[m].leaf > entries[r].leaf || !NotLater(UtcEpochMicros(entries[m].ts), Instant(entries[r].effectiveTs))
    ensures backer != kid && j < m && entries[j].key.Some? && entries[j].key.value.1 == backer
    ensures Signs(c, entries[m].envelope, backer, entries[j].key.value.0)
    ensures InForce(entries, m, backer, j, UtcEpochMicros(entries[m].ts), entries[m].leaf)
  {
    hide After, UtcEpochMicros, Revokes, Signs, NotLater;
    ReplaysIff(c, entries, n);
    assert EntryOk(c, entries, m);
    EntryIsBacked(c, entries, m);
    backer, j :| Backs(c, entries, m, backer, j);
  }

  lemma {:induction false} EntryIsBacked(c: Crypto, entries: seq<KeyEntry>, m: nat)
    requires 0 < m < |entries| && EntryOk(c, entries, m)
    ensures SomeoneBacks(c, entries, m)
  {
    hide UtcEpochMicros, Backs, IssuerBacks, Signs;
  }

  /** The issuer keys of a run are those its entries introduce with issuer authority. */
  lemma {:induction false} IssuerIff(c: Crypto, entries: seq<KeyEntry>, n: nat, kid: Kid, j: nat)
    requires n <= |entries| && After(c, entries, n).Some? && Introduces(entries, n, kid, j)
    ensures var log := After(c, entries, n).value;
            kid in log.state && log.keys[kid] == entries[j].key.value.0 && (!log.state[kid].nonIssuer <==> IntroducesIssuer(c, entries, j))
  {
    hide After, UtcEpochMicros, IntroducesIssuer;
    AfterAgrees(c, entries, n);
    assert Agrees(c, entries, n, After(c, entries, n).value, kid);
    assert Records(c, entries, j, After(c, entries, n).value, kid);
  }
}
