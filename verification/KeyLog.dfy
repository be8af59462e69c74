/** Replay of the key log (verify-rs/src/lib.rs): created, rotated and revoked transitions, with
    sponsorship, issuer taint and activity bounded in time and tree size. */
module KeyLogReplay {
  import opened Bytes
  import opened CivilTime

  type Kid = Bytes
  type Material = Bytes

  datatype Action = Created | Rotated | Revoked | OtherAction

  /** The role member of a key entry; OtherRole is any other text or a non-text value. */
  datatype Role = NoRole | Recorder | ScittIssuer | OtherRole

  datatype Signature = Signature(keyid: Option<Kid>, blob: Bytes)

  /** A DSSE envelope: the message its signatures are over, if it decodes, and the signatures. */
  datatype Envelope = Envelope(message: Option<Bytes>, signatures: seq<Signature>)

  /** One key entry, with its optional members as decoded: the key its JWK carries, the JWK's canonical
      bytes, and the continuity signature as present and as decoded. */
  datatype KeyEntry = KeyEntry(
    leaf: nat,
    envelope: Envelope,
    sequence: int,
    action: Action,
    role: Role,
    key: Option<(Material, Kid)>,
    jwkBytes: Option<Bytes>,
    ts: Bytes,
    effectiveTs: Option<Bytes>,
    prevKid: Option<Kid>,
    continuity: Option<Option<Bytes>>)

  /** The signature library. */
  datatype Crypto = Crypto(
    signatureValid: (Signature, Bytes, Material) -> bool,
    detachedValid: (Material, Bytes, Bytes) -> bool)

  datatype Revocation = Revocation(leaf: nat, ts: Bytes)

  datatype KeyState = KeyState(
    leaf: nat,
    since: int,
    revoked: Option<Revocation>,
    nonIssuer: bool,
    recorder: bool,
    scitt: bool)

  datatype Log = Log(keys: map<Kid, Material>, state: map<Kid, KeyState>)
  {
    /** Every key has a state and every state a key, so looking one up never fails. */
    predicate Valid() {
      && keys.Keys == state.Keys
      && forall kid | kid in state :: state[kid].recorder || state[kid].scitt ==> state[kid].nonIssuer
    }

    predicate Active(kid: Kid, at: Bytes, size: nat) {
      kid in state && UtcEpochMicros(at).Some? && ActiveAt(state[kid], UtcEpochMicros(at).value, size)
    }

    function Introduce(kid: Kid, material: Material, s: KeyState): Log {
      Log(keys[kid := material], state[kid := s])
    }
  }

  const EMPTY := Log(map[], map[])

  predicate ActiveAt(s: KeyState, at: int, size: nat) {
    && s.leaf < size && s.since <= at
    && (s.revoked.Some? ==>
          && size <= s.revoked.value.leaf
          && UtcEpochMicros(s.revoked.value.ts).Some? && at <= UtcEpochMicros(s.revoked.value.ts).value)
  }

  predicate EnvelopeSignedBy(c: Crypto, env: Envelope, kid: Kid, material: Material) {
    env.message.Some? &&
    exists s :: s in env.signatures && s.keyid == Some(kid) && c.signatureValid(s, env.message.value, material)
  }

  function KidOf(s: Signature): Kid {
    if s.keyid.Some? then s.keyid.value else []
  }

  /** `kid` was active in the log at that time and size, and its signature on the envelope verifies. */
  predicate Vouches(c: Crypto, log: Log, env: Envelope, kid: Kid, ts: Bytes, size: nat)
    requires log.Valid()
  {
    log.Active(kid, ts, size) && EnvelopeSignedBy(c, env, kid, log.keys[kid])
  }

  predicate SignedByActiveKey(c: Crypto, log: Log, env: Envelope, ts: Bytes, size: nat, issuerOnly: bool)
    requires log.Valid()
  {
    exists s :: s in env.signatures
                && (issuerOnly ==> !(KidOf(s) in log.state && log.state[KidOf(s)].nonIssuer))
                && Vouches(c, log, env, KidOf(s), ts, size)
  }

  predicate RoleOk(pos: nat, e: KeyEntry) {
    match e.role
    case NoRole => true
    case OtherRole => false
    case _ => pos > 0 && e.action == Created
  }

  // ----- the transitions

  function ApplyCreated(c: Crypto, log: Log, pos: nat, e: KeyEntry, since: int, kid: Kid, material: Material): Option<Log>
    requires log.Valid()
  {
    if kid in log.keys then None
    else if pos == 0 && !EnvelopeSignedBy(c, e.envelope, kid, material) then None
    else if pos > 0 && !SignedByActiveKey(c, log, e.envelope, e.ts, e.leaf, false) then None
    else
      var issuerSponsored := pos == 0 || SignedByActiveKey(c, log, e.envelope, e.ts, e.leaf, true);
      if e.role != NoRole && !issuerSponsored then None
      else
        var s := KeyState(e.leaf, since, None, e.role != NoRole || !issuerSponsored, e.role == Recorder, e.role == ScittIssuer);
        Some(log.Introduce(kid, material, s))
  }

  function ApplyRotated(c: Crypto, log: Log, e: KeyEntry, since: int, kid: Kid, material: Material): Option<Log>
    requires log.Valid()
  {
    var prev := if e.prevKid.Some? then e.prevKid.value else [];
    if prev == [] || e.continuity.None? || kid in log.keys then None
    else if !Vouches(c, log, e.envelope, prev, e.ts, e.leaf) then None
    else if e.jwkBytes.None? || e.continuity.value.None? then None
    else if !c.detachedValid(log.keys[prev], e.jwkBytes.value, e.continuity.value.value) then None
    else Some(log.Introduce(kid, material, KeyState(e.leaf, since, None, log.state[prev].nonIssuer, false, false)))
  }

  function ApplyRevoked(c: Crypto, log: Log, e: KeyEntry, kid: Kid): Option<Log>
    requires log.Valid()
  {
    if kid !in log.keys || log.state[kid].revoked.Some? then None
    else if !SignedByActiveKey(c, log, e.envelope, e.ts, e.leaf, false) then None
    else if e.effectiveTs.None? || !CanonicalUtc(e.effectiveTs.value) then None
    else Some(log.(state := log.state[kid := log.state[kid].(revoked := Some(Revocation(e.leaf, e.effectiveTs.value)))]))
  }

  function Step(c: Crypto, log: Log, pos: nat, e: KeyEntry): Option<Log>
    requires log.Valid()
  {
    if !RoleOk(pos, e) || e.effectiveTs.None? || UtcEpochMicros(e.effectiveTs.value).None? || !CanonicalUtc(e.ts) || e.key.None? then None
    else
      var since, (material, kid) := UtcEpochMicros(e.effectiveTs.value).value, e.key.value;
      match e.action
      case Created => ApplyCreated(c, log, pos, e, since, kid, material)
      case Rotated => ApplyRotated(c, log, e, since, kid, material)
      case Revoked => ApplyRevoked(c, log, e, kid)
      case OtherAction => None
  }

  lemma {:induction false} StepKeepsValid(c: Crypto, log: Log, pos: nat, e: KeyEntry)
    requires log.Valid() && Step(c, log, pos, e).Some?
    ensures Step(c, log, pos, e).value.Valid()
  {
    hide SignedByActiveKey, EnvelopeSignedBy, UtcEpochMicros, CanonicalUtc;
  }

  /** The log after the first n entries, if all of them apply. */
  function After(c: Crypto, entries: seq<KeyEntry>, n: nat): (r: Option<Log>)
    requires n <= |entries|
    ensures r.Some? ==> r.value.Valid()
  {
    if n == 0 then Some(EMPTY)
    else
      var before := After(c, entries, n - 1);
      if before.None? then None
      else
        var r := Step(c, before.value, n - 1, entries[n - 1]);
        if r.Some? then StepKeepsValid(c, before.value, n - 1, entries[n - 1]); r else None
  }

  predicate WellFormed(entries: seq<KeyEntry>) {
    && entries != [] && entries[0].leaf == 0 && entries[0].action == Created
    && forall i :: 0 <= i < |entries| ==> entries[i].sequence == i + 1
  }

  // ----- the object

  class KeyLog {
    var keys: map<Kid, Material>
    var state: map<Kid, KeyState>
    var ok: bool

    ghost function View(): Log
      reads this
    {
      Log(keys, state)
    }

    constructor ()
      ensures View() == EMPTY && !ok
    {
      keys, state, ok := map[], map[], false;
    }

    method KeyCreated(c: Crypto, pos: nat, e: KeyEntry, since: int, kid: Kid, material: Material) returns (applied: bool)
      requires View().Valid()
      modifies this
      ensures ok == old(ok)
      ensures var next := ApplyCreated(c, old(View()), pos, e, since, kid, material);
              applied == next.Some? && View() == if applied then next.value else old(View())
    {
      if kid in keys {
        return false;
      }
      var issuerSponsored := true;
      if pos == 0 {
        if !EnvelopeSignedBy(c, e.envelope, kid, material) {
          return false;
        }
      } else {
        if !SignedByActiveKey(c, Log(keys, state), e.envelope, e.ts, e.leaf, false) {
          return false;
        }
        issuerSponsored := SignedByActiveKey(c, Log(keys, state), e.envelope, e.ts, e.leaf, true);
      }
      if e.role != NoRole && !issuerSponsored {
        return false;
      }
      keys := keys[kid := material];
      state := state[kid := KeyState(e.leaf, since, None, e.role != NoRole || !issuerSponsored, e.role == Recorder, e.role == ScittIssuer)];
      applied := true;
    }

    method KeyRotated(c: Crypto, e: KeyEntry, since: int, kid: Kid, material: Material) returns (applied: bool)
      requires View().Valid()
      modifies this
      ensures ok == old(ok)
      ensures var next := ApplyRotated(c, old(View()), e, since, kid, material);
              applied == next.Some? && View() == if applied then next.value else old(View())
    {
      var prev := if e.prevKid.Some? then e.prevKid.value else [];
      if prev == [] || e.continuity.None? || kid in keys {
        return false;
      }
      if !Log(keys, state).Active(prev, e.ts, e.leaf) {
        return false;
      }
      if !EnvelopeSignedBy(c, e.envelope, prev, keys[prev]) {
        return false;
      }
      if e.jwkBytes.None? || e.continuity.value.None? {
        return false;
      }
      if !c.detachedValid(keys[prev], e.jwkBytes.value, e.continuity.value.value) {
        return false;
      }
      var nonIssuer := state[prev].nonIssuer;
      keys := keys[kid := material];
      state := state[kid := KeyState(e.leaf, since, None, nonIssuer, false, false)];
      applied := true;
    }

    method KeyRevoked(c: Crypto, e: KeyEntry, kid: Kid) returns (applied: bool)
      requires View().Valid()
      modifies this
      ensures ok == old(ok)
      ensures var next := ApplyRevoked(c, old(View()), e, kid);
              applied == next.Some? && View() == if applied then next.value else old(View())
    {
      if kid !in keys || state[kid].revoked.Some? {
        return false;
      }
      if !SignedByActiveKey(c, Log(keys, state), e.envelope, e.ts, e.leaf, false) {
        return false;
      }
      if e.effectiveTs.None? || !CanonicalUtc(e.effectiveTs.value) {
        return false;
      }
      state := state[kid := state[kid].(revoked := Some(Revocation(e.leaf, e.effectiveTs.value)))];
      applied := true;
    }
  }

  /** Replays the key entries in order. The log is good exactly when the list is well formed and every
      entry applies; then it is the log after all of them. */
  method ReplayKeyLog(c: Crypto, entries: seq<KeyEntry>) returns (kl: KeyLog)
    ensures fresh(kl) && kl.View().Valid()
    ensures kl.ok <==> WellFormed(entries) && After(c, entries, |entries|).Some?
    ensures kl.ok ==> kl.View() == After(c, entries, |entries|).value
    ensures exists n | 0 <= n <= |entries| :: After(c, entries, n) == Some(kl.View())
  {
    hide ApplyCreated, ApplyRotated, ApplyRevoked, UtcEpochMicros, CanonicalUtc;
    kl := new KeyLog();
    assert After(c, entries, 0) == Some(kl.View());
    if !WellFormed(entries) {
      return;
    }
    for pos := 0 to |entries|
      invariant fresh(kl) && !kl.ok
      invariant After(c, entries, pos) == Some(kl.View())
    {
      var e := entries[pos];
      assert After(c, entries, pos + 1) == Step(c, kl.View(), pos, e);
      AfterStops(c, entries, pos + 1, |entries|);
      if !RoleOk(pos, e) {
        return;
      }
      if e.effectiveTs.None? || UtcEpochMicros(e.effectiveTs.value).None? {
        return;
      }
      var since := UtcEpochMicros(e.effectiveTs.value).value;
      if !CanonicalUtc(e.ts) {
        return;
      }
      if e.key.None? {
        return;
      }
      var (material, kid) := e.key.value;
      var applied := false;
      match e.action {
        case Created => applied := kl.KeyCreated(c, pos, e, since, kid, material);
        case Rotated => applied := kl.KeyRotated(c, e, since, kid, material);
        case Revoked => applied := kl.KeyRevoked(c, e, kid);
        case OtherAction =>
      }
      if !applied {
        return;
      }
    }
    kl.ok := true;
  }

  lemma {:induction false} AfterStops(c: Crypto, entries: seq<KeyEntry>, m: nat, n: nat)
    requires m <= n <= |entries|
    ensures After(c, entries, n).Some? ==> After(c, entries, m).Some?
  {
    hide Step;
    if m < n {
      AfterStops(c, entries, m, n - 1);
    }
  }

  // ----- activity only shrinks

  /** Everything but an unset revocation is permanent. */
  ghost predicate Extends(a: Log, b: Log) {
    && (forall kid | kid in a.keys :: kid in b.keys && b.keys[kid] == a.keys[kid])
    && (forall kid | kid in a.state :: kid in b.state && Kept(a.state[kid], b.state[kid]))
  }

  ghost predicate Kept(s: KeyState, t: KeyState) {
    t == s || (s.revoked.None? && t == s.(revoked := t.revoked))
  }

  lemma {:induction false} StepExtends(c: Crypto, log: Log, pos: nat, e: KeyEntry)
    requires log.Valid() && Step(c, log, pos, e).Some?
    ensures Extends(log, Step(c, log, pos, e).value)
  {
    hide SignedByActiveKey, EnvelopeSignedBy, Vouches, UtcEpochMicros, CanonicalUtc;
  }

  lemma {:induction false} RunExtends(c: Crypto, entries: seq<KeyEntry>, m: nat, n: nat)
    requires m <= n <= |entries| && After(c, entries, n).Some?
    ensures After(c, entries, m).Some? && Extends(After(c, entries, m).value, After(c, entries, n).value)
  {
    hide Step;
    if m < n {
      RunExtends(c, entries, m, n - 1);
      StepExtends(c, After(c, entries, n - 1).value, n - 1, entries[n - 1]);
    }
  }

  /** For a key already in the log, no later transition makes it active where it was not, gives its kid
      another key or another role, or lifts or moves its revocation. */
  lemma {:induction false} ActivityOnlyShrinks(c: Crypto, entries: seq<KeyEntry>, m: nat, n: nat, kid: Kid)
    requires m <= n <= |entries| && After(c, entries, n).Some?
    requires After(c, entries, m).Some? && kid in After(c, entries, m).value.state
    ensures var a, b := After(c, entries, m).value, After(c, entries, n).value;
            && kid in b.state && a.keys[kid] == b.keys[kid]
            && (forall at, size :: b.Active(kid, at, size) ==> a.Active(kid, at, size))
            && (forall at, size :: b.Active(kid, at, size) ==> a.state[kid].leaf < size)
            && (a.state[kid].revoked.Some? ==> b.state[kid] == a.state[kid])
            && b.state[kid].nonIssuer == a.state[kid].nonIssuer
  {
    hide After, UtcEpochMicros;
    RunExtends(c, entries, m, n);
  }

  // ----- issuer authority descends to genesis

  function GenesisKid(entries: seq<KeyEntry>): Kid {
    if entries != [] && entries[0].key.Some? then entries[0].key.value.1 else []
  }

  /** `kid` was introduced by entry j, whose envelope carries a verifying signature of the issuer key
      `sponsor`, active at that entry's time and leaf and introduced at a strictly smaller leaf. */
  ghost predicate Sponsored(c: Crypto, entries: seq<KeyEntry>, sponsor: Kid, kid: Kid, j: nat) {
    && 0 < j < |entries| && After(c, entries, j).Some? && After(c, entries, j + 1).Some?
    && var before, after := After(c, entries, j).value, After(c, entries, j + 1).value;
    && kid !in before.state && kid in after.state && after.state[kid].leaf == entries[j].leaf
    && sponsor in before.state && !before.state[sponsor].nonIssuer
    && Vouches(c, before, entries[j].envelope, sponsor, entries[j].ts, entries[j].leaf)
    && before.state[sponsor].leaf < entries[j].leaf
  }

  lemma {:induction false} StepSponsors(c: Crypto, log: Log, pos: nat, e: KeyEntry, kid: Kid)
    requires log.Valid() && Step(c, log, pos, e).Some? && pos > 0
    requires kid !in log.state && kid in Step(c, log, pos, e).value.state && !Step(c, log, pos, e).value.state[kid].nonIssuer
    ensures Step(c, log, pos, e).value.state[kid].leaf == e.leaf
    ensures exists sponsor :: sponsor in log.state && !log.state[sponsor].nonIssuer
                              && Vouches(c, log, e.envelope, sponsor, e.ts, e.leaf)
  {
    hide EnvelopeSignedBy, UtcEpochMicros, CanonicalUtc;
    match e.action
    case Created =>
      var s :| s in e.envelope.signatures
               && !(KidOf(s) in log.state && log.state[KidOf(s)].nonIssuer)
               && Vouches(c, log, e.envelope, KidOf(s), e.ts, e.leaf);
      assert KidOf(s) in log.state;
    case Rotated =>
      assert Vouches(c, log, e.envelope, e.prevKid.value, e.ts, e.leaf);
    case Revoked =>
  }

  lemma {:induction false} GenesisStep(c: Crypto, entries: seq<KeyEntry>, kid: Kid)
    requires entries != [] && After(c, entries, 1).Some? && kid in After(c, entries, 1).value.state
    ensures kid == GenesisKid(entries)
  {
    hide SignedByActiveKey, EnvelopeSignedBy, UtcEpochMicros, CanonicalUtc;
    assert After(c, entries, 0) == Some(EMPTY);
    assert After(c, entries, 1) == Step(c, EMPTY, 0, entries[0]);
  }

  /** In every replay state, each issuer key is the genesis key or was sponsored by an issuer key. */
  lemma {:induction false} IssuersAreSponsored(c: Crypto, entries: seq<KeyEntry>, n: nat, kid: Kid) returns (sponsor: Kid, j: nat)
    requires n <= |entries| && After(c, entries, n).Some?
    requires kid in After(c, entries, n).value.state && !After(c, entries, n).value.state[kid].nonIssuer
    ensures kid == GenesisKid(entries) || (j < n && Sponsored(c, entries, sponsor, kid, j))
  {
    hide Step, Vouches;
    sponsor, j := [], 0;
    if n > 0 {
      var before, e := After(c, entries, n - 1).value, entries[n - 1];
      StepExtends(c, before, n - 1, e);
      if kid in before.state {
        sponsor, j := IssuersAreSponsored(c, entries, n - 1, kid);
      } else if n == 1 {
        GenesisStep(c, entries, kid);
      } else {
        StepSponsors(c, before, n - 1, e, kid);
        sponsor :| sponsor in before.state && !before.state[sponsor].nonIssuer
                   && Vouches(c, before, e.envelope, sponsor, e.ts, e.leaf);
        VouchesLeaf(c, before, e.envelope, sponsor, e.ts, e.leaf);
        j := n - 1;
      }
    }
  }

  lemma {:induction false} VouchesLeaf(c: Crypto, log: Log, env: Envelope, kid: Kid, ts: Bytes, size: nat)
    requires log.Valid() && Vouches(c, log, env, kid, ts, size)
    ensures log.state[kid].leaf < size
  {
  }

  /** A line of sponsorship: each key introduced later than, and vouched for by, the one before it. */
  ghost predicate Descent(c: Crypto, entries: seq<KeyEntry>, line: seq<Kid>, at: seq<nat>) {
    && line != [] && |at| == |line| && line[0] == GenesisKid(entries)
    && forall i :: 0 < i < |line| ==> Sponsored(c, entries, line[i - 1], line[i], at[i])
  }

  /** Every issuer key's authority descends to the genesis key through issuer keys only. */
  lemma {:induction false} IssuersDescendFromGenesis(c: Crypto, entries: seq<KeyEntry>, n: nat, kid: Kid)
    returns (line: seq<Kid>, at: seq<nat>)
    requires n <= |entries| && After(c, entries, n).Some?
    requires kid in After(c, entries, n).value.state && !After(c, entries, n).value.state[kid].nonIssuer
    ensures Descent(c, entries, line, at) && line[|line| - 1] == kid
    decreases n
  {
    hide After, Vouches;
    var sponsor, j := IssuersAreSponsored(c, entries, n, kid);
    if kid == GenesisKid(entries) {
      line, at := [kid], [0];
    } else {
      var upper, upperAt := IssuersDescendFromGenesis(c, entries, j, sponsor);
      line, at := upper + [kid], upperAt + [j];
      forall i | 0 < i < |line| ensures Sponsored(c, entries, line[i - 1], line[i], at[i]) {
        if i < |upper| {
          assert line[i - 1] == upper[i - 1] && line[i] == upper[i] && at[i] == upperAt[i];
        }
      }
    }
  }

  /** Entry j created `kid` in exactly this role, on the signature of the issuer key `sponsor`, active then and
      introduced at a strictly smaller leaf. */
  ghost predicate GrantedRole(c: Crypto, entries: seq<KeyEntry>, sponsor: Kid, kid: Kid, j: nat, role: Role) {
    && Sponsored(c, entries, sponsor, kid, j)
    && entries[j].action == Created && entries[j].role == role && entries[j].key.Some? && entries[j].key.value.1 == kid
  }

  lemma {:induction false} StepGrantsRole(c: Crypto, log: Log, pos: nat, e: KeyEntry, kid: Kid)
    requires log.Valid() && Step(c, log, pos, e).Some?
    requires kid !in log.state && kid in Step(c, log, pos, e).value.state
    requires Step(c, log, pos, e).value.state[kid].recorder || Step(c, log, pos, e).value.state[kid].scitt
    ensures pos > 0 && e.action == Created && e.key.Some? && e.key.value.1 == kid
    ensures var s := Step(c, log, pos, e).value.state[kid];
            s.nonIssuer && s.leaf == e.leaf && (s.recorder <==> e.role == Recorder) && (s.scitt <==> e.role == ScittIssuer)
    ensures exists sponsor :: sponsor in log.state && !log.state[sponsor].nonIssuer && Vouches(c, log, e.envelope, sponsor, e.ts, e.leaf)
  {
    hide EnvelopeSignedBy, UtcEpochMicros, CanonicalUtc;
    var s :| s in e.envelope.signatures
             && !(KidOf(s) in log.state && log.state[KidOf(s)].nonIssuer)
             && Vouches(c, log, e.envelope, KidOf(s), e.ts, e.leaf);
    assert KidOf(s) in log.state;
  }

  /** In every replay state each recorder or SCITT key was created by an entry after genesis that names that
      role and is signed by an issuer key active then: no role comes through rotation or from a non-issuer,
      and none carries issuer authority. */
  lemma {:induction false} RolesNeverRotate(c: Crypto, entries: seq<KeyEntry>, n: nat, kid: Kid) returns (sponsor: Kid, j: nat)
    requires n <= |entries| && After(c, entries, n).Some? && kid in After(c, entries, n).value.state
    requires After(c, entries, n).value.state[kid].recorder || After(c, entries, n).value.state[kid].scitt
    ensures var s := After(c, entries, n).value.state[kid];
            && 0 < j < n && s.nonIssuer && !(s.recorder && s.scitt)
            && GrantedRole(c, entries, sponsor, kid, j, if s.recorder then Recorder else ScittIssuer)
  {
    hide Step, Vouches;
    sponsor, j := [], 0;
    var before, e := After(c, entries, n - 1).value, entries[n - 1];
    StepExtends(c, before, n - 1, e);
    if kid in before.state {
      sponsor, j := RolesNeverRotate(c, entries, n - 1, kid);
    } else {
      StepGrantsRole(c, before, n - 1, e, kid);
      sponsor :| sponsor in before.state && !before.state[sponsor].nonIssuer && Vouches(c, before, e.envelope, sponsor, e.ts, e.leaf);
      VouchesLeaf(c, before, e.envelope, sponsor, e.ts, e.leaf);
      j := n - 1;
    }
  }
}
