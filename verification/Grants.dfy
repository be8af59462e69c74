/** Grant authority (verify-rs/src/action.rs): status replay of a grant's documents over an intent
    interval, and the walk from a transferred grant to its mandate. */
module Grants {
  import opened Bytes
  import opened CivilTime
  import opened Intervals

  datatype LimitKind = Flow | Stock | OneShot | OtherLimit

  /** The members of a grant document the replay reads; class values are carried as bytes. */
  datatype Doc = Doc(
    validFrom: Option<Bytes>,
    validTo: Option<Bytes>,
    classes: seq<Bytes>,
    limit: LimitKind,
    effectiveTs: Option<Bytes>)

  /** A revision receipt: its version, the version it revises, and its document. */
  datatype Revision = Revision(version: int, previous: int, doc: Doc)

  datatype Revocation = Revocation(grantId: Bytes, effectiveTs: Option<Bytes>)

  function NtsOf(t: Option<Bytes>): Option<Bytes> {
    if t.None? then None else Nts(t.value)
  }

  /** The document covers the whole interval, names the class and has a supported limit. */
  predicate DocOk(doc: Doc, actionClass: Bytes, lo: Bytes, up: Bytes) {
    && NtsOf(doc.validFrom).Some? && NtsOf(doc.validTo).Some?
    && AtMost(NtsOf(doc.validFrom).value, lo) && AtMost(up, NtsOf(doc.validTo).value)
    && actionClass in doc.classes
    && doc.limit in {Flow, Stock, OneShot}
  }

  predicate Timed(revisions: seq<Revision>) {
    forall i | 0 <= i < |revisions| :: NtsOf(revisions[i].doc.effectiveTs).Some?
  }

  function EffectiveFrom(r: Revision): Bytes
    requires NtsOf(r.doc.effectiveTs).Some?
  {
    NtsOf(r.doc.effectiveTs).value
  }

  /** The highest-version document effective by t: the issued one if no revision is. */
  function EffectiveAt(issued: Doc, revisions: seq<Revision>, t: Bytes): Doc
    requires Timed(revisions)
  {
    if revisions == [] then issued
    else
      var last := |revisions| - 1;
      if AtMost(EffectiveFrom(revisions[last]), t) then revisions[last].doc
      else EffectiveAt(issued, revisions[..last], t)
  }

  predicate TakesEffectWithin(r: Revision, lo: Bytes, up: Bytes)
    requires NtsOf(r.doc.effectiveTs).Some?
  {
    Less(lo, EffectiveFrom(r)) && AtMost(EffectiveFrom(r), up)
  }

  method DocsCover(issued: Doc, revisions: seq<Revision>, actionClass: Bytes, lo: Bytes, up: Bytes) returns (ok: bool)
    ensures ok <==>
            && Timed(revisions)
            && DocOk(EffectiveAt(issued, revisions, lo), actionClass, lo, up)
            && forall i | 0 <= i < |revisions| :: TakesEffectWithin(revisions[i], lo, up) ==> DocOk(revisions[i].doc, actionClass, lo, up)
  {
    hide DocOk, NtsOf;
    var docs := [issued];
    for k := 0 to |revisions|
      invariant Timed(revisions[..k])
      invariant |docs| > 0 && docs[0] == EffectiveAt(issued, revisions[..k], lo)
      invariant forall d :: d in docs[1..] <==> exists i | 0 <= i < k :: TakesEffectWithin(revisions[i], lo, up) && d == revisions[i].doc
    {
      assert revisions[..k + 1][..k] == revisions[..k];
      var eff := NtsOf(revisions[k].doc.effectiveTs);
      if eff.None? {
        return false;
      }
      if AtMost(eff.value, lo) {
        ghost var rest := docs[1..];
        docs := docs[0 := revisions[k].doc];
        assert docs[1..] == rest;
      } else if AtMost(eff.value, up) {
        ghost var rest := docs[1..];
        docs := docs + [revisions[k].doc];
        assert docs[1..] == rest + [revisions[k].doc];
      }
    }
    assert revisions[..|revisions|] == revisions;
    assert docs == [docs[0]] + docs[1..];
    ok := forall d | d in docs :: DocOk(d, actionClass, lo, up);
  }

  predicate VersionsDense(revisions: seq<Revision>) {
    forall i | 0 <= i < |revisions| :: revisions[i].version == i + 2 && revisions[i].previous == revisions[i].version - 1
  }

  /** A revocation of the grant that is effective by `up`, or has no readable time, revokes it. */
  predicate RevokedBy(revocations: seq<Revocation>, grantId: Bytes, up: Bytes) {
    exists r | r in revocations :: r.grantId == grantId && (NtsOf(r.effectiveTs).None? || AtMost(NtsOf(r.effectiveTs).value, up))
  }

  method GrantChainVerified(grantId: Bytes, issued: Doc, revisions: seq<Revision>, revocations: seq<Revocation>,
                            actionClass: Bytes, interval: Interval) returns (ok: bool)
    ensures ok ==> GrantCovers(grantId, issued, revisions, revocations, actionClass, interval)
    ensures EffectiveInOrder(revisions) && !Inverted(interval)
            ==> (ok <==> GrantCovers(grantId, issued, revisions, revocations, actionClass, interval))
  {
    hide Nts, UtcEpochMicros, DocOk, EffectiveAt, AtMost, Less, InForce, Authorises;
    var lo, up := NtsOf(interval.lower), NtsOf(interval.upper);
    NtsIsMicros(interval.lower);
    NtsIsMicros(interval.upper);
    if lo.None? || up.None? {
      return false;
    }
    if !VersionsDense(revisions) {
      return false;
    }
    RevocationIff(revocations, grantId, interval.upper);
    if RevokedBy(revocations, grantId, up.value) {
      return false;
    }
    ok := DocsCover(issued, revisions, actionClass, lo.value, up.value);
    TimedIff(revisions);
    if Timed(revisions) {
      CoverIff(issued, revisions, actionClass, interval.lower, interval.upper);
    }
  }

  // ----- what the replay establishes, in microseconds

  function MicrosOf(t: Option<Bytes>): Option<int> {
    if t.None? then None else UtcEpochMicros(t.value)
  }

  /** The document in force at an instant: the last revision that has taken effect, or else the issued one. */
  ghost predicate InForce(issued: Doc, revisions: seq<Revision>, at: int, doc: Doc)
    requires AllTimed(revisions)
  {
    || (doc == issued && forall i | 0 <= i < |revisions| :: at < Since(revisions[i]))
    || (exists i | 0 <= i < |revisions| :: Latest(revisions, at, i) && doc == revisions[i].doc)
  }

  ghost predicate Latest(revisions: seq<Revision>, at: int, i: nat)
    requires AllTimed(revisions) && i < |revisions|
  {
    Since(revisions[i]) <= at && forall j | i < j < |revisions| :: at < Since(revisions[j])
  }

  ghost predicate AllTimed(revisions: seq<Revision>) {
    forall i | 0 <= i < |revisions| :: MicrosOf(revisions[i].doc.effectiveTs).Some?
  }

  ghost function Since(r: Revision): int
    requires MicrosOf(r.doc.effectiveTs).Some?
  {
    MicrosOf(r.doc.effectiveTs).value
  }

  /** The document is valid from and until the two instants, for this class, under a supported limit. */
  ghost predicate Authorises(doc: Doc, actionClass: Bytes, from: int, until: int) {
    && MicrosOf(doc.validFrom).Some? && MicrosOf(doc.validTo).Some? && MicrosOf(doc.validFrom).value <= from && until <= MicrosOf(doc.validTo).value
    && actionClass in doc.classes && (doc.limit == Flow || doc.limit == Stock || doc.limit == OneShot)
  }

  /** Both bounds exist, versions run densely from 2, every revocation of the grant takes effect after the upper
      bound, and at every instant between the bounds the document in force authorises the class throughout. */
  ghost predicate GrantCovers(grantId: Bytes, issued: Doc, revisions: seq<Revision>, revocations: seq<Revocation>,
                              actionClass: Bytes, interval: Interval) {
    var lo, up := MicrosOf(interval.lower), MicrosOf(interval.upper);
    && lo.Some? && up.Some?
    && (forall i | 0 <= i < |revisions| :: revisions[i].version == i + 2 && revisions[i].previous == i + 1)
    && (forall r | r in revocations && r.grantId == grantId :: MicrosOf(r.effectiveTs).Some? && up.value < MicrosOf(r.effectiveTs).value)
    && AllTimed(revisions) && AuthorisedThroughout(issued, revisions, actionClass, lo.value, up.value)
  }

  ghost predicate AuthorisedThroughout(issued: Doc, revisions: seq<Revision>, actionClass: Bytes, from: int, until: int)
    requires AllTimed(revisions)
  {
    forall at, doc | from <= at <= until && InForce(issued, revisions, at, doc) :: Authorises(doc, actionClass, from, until)
  }

  /** Each revision takes effect later than the one before it. */
  ghost predicate EffectiveInOrder(revisions: seq<Revision>) {
    AllTimed(revisions) && forall i, j | 0 <= i < j < |revisions| :: Since(revisions[i]) < Since(revisions[j])
  }

  ghost predicate Inverted(interval: Interval) {
    var lo, up := MicrosOf(interval.lower), MicrosOf(interval.upper);
    lo.Some? && up.Some? && up.value < lo.value
  }

  // ----- byte order of normalised times is the order of instants

  lemma {:induction false} NtsIsMicros(t: Option<Bytes>)
    ensures NtsOf(t).Some? <==> MicrosOf(t).Some?
  {
    hide CanonicalUtc, Fraction, MicrosOfDay, DaysFromCivil, DateOf;
  }

  lemma {:induction false} AtMostIsMicros(a: Option<Bytes>, b: Option<Bytes>)
    requires NtsOf(a).Some? && NtsOf(b).Some?
    ensures MicrosOf(a).Some? && MicrosOf(b).Some?
    ensures AtMost(NtsOf(a).value, NtsOf(b).value) <==> MicrosOf(a).value <= MicrosOf(b).value
  {
    hide CanonicalUtc, Less, Fraction, MicrosOfDay, DaysFromCivil, DateOf;
    OrdersAgree(b.value, a.value);
  }

  lemma {:induction false} DocOkIff(doc: Doc, actionClass: Bytes, lo: Option<Bytes>, up: Option<Bytes>)
    requires NtsOf(lo).Some? && NtsOf(up).Some?
    ensures MicrosOf(lo).Some? && MicrosOf(up).Some?
    ensures DocOk(doc, actionClass, NtsOf(lo).value, NtsOf(up).value) <==> Authorises(doc, actionClass, MicrosOf(lo).value, MicrosOf(up).value)
  {
    hide NtsOf, MicrosOf, AtMost;
    NtsIsMicros(lo);
    NtsIsMicros(up);
    NtsIsMicros(doc.validFrom);
    NtsIsMicros(doc.validTo);
    if NtsOf(doc.validFrom).Some? && NtsOf(doc.validTo).Some? {
      AtMostIsMicros(doc.validFrom, lo);
      AtMostIsMicros(up, doc.validTo);
    }
  }

  lemma {:induction false} TimedIff(revisions: seq<Revision>)
    ensures Timed(revisions) <==> AllTimed(revisions)
  {
    hide NtsOf, MicrosOf;
    forall i | 0 <= i < |revisions| ensures NtsOf(revisions[i].doc.effectiveTs).Some? <==> MicrosOf(revisions[i].doc.effectiveTs).Some? {
      NtsIsMicros(revisions[i].doc.effectiveTs);
    }
  }

  lemma {:induction false} RevocationIff(revocations: seq<Revocation>, grantId: Bytes, up: Option<Bytes>)
    requires NtsOf(up).Some?
    ensures MicrosOf(up).Some?
    ensures !RevokedBy(revocations, grantId, NtsOf(up).value) <==>
            forall r | r in revocations && r.grantId == grantId :: MicrosOf(r.effectiveTs).Some? && MicrosOf(up).value < MicrosOf(r.effectiveTs).value
  {
    hide NtsOf, MicrosOf, AtMost;
    NtsIsMicros(up);
    forall r: Revocation
      ensures NtsOf(r.effectiveTs).Some? <==> MicrosOf(r.effectiveTs).Some?
      ensures NtsOf(r.effectiveTs).Some? ==> (AtMost(NtsOf(r.effectiveTs).value, NtsOf(up).value) <==> MicrosOf(r.effectiveTs).value <= MicrosOf(up).value)
    {
      NtsIsMicros(r.effectiveTs);
      if NtsOf(r.effectiveTs).Some? {
        AtMostIsMicros(r.effectiveTs, up);
      }
    }
  }

  // ----- the finite check reaches every instant

  /** Exactly one document is in force at an instant. */
  lemma {:induction false} OneInForce(issued: Doc, revisions: seq<Revision>, at: int) returns (doc: Doc)
    requires AllTimed(revisions)
    ensures forall d :: InForce(issued, revisions, at, d) <==> d == doc
  {
    hide MicrosOf;
    var i := |revisions|;
    while i > 0 && at < Since(revisions[i - 1])
      invariant 0 <= i <= |revisions|
      invariant forall j | i <= j < |revisions| :: at < Since(revisions[j])
    {
      i := i - 1;
    }
    if i == 0 {
      doc := issued;
    } else {
      doc := revisions[i - 1].doc;
      assert Latest(revisions, at, i - 1);
    }
  }

  /** The replay's document at a stamp is the one in force at its instant. */
  lemma {:induction false} EffectiveIsInForce(issued: Doc, revisions: seq<Revision>, t: Option<Bytes>)
    requires Timed(revisions) && AllTimed(revisions) && NtsOf(t).Some? && MicrosOf(t).Some?
    ensures InForce(issued, revisions, MicrosOf(t).value, EffectiveAt(issued, revisions, NtsOf(t).value))
  {
    hide NtsOf, MicrosOf, AtMost;
    if revisions != [] {
      var last := |revisions| - 1;
      AtMostIsMicros(revisions[last].doc.effectiveTs, t);
      if AtMost(EffectiveFrom(revisions[last]), NtsOf(t).value) {
        assert Latest(revisions, MicrosOf(t).value, last);
      } else {
        EffectiveIsInForce(issued, revisions[..last], t);
        InForceExtends(issued, revisions, MicrosOf(t).value, EffectiveAt(issued, revisions[..last], NtsOf(t).value));
      }
    }
  }

  lemma {:induction false} InForceExtends(issued: Doc, revisions: seq<Revision>, at: int, doc: Doc)
    requires revisions != [] && AllTimed(revisions) && at < Since(revisions[|revisions| - 1])
    requires AllTimed(revisions[..|revisions| - 1]) && InForce(issued, revisions[..|revisions| - 1], at, doc)
    ensures InForce(issued, revisions, at, doc)
  {
    hide MicrosOf;
    var init := revisions[..|revisions| - 1];
    if i :| 0 <= i < |init| && Latest(init, at, i) && doc == init[i].doc {
      assert Latest(revisions, at, i);
    }
  }

  ghost predicate CheckedDocs(issued: Doc, revisions: seq<Revision>, actionClass: Bytes, lo: Bytes, up: Bytes)
    requires Timed(revisions)
  {
    && DocOk(EffectiveAt(issued, revisions, lo), actionClass, lo, up)
    && forall i | 0 <= i < |revisions| :: TakesEffectWithin(revisions[i], lo, up) ==> DocOk(revisions[i].doc, actionClass, lo, up)
  }

  lemma {:induction false} WithinIff(r: Revision, lo: Option<Bytes>, up: Option<Bytes>)
    requires NtsOf(lo).Some? && NtsOf(up).Some? && NtsOf(r.doc.effectiveTs).Some?
    ensures MicrosOf(lo).Some? && MicrosOf(up).Some? && MicrosOf(r.doc.effectiveTs).Some?
    ensures TakesEffectWithin(r, NtsOf(lo).value, NtsOf(up).value) <==> MicrosOf(lo).value < Since(r) <= MicrosOf(up).value
  {
    hide NtsOf, MicrosOf, Less;
    AtMostIsMicros(r.doc.effectiveTs, lo);
    AtMostIsMicros(r.doc.effectiveTs, up);
  }

  /** The documents checked authorise at every instant of the interval, although only finitely many are checked. */
  lemma {:induction false} CoverReachesEveryInstant(issued: Doc, revisions: seq<Revision>, actionClass: Bytes, lo: Option<Bytes>, up: Option<Bytes>)
    requires Timed(revisions) && AllTimed(revisions) && NtsOf(lo).Some? && NtsOf(up).Some? && MicrosOf(lo).Some? && MicrosOf(up).Some?
    requires CheckedDocs(issued, revisions, actionClass, NtsOf(lo).value, NtsOf(up).value)
    ensures AuthorisedThroughout(issued, revisions, actionClass, MicrosOf(lo).value, MicrosOf(up).value)
  {
    hide NtsOf, MicrosOf, DocOk, EffectiveAt, Authorises, TakesEffectWithin;
    var from, until := MicrosOf(lo).value, MicrosOf(up).value;
    EffectiveIsInForce(issued, revisions, lo);
    var first := OneInForce(issued, revisions, from);
    DocOkIff(first, actionClass, lo, up);
    forall at, doc | from <= at <= until && InForce(issued, revisions, at, doc) ensures Authorises(doc, actionClass, from, until) {
      if doc != first {
        var i := NewlyInForce(issued, revisions, from, at, doc);
        WithinIff(revisions[i], lo, up);
        DocOkIff(doc, actionClass, lo, up);
      }
    }
  }

  /** A document in force at an instant was in force at any earlier one, or is a revision that took effect since. */
  lemma {:induction false} NewlyInForce(issued: Doc, revisions: seq<Revision>, from: int, at: int, doc: Doc) returns (i: nat)
    requires AllTimed(revisions) && from <= at && InForce(issued, revisions, at, doc) && !InForce(issued, revisions, from, doc)
    ensures i < |revisions| && doc == revisions[i].doc && from < Since(revisions[i]) <= at
  {
    hide MicrosOf;
    assert exists j | 0 <= j < |revisions| :: Latest(revisions, at, j) && doc == revisions[j].doc;
    i :| 0 <= i < |revisions| && Latest(revisions, at, i) && doc == revisions[i].doc;
    assert Since(revisions[i]) <= from ==> Latest(revisions, from, i);
  }

  lemma {:induction false} GapIsAnInstant(issued: Doc, revisions: seq<Revision>, actionClass: Bytes, lo: Option<Bytes>, up: Option<Bytes>)
    requires Timed(revisions) && EffectiveInOrder(revisions) && NtsOf(lo).Some? && NtsOf(up).Some? && MicrosOf(lo).Some? && MicrosOf(up).Some?
    requires MicrosOf(lo).value <= MicrosOf(up).value
    requires AuthorisedThroughout(issued, revisions, actionClass, MicrosOf(lo).value, MicrosOf(up).value)
    ensures CheckedDocs(issued, revisions, actionClass, NtsOf(lo).value, NtsOf(up).value)
  {
    hide NtsOf, MicrosOf, DocOk, EffectiveAt, Authorises, TakesEffectWithin;
    var from, until := MicrosOf(lo).value, MicrosOf(up).value;
    EffectiveIsInForce(issued, revisions, lo);
    DocOkIff(EffectiveAt(issued, revisions, NtsOf(lo).value), actionClass, lo, up);
    forall i | 0 <= i < |revisions| && TakesEffectWithin(revisions[i], NtsOf(lo).value, NtsOf(up).value)
      ensures DocOk(revisions[i].doc, actionClass, NtsOf(lo).value, NtsOf(up).value)
    {
      WithinIff(revisions[i], lo, up);
      assert Latest(revisions, Since(revisions[i]), i);
      assert InForce(issued, revisions, Since(revisions[i]), revisions[i].doc);
      DocOkIff(revisions[i].doc, actionClass, lo, up);
    }
  }

  lemma {:induction false} CoverIff(issued: Doc, revisions: seq<Revision>, actionClass: Bytes, lo: Option<Bytes>, up: Option<Bytes>)
    requires Timed(revisions) && AllTimed(revisions) && NtsOf(lo).Some? && NtsOf(up).Some? && MicrosOf(lo).Some? && MicrosOf(up).Some?
    ensures CheckedDocs(issued, revisions, actionClass, NtsOf(lo).value, NtsOf(up).value)
            ==> AuthorisedThroughout(issued, revisions, actionClass, MicrosOf(lo).value, MicrosOf(up).value)
    ensures EffectiveInOrder(revisions) && MicrosOf(lo).value <= MicrosOf(up).value
            && AuthorisedThroughout(issued, revisions, actionClass, MicrosOf(lo).value, MicrosOf(up).value)
            ==> CheckedDocs(issued, revisions, actionClass, NtsOf(lo).value, NtsOf(up).value)
  {
    hide NtsOf, MicrosOf, CheckedDocs, AuthorisedThroughout, EffectiveInOrder;
    if CheckedDocs(issued, revisions, actionClass, NtsOf(lo).value, NtsOf(up).value) {
      CoverReachesEveryInstant(issued, revisions, actionClass, lo, up);
    } else if EffectiveInOrder(revisions) && MicrosOf(lo).value <= MicrosOf(up).value
              && AuthorisedThroughout(issued, revisions, actionClass, MicrosOf(lo).value, MicrosOf(up).value) {
      GapIsAnInstant(issued, revisions, actionClass, lo, up);
    }
  }

  // ----- the grant at a leaf

  /** The interval is the one the records and the chain prove for the leaf. */
  ghost predicate ProvenInterval(records: seq<TimeRecord>, chain: seq<Presented>, leaf: int, interval: Interval) {
    exists times, rows :: Earliest(records, times) && Clamped(times, chain, rows) && interval == IntervalAt(rows, leaf)
  }

  /** A proven interval is never inverted, so the every-instant promise is never empty. */
  lemma {:induction false} ProvenIntervalHasInstants(records: seq<TimeRecord>, chain: seq<Presented>, leaf: int, interval: Interval)
    requires ProvenInterval(records, chain, leaf, interval)
    ensures interval.lower.Some? && interval.upper.Some? ==> MicrosOf(interval.lower).Some? && MicrosOf(interval.upper).Some?
    ensures !Inverted(interval)
  {
    hide Nts, UtcEpochMicros, AtMost, Earliest, Clamped, IntervalAt;
    var times, rows :| Earliest(records, times) && Clamped(times, chain, rows) && interval == IntervalAt(rows, leaf);
    EarliestValid(records, times);
    IntervalsOrdered(times, chain, rows, leaf, leaf);
    if interval.lower.Some? && interval.upper.Some? {
      AtMostIsMicros(interval.lower, interval.upper);
    }
  }

  /** From the time records, the checkpoint chain and the intent's leaf to the answer: a verified grant was
      authority at every instant of a proven interval, which has at least one, and when revisions take effect in
      version order it is verified exactly then. */
  method GrantVerifiedAtLeaf(anchors: seq<TimeRecord>, stamps: seq<TimeRecord>, chain: seq<Presented>, leaf: int, grantId: Bytes, issued: Doc,
                             revisions: seq<Revision>, revocations: seq<Revocation>, actionClass: Bytes) returns (ok: bool, interval: Interval)
    ensures ProvenInterval(anchors + stamps, chain, leaf, interval) && !Inverted(interval)
    ensures ok ==> GrantCovers(grantId, issued, revisions, revocations, actionClass, interval)
    ensures EffectiveInOrder(revisions) ==> (ok <==> GrantCovers(grantId, issued, revisions, revocations, actionClass, interval))
  {
    hide Nts, Earliest, Clamped, IntervalAt, EffectiveInOrder, GrantCovers, Inverted;
    var times := IndependentTimes(anchors, stamps);
    var rows := ClampedTimes(times, chain);
    EarliestValid(anchors + stamps, times);
    ClampedOrdered(times, chain, rows);
    interval := IntervalFor(rows, leaf);
    assert ProvenInterval(anchors + stamps, chain, leaf, interval);
    ProvenIntervalHasInstants(anchors + stamps, chain, leaf, interval);
    ok := GrantChainVerified(grantId, issued, revisions, revocations, actionClass, interval);
  }

  // ----- mandates

  datatype Transfer = NoTransfer | From(key: Bytes) | NotText

  datatype Grant = Grant(hash: Bytes, transfer: Transfer)

  /** Grants by receipt hash; of two with one hash the later is kept. */
  function ByHash(grants: seq<Grant>): map<Bytes, Grant> {
    if grants == [] then map[]
    else
      var last := |grants| - 1;
      ByHash(grants[..last])[grants[last].hash := grants[last]]
  }

  /** The grant at k is the last carried under its hash. */
  ghost predicate LastUnder(grants: seq<Grant>, key: Bytes, k: nat) {
    k < |grants| && grants[k].hash == key && forall j | k < j < |grants| :: grants[j].hash != key
  }

  /** The table holds exactly the hashes carried, each with the last grant carried under it. */
  lemma {:induction false} ByHashIff(grants: seq<Grant>, key: Bytes, g: Grant)
    ensures key in ByHash(grants) && ByHash(grants)[key] == g <==> exists k: nat :: LastUnder(grants, key, k) && grants[k] == g
  {
    if grants != [] {
      var last := |grants| - 1;
      ByHashIff(grants[..last], key, g);
      if grants[last].hash == key {
        assert LastUnder(grants, key, last);
      } else {
        forall k: nat | k < last ensures LastUnder(grants[..last], key, k) <==> LastUnder(grants, key, k) {
          assert grants[..last][k] == grants[k];
        }
        assert forall k: nat | LastUnder(grants, key, k) || LastUnder(grants[..last], key, k) :: k < last;
      }
    }
  }

  /** The grant n transfers up, if every reference resolves. */
  function Follow(byHash: map<Bytes, Grant>, g: Grant, n: nat): Option<Grant>
    decreases n
  {
    if n == 0 then Some(g)
    else if g.transfer.From? && g.transfer.key in byHash then Follow(byHash, byHash[g.transfer.key], n - 1)
    else None
  }

  /** Following transfers from g ends, after n of them, at an untransferred grant. */
  predicate Heads(byHash: map<Bytes, Grant>, g: Grant, n: nat, head: Grant) {
    Follow(byHash, g, n) == Some(head) && head.transfer == NoTransfer
  }

  ghost predicate HasMandate(byHash: map<Bytes, Grant>, g: Grant, id: Bytes) {
    exists n: nat, head :: Heads(byHash, g, n, head) && head.hash == id
  }

  lemma {:induction false} FollowAdds(byHash: map<Bytes, Grant>, g: Grant, m: nat, n: nat)
    ensures var mid := Follow(byHash, g, m);
            Follow(byHash, g, m + n) == if mid.Some? then Follow(byHash, mid.value, n) else None
    decreases m
  {
    if m > 0 && g.transfer.From? && g.transfer.key in byHash {
      FollowAdds(byHash, byHash[g.transfer.key], m - 1, n);
    }
  }

  /** A head has nowhere to go. */
  lemma {:induction false} HeadStops(byHash: map<Bytes, Grant>, g: Grant, n: nat, head: Grant, m: nat)
    requires Heads(byHash, g, n, head) && n < m
    ensures Follow(byHash, g, m).None?
  {
    FollowAdds(byHash, g, n, m - n);
  }

  /** A grant has at most one head. */
  lemma {:induction false} HeadUnique(byHash: map<Bytes, Grant>, g: Grant, m: nat, a: Grant, n: nat, b: Grant)
    requires Heads(byHash, g, m, a) && Heads(byHash, g, n, b)
    ensures a == b
  {
    if m < n {
      HeadStops(byHash, g, m, a, n);
    } else if n < m {
      HeadStops(byHash, g, n, b, m);
    }
  }

  /** A grant on a cycle has no head. */
  lemma {:induction false} CycleHasNoHead(byHash: map<Bytes, Grant>, g: Grant, period: nat, n: nat, head: Grant)
    requires period > 0 && Follow(byHash, g, period) == Some(g)
    ensures !Heads(byHash, g, n, head)
    decreases n
  {
    if Heads(byHash, g, n, head) {
      if n < period {
        HeadStops(byHash, g, n, head, period);
      } else {
        FollowAdds(byHash, g, period, n - period);
        CycleHasNoHead(byHash, g, period, n - period, head);
      }
    }
  }

  /** Nor has a grant that leads to one without a head. */
  lemma {:induction false} HeadsFromMiddle(byHash: map<Bytes, Grant>, g: Grant, m: nat, mid: Grant, n: nat, head: Grant)
    requires Follow(byHash, g, m) == Some(mid) && Heads(byHash, g, n, head)
    ensures m <= n && Heads(byHash, mid, n - m, head)
  {
    if n < m {
      HeadStops(byHash, g, n, head, m);
    } else {
      FollowAdds(byHash, g, m, n - m);
    }
  }

  lemma {:induction false} MandateUnique(byHash: map<Bytes, Grant>, g: Grant, id: Bytes, other: Bytes)
    requires HasMandate(byHash, g, id) && HasMandate(byHash, g, other)
    ensures id == other
  {
    var m: nat, a :| Heads(byHash, g, m, a) && a.hash == id;
    var n: nat, b :| Heads(byHash, g, n, b) && b.hash == other;
    HeadUnique(byHash, g, m, a, n, b);
  }

  /** Walks the transfers. It always ends, and finds the one mandate exactly when following the references
      reaches an untransferred grant. */
  method MandateId(issued: Grant, issuedAll: seq<Grant>) returns (id: Option<Bytes>)
    ensures id.Some? ==> forall any :: HasMandate(ByHash(issuedAll), issued, any) <==> any == id.value
    ensures id.None? ==> forall any :: !HasMandate(ByHash(issuedAll), issued, any)
  {
    hide ByHash, Follow;
    var byHash := ByHash(issuedAll);
    var cur, seen := issued, {};
    ghost var steps: nat, trail: map<Bytes, nat> := 0, map[];
    FollowStep(byHash, issued, 0, issued);
    while true
      invariant Follow(byHash, issued, steps) == Some(cur)
      invariant seen <= byHash.Keys && trail.Keys == seen
      invariant forall key | key in seen :: 0 < trail[key] <= steps && Follow(byHash, issued, trail[key]) == Some(byHash[key])
      decreases byHash.Keys - seen
    {
      FollowStep(byHash, issued, steps, cur);
      if cur.transfer == NoTransfer {
        assert Heads(byHash, issued, steps, cur);
        forall any | HasMandate(byHash, issued, any) ensures any == cur.hash {
          MandateUnique(byHash, issued, cur.hash, any);
        }
        return Some(cur.hash);
      }
      if cur.transfer == NotText {
        NoHead(byHash, issued, steps, cur);
        return None;
      }
      var key := cur.transfer.key;
      if key in seen {
        RevisitHasNoHead(byHash, issued, trail[key], steps + 1, byHash[key]);
        return None;
      }
      if key !in byHash {
        NoHead(byHash, issued, steps, cur);
        return None;
      }
      seen, trail := seen + {key}, trail[key := steps + 1];
      cur := byHash[key];
      steps := steps + 1;
    }
  }

  lemma {:induction false} FollowStep(byHash: map<Bytes, Grant>, g: Grant, n: nat, cur: Grant)
    requires n == 0 ==> cur == g
    requires n > 0 ==> Follow(byHash, g, n) == Some(cur)
    ensures Follow(byHash, g, n) == Some(cur)
    ensures Follow(byHash, g, n + 1)
         == if cur.transfer.From? && cur.transfer.key in byHash then Some(byHash[cur.transfer.key]) else None
  {
    FollowAdds(byHash, g, n, 1);
    if cur.transfer.From? && cur.transfer.key in byHash {
      assert Follow(byHash, byHash[cur.transfer.key], 0) == Some(byHash[cur.transfer.key]);
    }
  }

  lemma {:induction false} NoHead(byHash: map<Bytes, Grant>, g: Grant, steps: nat, cur: Grant)
    requires Follow(byHash, g, steps) == Some(cur) && cur.transfer != NoTransfer
    requires Follow(byHash, g, steps + 1).None?
    ensures forall any :: !HasMandate(byHash, g, any)
  {
    forall n: nat, head | Heads(byHash, g, n, head) ensures false {
      HeadsFromMiddle(byHash, g, steps, cur, n, head);
      if n > steps {
        FollowAdds(byHash, g, steps + 1, n - steps - 1);
      }
    }
  }

  lemma {:induction false} RevisitHasNoHead(byHash: map<Bytes, Grant>, g: Grant, m: nat, n: nat, mid: Grant)
    requires m < n && Follow(byHash, g, m) == Some(mid) && Follow(byHash, g, n) == Some(mid)
    ensures forall any :: !HasMandate(byHash, g, any)
  {
    FollowAdds(byHash, g, m, n - m);
    forall k: nat, head | Heads(byHash, g, k, head) ensures false {
      HeadsFromMiddle(byHash, g, m, mid, k, head);
      CycleHasNoHead(byHash, mid, n - m, k - m, head);
    }
  }

  /** A grant transferred from a carried parent has the parent's mandate, or none if it has none. */
  lemma {:induction false} TransferKeepsMandate(byHash: map<Bytes, Grant>, child: Grant, id: Bytes)
    requires child.transfer.From? && child.transfer.key in byHash
    ensures HasMandate(byHash, child, id) <==> HasMandate(byHash, byHash[child.transfer.key], id)
  {
    var parent := byHash[child.transfer.key];
    if HasMandate(byHash, child, id) {
      var n: nat, head :| Heads(byHash, child, n, head) && head.hash == id;
      assert n > 0;
      assert Heads(byHash, parent, n - 1, head);
    }
    if HasMandate(byHash, parent, id) {
      var n: nat, head :| Heads(byHash, parent, n, head) && head.hash == id;
      assert Follow(byHash, child, n + 1) == Follow(byHash, parent, n);
      assert Heads(byHash, child, n + 1, head);
    }
  }
}
