/** Certificate path search (verify-rs/src/tsa.rs): an explicit-stack depth-first search that prunes a
    certificate already reached with no more CA certificates below it. */
module CertPath {
  import opened Bytes
  import opened Sorting

  /** A certificate is its DER encoding; one whose re-encoding fails has none. */
  datatype Cert = Encodable(der: Bytes) | Unencodable(id: nat)

  datatype ExtensionId = KeyUsage | SubjectAltName | BasicConstraints | ExtendedKeyUsage | NameConstraints | OtherExtension

  datatype Extension = Extension(id: ExtensionId, critical: bool)

  /** What the X.509 and signature libraries read off a certificate. */
  datatype Pki = Pki(
    subject: Cert -> Bytes,
    issuer: Cert -> Bytes,
    basicConstraints: Cert -> Option<(bool, Option<nat>)>,
    keyCertSign: Cert -> Option<bool>,
    extensions: Cert -> seq<Extension>,
    notBefore: Cert -> nat,
    notAfter: Cert -> nat,
    tbs: Cert -> Option<Bytes>,
    signatureValid: (Cert, Cert, Bytes) -> bool)

  datatype Search = Search(pki: Pki, pool: seq<Cert>, roots: Option<seq<Cert>>, at: Option<nat>)
  {
    predicate Supplied() { roots.Some? }

    function Roots(): seq<Cert> { if roots.Some? then roots.value else [] }

    predicate SelfIssued(c: Cert) { pki.subject(c) == pki.issuer(c) }

    /** Some(limit) exactly for a CA allowed to sign certificates. */
    function CaConstraint(c: Cert): Option<Option<nat>> {
      match (pki.basicConstraints(c), pki.keyCertSign(c))
      case (Some((ca, limit)), Some(sign)) => if ca && sign then Some(limit) else None
      case _ => None
    }

    predicate ProfileOk(c: Cert) {
      forall e :: e in pki.extensions(c) ==>
                    e.id != NameConstraints && (e.critical ==> e.id in {KeyUsage, SubjectAltName, BasicConstraints, ExtendedKeyUsage})
    }

    predicate InValidity(time: nat, c: Cert) {
      pki.notBefore(c) <= time <= pki.notAfter(c)
    }

    predicate CandidateOk(current: Cert, issuer: Cert, tbs: Bytes, below: nat) {
      var constraint := if Supplied() then CaConstraint(issuer) else Some(None);
      && (Supplied() ==> ProfileOk(current) && ProfileOk(issuer))
      && constraint.Some?
      && (at.Some? ==> InValidity(at.value, issuer))
      && (constraint.value.Some? ==> below <= constraint.value.value)
      && pki.signatureValid(current, issuer, tbs)
    }

    /** One when the certificate counts against a path-length limit above it. */
    function Weight(c: Cert): nat {
      if CaConstraint(c).Some? && !SelfIssued(c) then 1 else 0
    }

    // ----- the paths the search is for

    function Weights(path: seq<Cert>): nat {
      if path == [] then 0 else Weights(path[..|path| - 1]) + Weight(path[|path| - 1])
    }

    /** `issuer` is a presented certificate that may have signed `c` with `below` CA certificates up to `c`. */
    predicate Signs(c: Cert, issuer: Cert, below: nat) {
      && issuer in Roots() + pool && issuer.Encodable?
      && pki.subject(issuer) == pki.issuer(c)
      && pki.tbs(c).Some? && CandidateOk(c, issuer, pki.tbs(c).value, below)
    }

    predicate Chain(signer: Cert, path: seq<Cert>) {
      && path != [] && path[0] == signer
      && (forall i :: 0 <= i < |path| - 1 ==> path[i].Encodable? && Signs(path[i], path[i + 1], Weights(path[..i + 1])))
    }

    /** With supplied roots a path ends at one of them; without, it takes at least one step and ends
        at a self-issued certificate. */
    predicate Ends(path: seq<Cert>)
      requires path != []
    {
      var last := path[|path| - 1];
      last.Encodable? && if Supplied() then last in Roots() else |path| > 1 && SelfIssued(last)
    }

    ghost predicate PathExists(signer: Cert) {
      exists path: seq<Cert> :: path != [] && Chain(signer, path) && Ends(path)
    }

    /** Every presented certificate that encodes has an encodable body. */
    ghost predicate BodiesEncode(signer: Cert) {
      forall c | c in Universe(signer) && c.Encodable? :: pki.tbs(c).Some?
    }

    /** A path-length limit admits every smaller count: this is what makes pruning safe. */
    lemma SignsAntitone(c: Cert, issuer: Cert, below: nat, fewer: nat)
      requires Signs(c, issuer, below) && fewer <= below
      ensures Signs(c, issuer, fewer)
    {
    }

    // ----- candidates

    function Matching(current: Cert, certs: seq<Cert>): (r: seq<(Bytes, Cert)>)
      ensures forall x :: x in r <==>
                          Encodable(x.0) == x.1 && x.1 in certs && pki.subject(x.1) == pki.issuer(current)
    {
      if certs == [] then []
      else
        var rest := Matching(current, certs[1..]);
        if certs[0].Encodable? && pki.subject(certs[0]) == pki.issuer(current)
        then [(certs[0].der, certs[0])] + rest
        else rest
    }

    /** Pushes every acceptable issuer of `current`; stops early at a self-issued one in gate mode. */
    method PushCandidates(current: Cert, below: nat, stack0: seq<(Cert, nat)>) returns (done: bool, stack: seq<(Cert, nat)>)
      requires current.Encodable? && pki.tbs(current).Some?
      ensures done ==> !Supplied() && exists c :: Signs(current, c, below) && SelfIssued(c)
      ensures !done ==> |stack| >= |stack0| && stack[..|stack0|] == stack0
      ensures !done ==> forall k :: |stack0| <= k < |stack| ==> stack[k].1 == below && Signs(current, stack[k].0, below)
      ensures !done ==> forall k :: |stack0| <= k < |stack| ==> stack[k].0.Encodable? && stack[k].0 in Roots() + pool
      ensures !done ==> forall c | Signs(current, c, below) ::
                          (Supplied() || !SelfIssued(c)) && exists k :: |stack0| <= k < |stack| && stack[k] == (c, below)
    {
      hide CandidateOk, SelfIssued, Sort;
      var tbs := pki.tbs(current).value;
      var matching := Matching(current, Roots() + pool);
      var candidates := Sort(matching);
      SortMembers(matching);
      stack := stack0;
      for j := |candidates| downto 0
        invariant |stack| >= |stack0| && stack[..|stack0|] == stack0
        invariant forall k :: |stack0| <= k < |stack| ==> stack[k].1 == below && Signs(current, stack[k].0, below)
        invariant forall i :: j <= i < |candidates| && CandidateOk(current, candidates[i].1, tbs, below) ==>
                                (Supplied() || !SelfIssued(candidates[i].1)) && (candidates[i].1, below) in stack[|stack0|..]
      {
        var issuer := candidates[j].1;
        assert candidates[j] in candidates;
        if CandidateOk(current, issuer, tbs, below) {
          assert Signs(current, issuer, below);
          if !Supplied() && SelfIssued(issuer) {
            return true, stack;
          }
          ghost var before := stack[|stack0|..];
          stack := stack + [(issuer, below)];
          assert stack[|stack0|..] == before + [(issuer, below)];
        }
      }
      done := false;
      forall c | Signs(current, c, below)
        ensures (Supplied() || !SelfIssued(c)) && exists k :: |stack0| <= k < |stack| && stack[k] == (c, below)
      {
        assert (c.der, c) in matching;
        var i :| 0 <= i < |candidates| && candidates[i] == (c.der, c);
        assert (c, below) in stack[|stack0|..];
      }
    }

    // ----- what the loop maintains

    /** The ghost trail of a stack entry: a chain that ends at it and carries its count. */
    ghost predicate Trail(signer: Cert, trail: seq<Cert>, entry: (Cert, nat)) {
      Chain(signer, trail) && trail[|trail| - 1] == entry.0 && Weights(trail[..|trail| - 1]) == entry.1
    }

    lemma {:induction false} TrailExtends(signer: Cert, trail: seq<Cert>, entry: (Cert, nat), issuer: Cert)
      requires Trail(signer, trail, entry) && entry.0.Encodable?
      requires Signs(entry.0, issuer, entry.1 + Weight(entry.0))
      ensures Trail(signer, trail + [issuer], (issuer, entry.1 + Weight(entry.0)))
    {
      var longer := trail + [issuer];
      assert longer[..|trail|] == trail;
      forall i | 0 <= i < |longer| - 1
        ensures longer[i].Encodable? && Signs(longer[i], longer[i + 1], Weights(longer[..i + 1]))
      {
        assert longer[..i + 1] == trail[..i + 1];
        if i == |trail| - 1 {
          assert trail[..i + 1] == trail;
        }
      }
    }

    /** Reached already, or still to be reached, with at most `d` CA certificates below. */
    ghost predicate Covered(c: Cert, d: nat, stack: seq<(Cert, nat)>, seen: map<Bytes, nat>) {
      || (c.Encodable? && c.der in seen && seen[c.der] <= d)
      || exists k :: 0 <= k < |stack| && stack[k].0 == c && stack[k].1 <= d
    }

    /** Every acceptable issuer of `c` is covered, and none of them ends the search. */
    ghost predicate Expanded(c: Cert, below: nat, stack: seq<(Cert, nat)>, seen: map<Bytes, nat>) {
      forall issuer | Signs(c, issuer, below) :: (Supplied() || !SelfIssued(issuer)) && Covered(issuer, below, stack, seen)
    }

    ghost predicate Settled(der: Bytes, stack: seq<(Cert, nat)>, seen: map<Bytes, nat>)
      requires der in seen
    {
      var c := Encodable(der);
      (Supplied() ==> c !in Roots()) && Expanded(c, seen[der] + Weight(c), stack, seen)
    }

    ghost predicate Closed(stack: seq<(Cert, nat)>, seen: map<Bytes, nat>) {
      forall der | der in seen :: Settled(der, stack, seen)
    }

    /** With nothing left on the stack, every certificate of every chain has been reached at least as well. */
    lemma {:induction false} ClosureReaches(signer: Cert, path: seq<Cert>, i: nat, seen: map<Bytes, nat>)
      requires Closed([], seen) && Covered(signer, 0, [], seen)
      requires Chain(signer, path) && i < |path|
      ensures path[i].Encodable? && path[i].der in seen && seen[path[i].der] <= Weights(path[..i])
    {
      if i > 0 {
        ClosureReaches(signer, path, i - 1, seen);
        ClosureSteps(signer, path, i - 1, seen);
      }
    }

    lemma {:induction false} ClosureSteps(signer: Cert, path: seq<Cert>, i: nat, seen: map<Bytes, nat>)
      requires Closed([], seen) && Chain(signer, path) && i + 1 < |path|
      requires path[i].Encodable? && path[i].der in seen && seen[path[i].der] <= Weights(path[..i])
      ensures Supplied() || !SelfIssued(path[i + 1])
      ensures Covered(path[i + 1], Weights(path[..i + 1]), [], seen)
    {
      hide CandidateOk, CaConstraint;
      var c: Cert := path[i];
      var below := seen[c.der] + Weight(c);
      assert path[..i + 1][..i] == path[..i];
      assert Signs(path[i], path[i + 1], Weights(path[..i + 1]));
      SignsAntitone(c, path[i + 1], Weights(path[..i + 1]), below);
      assert Settled(c.der, [], seen);
      assert Covered(path[i + 1], below, [], seen);
    }

    lemma {:induction false} ClosureRefutes(signer: Cert, seen: map<Bytes, nat>)
      requires Closed([], seen) && Covered(signer, 0, [], seen)
      ensures !PathExists(signer)
    {
      forall path: seq<Cert> | Chain(signer, path) && Ends(path) ensures false {
        var last := |path| - 1;
        if Supplied() {
          ClosureReaches(signer, path, last, seen);
        } else {
          ClosureReaches(signer, path, last - 1, seen);
          ClosureSteps(signer, path, last - 1, seen);
        }
      }
    }

    lemma {:induction false} UnencodableRefutes(signer: Cert)
      requires signer.Unencodable?
      ensures !PathExists(signer)
    {
      forall path: seq<Cert> | Chain(signer, path) && Ends(path) ensures false {
      }
    }

    lemma {:induction false} Start(signer: Cert)
      ensures Trail(signer, [signer], (signer, 0))
      ensures Closed([(signer, 0)], map[]) && Covered(signer, 0, [(signer, 0)], map[])
    {
      assert [signer][..0] == [] && [(signer, 0)][0].0 == signer;
    }

    lemma {:induction false} CoverageKept(entry: (Cert, nat), stack: seq<(Cert, nat)>, longer: seq<(Cert, nat)>,
                                          seen: map<Bytes, nat>, c: Cert, d: nat)
      requires entry.0.Encodable?
      requires |stack| <= |longer| && longer[..|stack|] == stack
      requires Covered(c, d, stack + [entry], seen)
      ensures var der := entry.0.der;
              && (der in seen && seen[der] <= entry.1 ==> Covered(c, d, longer, seen))
              && ((der in seen ==> entry.1 < seen[der]) ==> Covered(c, d, longer, seen[der := entry.1]))
    {
      var before := stack + [entry];
      if !(c.Encodable? && c.der in seen && seen[c.der] <= d) {
        var k :| 0 <= k < |before| && before[k].0 == c && before[k].1 <= d;
        if k < |stack| {
          assert longer[k] == longer[..|stack|][k] == before[k];
        }
      }
    }

    /** Dropping an entry that is already dominated loses nothing. */
    lemma {:induction false} PruneKeepsClosed(entry: (Cert, nat), stack: seq<(Cert, nat)>, seen: map<Bytes, nat>)
      requires entry.0.Encodable? && entry.0.der in seen && seen[entry.0.der] <= entry.1
      requires Closed(stack + [entry], seen)
      ensures Closed(stack, seen)
    {
      forall der | der in seen ensures Settled(der, stack, seen) {
        var c := Encodable(der);
        var below := seen[der] + Weight(c);
        assert Settled(der, stack + [entry], seen);
        forall issuer | Signs(c, issuer, below) ensures Covered(issuer, below, stack, seen) {
          CoverageKept(entry, stack, stack, seen, issuer, below);
        }
      }
    }

    /** Expanding an entry with a new best count keeps every earlier certificate expanded. */
    lemma {:induction false} ExpandKeepsClosed(entry: (Cert, nat), stack: seq<(Cert, nat)>, longer: seq<(Cert, nat)>,
                                               seen: map<Bytes, nat>, after: map<Bytes, nat>)
      requires entry.0.Encodable? && (entry.0.der in seen ==> entry.1 < seen[entry.0.der])
      requires after == seen[entry.0.der := entry.1]
      requires |stack| <= |longer| && longer[..|stack|] == stack
      requires Closed(stack + [entry], seen)
      requires Supplied() ==> entry.0 !in Roots()
      requires Expanded(entry.0, entry.1 + Weight(entry.0), longer, after)
      ensures Closed(longer, after)
    {
      hide Signs, CaConstraint;
      forall der | der in after ensures Settled(der, longer, after) {
        if der != entry.0.der {
          var c := Encodable(der);
          var below := seen[der] + Weight(c);
          assert Settled(der, stack + [entry], seen);
          forall issuer | Signs(c, issuer, below) ensures Covered(issuer, below, longer, after) {
            CoverageKept(entry, stack, longer, seen, issuer, below);
          }
        }
      }
    }

    // ----- termination

    function Universe(signer: Cert): seq<Cert> { [signer] + (Roots() + pool) }

    static ghost function Unseen(universe: seq<Cert>, seen: map<Bytes, nat>): set<Cert> {
      set c | c in universe && c.Encodable? && c.der !in seen
    }

    static ghost function SeenTotal(universe: seq<Cert>, seen: map<Bytes, nat>): nat {
      if universe == [] then 0
      else (if universe[0].Encodable? && universe[0].der in seen then seen[universe[0].der] else 0) + SeenTotal(universe[1..], seen)
    }

    /** Recording a smaller count makes the total smaller. */
    static lemma {:induction false} SeenTotalDrops(universe: seq<Cert>, seen: map<Bytes, nat>, der: Bytes, d: nat)
      requires der in seen && d < seen[der]
      ensures SeenTotal(universe, seen[der := d]) <= SeenTotal(universe, seen)
      ensures Encodable(der) in universe ==> SeenTotal(universe, seen[der := d]) < SeenTotal(universe, seen)
    {
      if universe != [] {
        SeenTotalDrops(universe[1..], seen, der, d);
      }
    }

    static lemma {:induction false} UnseenDrops(universe: seq<Cert>, seen: map<Bytes, nat>, der: Bytes, d: nat)
      ensures Encodable(der) in universe && der !in seen ==> |Unseen(universe, seen[der := d])| < |Unseen(universe, seen)|
      ensures der in seen ==> Unseen(universe, seen[der := d]) == Unseen(universe, seen)
    {
      var before, after := Unseen(universe, seen), Unseen(universe, seen[der := d]);
      if Encodable(der) in universe && der !in seen {
        assert after == before - {Encodable(der)};
      } else if der in seen {
        assert after == before;
      }
    }

    /** Both ways of recording a new best count make the termination measure smaller. */
    static lemma {:induction false} MeasureDrops(universe: seq<Cert>, seen: map<Bytes, nat>, der: Bytes, d: nat)
      requires Encodable(der) in universe && (der in seen ==> d < seen[der])
      ensures var after := seen[der := d];
              || |Unseen(universe, after)| < |Unseen(universe, seen)|
              || (|Unseen(universe, after)| == |Unseen(universe, seen)| && SeenTotal(universe, after) < SeenTotal(universe, seen))
    {
      UnseenDrops(universe, seen, der, d);
      if der in seen {
        SeenTotalDrops(universe, seen, der, d);
      }
    }

    // ----- the search

    /** Every stack entry has a trail and comes from the presented certificates. */
    ghost predicate Traced(signer: Cert, stack: seq<(Cert, nat)>, trails: seq<seq<Cert>>) {
      && |trails| == |stack|
      && (forall k :: 0 <= k < |stack| ==> Trail(signer, trails[k], stack[k]))
      && (forall k :: 0 <= k < |stack| ==> stack[k].0 in Universe(signer))
      && (forall k :: 0 <= k < |stack| ==> stack[k].0 == signer || stack[k].0.Encodable?)
    }

    lemma {:induction false} TracedPush(signer: Cert, entry: (Cert, nat), trail: seq<Cert>, stack: seq<(Cert, nat)>,
                                        trails: seq<seq<Cert>>, longer: seq<(Cert, nat)>)
      returns (more: seq<seq<Cert>>)
      requires Traced(signer, stack, trails) && Trail(signer, trail, entry) && entry.0.Encodable?
      requires |stack| <= |longer| && longer[..|stack|] == stack
      requires forall k :: |stack| <= k < |longer| ==>
                             longer[k].1 == entry.1 + Weight(entry.0) && Signs(entry.0, longer[k].0, entry.1 + Weight(entry.0))
      ensures Traced(signer, longer, more)
    {
      hide CaConstraint, CandidateOk, Chain;
      more := trails + seq(|longer| - |stack|, k requires 0 <= k < |longer| - |stack| => trail + [longer[|stack| + k].0]);
      forall k | 0 <= k < |longer|
        ensures Trail(signer, more[k], longer[k]) && longer[k].0 in Universe(signer)
        ensures longer[k].0 == signer || longer[k].0.Encodable?
      {
        if k < |stack| {
          assert longer[k] == longer[..|stack|][k] == stack[k];
        } else {
          TrailExtends(signer, trail, entry, longer[k].0);
        }
      }
    }

    /** An entry that is a supplied root, or whose issuer ends the gate, completes a path. */
    lemma {:induction false} TrailCompletes(signer: Cert, trail: seq<Cert>, entry: (Cert, nat))
      requires Trail(signer, trail, entry) && entry.0.Encodable?
      ensures Supplied() && entry.0 in Roots() ==> PathExists(signer)
      ensures forall issuer | Signs(entry.0, issuer, entry.1 + Weight(entry.0)) && !Supplied() && SelfIssued(issuer) :: PathExists(signer)
    {
      if Supplied() && entry.0 in Roots() {
        assert Ends(trail);
      }
      forall issuer | Signs(entry.0, issuer, entry.1 + Weight(entry.0)) && !Supplied() && SelfIssued(issuer) ensures PathExists(signer) {
        TrailExtends(signer, trail, entry, issuer);
        assert Ends(trail + [issuer]);
      }
    }

    // ----- the answer in terms of the certificates' own members

    /** How many of the first n certificates of a path are CA certificates that did not issue themselves. */
    function CountCa(path: seq<Cert>, n: nat): nat
      requires n <= |path|
    {
      |set j | 0 <= j < n && Intermediate(path[j])|
    }

    /** No name constraints, and no critical extension other than the four understood. */
    ghost predicate Understood(c: Cert) {
      forall e | e in pki.extensions(c) ::
        e.id != NameConstraints && (e.critical ==> e.id in {KeyUsage, SubjectAltName, BasicConstraints, ExtendedKeyUsage})
    }

    /** `issuer` may sign certificates, under a path-length limit that admits `below` intermediate ones. */
    ghost predicate MayIssue(issuer: Cert, below: nat) {
      && pki.keyCertSign(issuer) == Some(true)
      && pki.basicConstraints(issuer).Some?
      && var (ca, limit) := pki.basicConstraints(issuer).value;
      ca && (limit.Some? ==> below <= limit.value)
    }

    /** Step k of the path: the next certificate is a presented one, named as the issuer, that signed this one's
        body and is in validity; for supplied roots both are understood, and it may issue above what is below. */
    ghost predicate Step(path: seq<Cert>, k: nat)
      requires k + 1 < |path|
    {
      var c, issuer := path[k], path[k + 1];
      && c.Encodable? && issuer.Encodable? && (issuer in pool || (roots.Some? && issuer in roots.value))
      && pki.subject(issuer) == pki.issuer(c)
      && pki.tbs(c).Some? && pki.signatureValid(c, issuer, pki.tbs(c).value)
      && (at.Some? ==> pki.notBefore(issuer) <= at.value && at.value <= pki.notAfter(issuer))
      && (roots.Some? ==> Understood(c) && Understood(issuer) && MayIssue(issuer, CountCa(path, k + 1)))
    }

    /** A path from the signer to a supplied root, or without roots of at least one step to a certificate that
        issued itself. */
    ghost predicate Certifies(signer: Cert, path: seq<Cert>) {
      && path != [] && path[0] == signer && path[|path| - 1].Encodable?
      && (forall k | 0 <= k < |path| - 1 :: Step(path, k))
      && var last := path[|path| - 1];
      if roots.Some? then last in roots.value else |path| > 1 && pki.subject(last) == pki.issuer(last)
    }

    /** A CA certificate that did not issue itself. */
    predicate Intermediate(c: Cert) {
      && pki.basicConstraints(c).Some? && pki.basicConstraints(c).value.0
      && pki.keyCertSign(c) == Some(true) && pki.subject(c) != pki.issuer(c)
    }

    lemma {:induction false} WeightIsIntermediate(c: Cert)
      ensures Weight(c) == if Intermediate(c) then 1 else 0
    {
    }

    lemma {:induction false} WeightsCount(path: seq<Cert>, n: nat)
      requires n <= |path|
      ensures Weights(path[..n]) == CountCa(path, n)
    {
      hide Intermediate, Weight;
      if n > 0 {
        WeightsCount(path, n - 1);
        WeightIsIntermediate(path[n - 1]);
        assert path[..n][..n - 1] == path[..n - 1];
        var before, after := set j | 0 <= j < n - 1 && Intermediate(path[j]), set j | 0 <= j < n && Intermediate(path[j]);
        assert after == if Intermediate(path[n - 1]) then before + {n - 1} else before;
      }
    }

    lemma {:induction false} MayIssueIsConstraint(issuer: Cert, below: nat)
      ensures MayIssue(issuer, below) <==>
              CaConstraint(issuer).Some? && (CaConstraint(issuer).value.Some? ==> below <= CaConstraint(issuer).value.value)
    {
    }

    lemma {:induction false} StepIsSigns(path: seq<Cert>, k: nat)
      requires k + 1 < |path|
      ensures Step(path, k) <==> path[k].Encodable? && Signs(path[k], path[k + 1], Weights(path[..k + 1]))
    {
      hide Weights, CountCa, CaConstraint, MayIssue;
      var c, issuer := path[k], path[k + 1];
      WeightsCount(path, k + 1);
      MayIssueIsConstraint(issuer, CountCa(path, k + 1));
      assert Understood(c) == ProfileOk(c) && Understood(issuer) == ProfileOk(issuer);
      assert issuer in Roots() + pool <==> issuer in pool || issuer in Roots();
    }

    /** The paths the search is for are exactly these. */
    lemma {:induction false} PathsAreCertifying(signer: Cert, path: seq<Cert>)
      ensures path != [] && Chain(signer, path) && Ends(path) <==> Certifies(signer, path)
    {
      hide Signs, Step, Weights;
      if path != [] && Chain(signer, path) {
        forall k | 0 <= k < |path| - 1 ensures Step(path, k) {
          StepIsSigns(path, k);
        }
      }
      if Certifies(signer, path) {
        forall k | 0 <= k < |path| - 1 ensures path[k].Encodable? && Signs(path[k], path[k + 1], Weights(path[..k + 1])) {
          assert Step(path, k);
          StepIsSigns(path, k);
        }
      }
    }

    lemma {:induction false} PathExistsIff(signer: Cert)
      ensures PathExists(signer) <==> exists path: seq<Cert> :: Certifies(signer, path)
    {
      hide Chain, Ends, Certifies;
      forall path: seq<Cert> ensures path != [] && Chain(signer, path) && Ends(path) <==> Certifies(signer, path) {
        PathsAreCertifying(signer, path);
      }
      if PathExists(signer) {
        var path: seq<Cert> :| path != [] && Chain(signer, path) && Ends(path);
        assert Certifies(signer, path);
      }
      if path: seq<Cert> :| Certifies(signer, path) {
        assert Chain(signer, path) && Ends(path);
      }
    }

    /** Returns true exactly when a path certifies the signer (and never otherwise, even if a body fails to
        encode). */
    method WalkChain(signer: Cert) returns (ok: bool)
      ensures ok ==> exists path: seq<Cert> :: Certifies(signer, path)
      ensures BodiesEncode(signer) ==> (ok <==> exists path: seq<Cert> :: Certifies(signer, path))
    {
      PathExistsIff(signer);
      hide Signs, Weight, Closed, Covered, Trail, Unseen, SeenTotal, PathExists, Certifies;
      var stack: seq<(Cert, nat)>, seen: map<Bytes, nat> := [(signer, 0)], map[];
      ghost var universe := Universe(signer);
      ghost var trails := [[signer]];
      Start(signer);
      while stack != []
        invariant Traced(signer, stack, trails)
        invariant signer.Encodable? ==> Closed(stack, seen) && Covered(signer, 0, stack, seen)
        decreases |Unseen(universe, seen)|, SeenTotal(universe, seen), |stack|
      {
        var top := |stack| - 1;
        var entry := stack[top];
        var (current, caBelow) := entry;
        ghost var trail := trails[top];
        assert stack == stack[..top] + [entry];
        stack, trails := stack[..top], trails[..top];
        if current.Unencodable? {
          continue;
        }
        TrailCompletes(signer, trail, entry);
        if Supplied() && current in Roots() {
          return true;
        }
        if current.der in seen && seen[current.der] <= caBelow {
          if signer.Encodable? {
            PruneKeepsClosed(entry, stack, seen);
            CoverageKept(entry, stack, stack, seen, signer, 0);
          }
          continue;
        }
        MeasureDrops(universe, seen, current.der, caBelow);
        ghost var was := seen;
        seen := seen[current.der := caBelow];
        var below := caBelow + Weight(current);
        if pki.tbs(current).None? {
          return false;
        }
        var done, longer := PushCandidates(current, below, stack);
        if done {
          return true;
        }
        trails := TracedPush(signer, entry, trail, stack, trails, longer);
        if signer.Encodable? {
          PushedExpands(current, below, stack, longer, seen);
          ExpandKeepsClosed(entry, stack, longer, was, seen);
          CoverageKept(entry, stack, longer, was, signer, 0);
        }
        stack := longer;
      }
      if signer.Encodable? {
        ClosureRefutes(signer, seen);
      } else {
        UnencodableRefutes(signer);
      }
      ok := false;
    }

    lemma {:induction false} PushedExpands(c: Cert, below: nat, stack: seq<(Cert, nat)>, longer: seq<(Cert, nat)>, seen: map<Bytes, nat>)
      requires |stack| <= |longer|
      requires forall issuer | Signs(c, issuer, below) ::
                 (Supplied() || !SelfIssued(issuer)) && exists k :: |stack| <= k < |longer| && longer[k] == (issuer, below)
      ensures Expanded(c, below, longer, seen)
    {
      hide Signs;
      forall issuer | Signs(c, issuer, below) ensures Covered(issuer, below, longer, seen) {
        var k :| |stack| <= k < |longer| && longer[k] == (issuer, below);
        assert longer[k].0 == issuer;
      }
    }
  }
}
