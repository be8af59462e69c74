/** The two bottom-up proof checkers of verify-rs/src/merkle.rs, refined against the recursive
    definitions, and what their acceptance means. */
module MerkleProof {
  import opened Bytes
  import opened MerkleTree

  // ----- specifications

  /** Acceptance of an inclusion proof, stated on the recursion of section 2.1.3.1. */
  predicate InclusionAccepts(h: Hash, leaf: Bytes, i: nat, n: nat, path: seq<Digest>, root: Bytes) {
    i < n && |leaf| == 32 && |path| == |Sides(i, n)| && ClaimedRoot(h, leaf, i, n, path) == root
  }

  /** Acceptance of a consistency proof, stated on the recursion of section 2.1.4.1. */
  predicate ConsistencyAccepts(h: Hash, m: nat, n: nat, first: Bytes, second: Bytes, proof: seq<Digest>) {
    0 < m <= n &&
    if m == n then proof == [] && first == second
    else
      |first| == 32 && |proof| == ProofLength(m, n, true) &&
      ClaimedRoots(h, m, n, proof, true, first) == (first, second)
  }

  // ----- the inclusion loop

  /** What the rest of an inclusion walk has to establish. */
  predicate WalkAccepts(h: Hash, r: Digest, fn: nat, sn: nat, rest: seq<Digest>, root: Bytes)
    requires fn <= sn
  {
    |rest| == |LevelSides(fn, sn)| && Fold(h, r, LevelSides(fn, sn), rest) == root
  }

  /** Drop the levels at which the last node of a level has no sibling. */
  method SkipPromotions(fn0: nat, sn0: nat) returns (fn: nat, sn: nat)
    requires fn0 % 2 == 1 || fn0 == sn0 > 0
    requires fn0 <= sn0
    ensures fn % 2 == 1 && fn <= sn && LevelSides(fn, sn) == LevelSides(fn0, sn0)
  {
    fn, sn := fn0, sn0;
    if fn % 2 == 0 {
      while fn % 2 == 0 && fn != 0
        invariant fn == sn > 0
        invariant LevelSides(fn, sn) == LevelSides(fn0, sn0)
      {
        assert LevelSides(fn, sn) == LevelSides(fn / 2, sn / 2);
        fn, sn := fn / 2, sn / 2;
      }
    }
  }

  lemma {:induction false} WalkStarts(h: Hash, leaf: Digest, i: nat, n: nat, proof: seq<Digest>, root: Bytes)
    requires i < n
    ensures InclusionAccepts(h, leaf, i, n, proof, root) == WalkAccepts(h, leaf, i, n - 1, proof, root)
  {
    hide ClaimedRoot, Sides, LevelSides, Fold;
    LevelSidesAreSides(i, n);
    if |proof| == |Sides(i, n)| {
      FoldIsClaimedRoot(h, leaf, i, n, proof);
    }
  }

  lemma {:induction false} WalkStep(h: Hash, r: Digest, fn0: nat, sn0: nat, side: Side, p: Digest, rest: seq<Digest>, root: Bytes, fn: nat, sn: nat)
    requires fn0 <= sn0 && fn <= sn && LevelSides(fn0, sn0) == [side] + LevelSides(fn, sn)
    ensures WalkAccepts(h, r, fn0, sn0, [p] + rest, root) == WalkAccepts(h, h(Input(side, r, p)), fn, sn, rest, root)
  {
    assert LevelSides(fn0, sn0)[1..] == LevelSides(fn, sn) && ([p] + rest)[1..] == rest;
  }

  lemma {:induction false} WalkEnds(h: Hash, r: Digest, fn: nat, sn: nat, root: Bytes)
    requires fn <= sn
    ensures WalkAccepts(h, r, fn, sn, [], root) == (sn == 0 && r == root)
    ensures sn == 0 ==> forall rest: seq<Digest> | rest != [] :: !WalkAccepts(h, r, fn, sn, rest, root)
  {
    if sn > 0 {
      LevelSidesNonEmpty(fn, sn);
    }
  }

  method VerifyInclusion(h: Hash, leafHash: Bytes, leafIndex: nat, treeSize: nat, proof: seq<Digest>, root: Bytes)
    returns (ok: bool)
    ensures ok == InclusionAccepts(h, leafHash, leafIndex, treeSize, proof, root)
  {
    if leafIndex >= treeSize || |leafHash| != 32 {
      return false;
    }
    hide InclusionAccepts, WalkAccepts, Input;
    var fn: nat, sn: nat := leafIndex, treeSize - 1;
    var r: Digest := leafHash;
    WalkStarts(h, r, leafIndex, treeSize, proof, root);
    assert proof[0..] == proof;
    for j := 0 to |proof|
      invariant fn <= sn
      invariant InclusionAccepts(h, leafHash, leafIndex, treeSize, proof, root) == WalkAccepts(h, r, fn, sn, proof[j..], root)
    {
      WalkEnds(h, r, fn, sn, root);
      if sn == 0 {
        return false;
      }
      ghost var (fn0, sn0, r0) := (fn, sn, r);
      var p := proof[j];
      assert proof[j..] == [p] + proof[j + 1..];
      if fn % 2 == 1 || fn == sn {
        r := h(Input(Left, r, p));
        fn, sn := SkipPromotions(fn, sn);
      } else {
        r := h(Input(Right, r, p));
      }
      ghost var side := if fn % 2 == 1 then Left else Right;
      fn, sn := fn / 2, sn / 2;
      WalkStep(h, r0, fn0, sn0, side, p, proof[j + 1..], root, fn, sn);
    }
    WalkEnds(h, r, fn, sn, root);
    ok := sn == 0 && r == root;
  }

  // ----- the consistency loop

  /** What the rest of a consistency walk has to establish for both running hashes. */
  predicate PairAccepts(h: Hash, fr: Digest, sr: Digest, fn: nat, sn: nat, rest: seq<Digest>, first: Bytes, second: Bytes)
    requires fn <= sn
  {
    var sides := LevelSides(fn, sn);
    |rest| == |sides| && FoldLeft(h, fr, sides, rest) == first && Fold(h, sr, sides, rest) == second
  }

  method ConsistencySeed(fn: nat, firstRoot: Bytes, proof: seq<Digest>) returns (seed: Option<Digest>, used: nat)
    ensures used <= |proof|
    ensures seed.Some? <==> if fn != 0 then proof != [] else |firstRoot| == 32
    ensures seed.Some? ==> if fn != 0 then used == 1 && seed.value == proof[0] else used == 0 && seed.value == firstRoot
  {
    if fn != 0 {
      if proof == [] {
        return None, 0;
      }
      return Some(proof[0]), 1;
    }
    if |firstRoot| != 32 {
      return None, 0;
    }
    var a: Digest := firstRoot;
    return Some(a), 0;
  }

  method ConsistencyStep(h: Hash, c: Digest, fn0: nat, sn0: nat, fr0: Digest, sr0: Digest)
    returns (ok: bool, fn: nat, sn: nat, fr: Digest, sr: Digest)
    requires fn0 <= sn0
    ensures ok == (sn0 > 0) && fn <= sn
    ensures ok ==> forall rest, first, second ::
                     PairAccepts(h, fr0, sr0, fn0, sn0, [c] + rest, first, second)
                     == PairAccepts(h, fr, sr, fn, sn, rest, first, second)
  {
    fn, sn, fr, sr := fn0, sn0, fr0, sr0;
    if sn == 0 {
      return false, fn, sn, fr, sr;
    }
    ghost var before := LevelSides(fn, sn);
    ghost var side := Left;
    if fn % 2 == 1 || fn == sn {
      fr := h(Input(Left, fr, c));
      sr := h(Input(Left, sr, c));
      fn, sn := SkipPromotions(fn, sn);
    } else {
      sr := h(Input(Right, sr, c));
      side := Right;
    }
    assert before == [side] + LevelSides(fn / 2, sn / 2);
    fn, sn := fn / 2, sn / 2;
    ok := true;
    forall rest, first, second
      ensures PairAccepts(h, fr0, sr0, fn0, sn0, [c] + rest, first, second)
           == PairAccepts(h, fr, sr, fn, sn, rest, first, second)
    {
      assert before[1..] == LevelSides(fn, sn) && ([c] + rest)[1..] == rest;
    }
  }

  /** Drop the levels at which the boundary lies between two pairs. */
  method SkipPairs(h: Hash, m0: nat, n0: nat) returns (fn: nat, sn: nat)
    requires 0 < m0 < n0
    ensures fn % 2 == 0 && fn <= sn && (fn < sn || fn == 0)
    ensures ProofLength(m0, n0, true) == ProofLength(fn + 1, sn + 1, true)
    ensures forall proof: seq<Digest>, seed | |proof| == ProofLength(m0, n0, true) ::
              ClaimedRoots(h, m0, n0, proof, true, seed) == ClaimedRoots(h, fn + 1, sn + 1, proof, true, seed)
  {
    hide ClaimedRoots, ProofLength;
    fn, sn := m0 - 1, n0 - 1;
    while fn % 2 == 1
      decreases fn
      invariant fn <= sn && (fn < sn || fn == 0)
      invariant ProofLength(m0, n0, true) == ProofLength(fn + 1, sn + 1, true)
      invariant forall proof: seq<Digest>, seed | |proof| == ProofLength(m0, n0, true) ::
                  ClaimedRoots(h, m0, n0, proof, true, seed) == ClaimedRoots(h, fn + 1, sn + 1, proof, true, seed)
    {
      RootsUp(h, fn / 2 + 1, sn + 1, sn / 2 + 1, true);
      assert 2 * (fn / 2 + 1) == fn + 1;
      fn, sn := fn / 2, sn / 2;
    }
  }

  /** Walks the remaining proof up from the seed. */
  method ConsistencyWalk(h: Hash, seed: Digest, fn0: nat, sn0: nat, rest: seq<Digest>, firstRoot: Bytes, secondRoot: Bytes)
    returns (ok: bool)
    requires fn0 <= sn0
    ensures ok == PairAccepts(h, seed, seed, fn0, sn0, rest, firstRoot, secondRoot)
  {
    var fn, sn, fr, sr := fn0, sn0, seed, seed;
    ghost var accepted := PairAccepts(h, seed, seed, fn0, sn0, rest, firstRoot, secondRoot);
    for j := 0 to |rest|
      invariant fn <= sn
      invariant accepted == PairAccepts(h, fr, sr, fn, sn, rest[j..], firstRoot, secondRoot)
    {
      assert rest[j..] == [rest[j]] + rest[j + 1..];
      var more;
      more, fn, sn, fr, sr := ConsistencyStep(h, rest[j], fn, sn, fr, sr);
      if !more {
        return false;
      }
    }
    if sn > 0 {
      LevelSidesNonEmpty(fn, sn);
    }
    ok := sn == 0 && fr == firstRoot && sr == secondRoot;
  }

  method VerifyConsistency(h: Hash, first: nat, second: nat, firstRoot: Bytes, secondRoot: Bytes, proof: seq<Digest>)
    returns (ok: bool)
    ensures ok == ConsistencyAccepts(h, first, second, firstRoot, secondRoot, proof)
  {
    hide ClaimedRoots, ProofLength, PairAccepts;
    if first > second || first == 0 {
      return false;
    }
    if first == second {
      return proof == [] && firstRoot == secondRoot;
    }
    var fn, sn := SkipPairs(h, first, second);
    var seed, used := ConsistencySeed(fn, firstRoot, proof);
    if seed == None {
      SeedNeeded(h, fn + 1, sn + 1);
      return false;
    }
    SeededWalk(h, first, second, fn, sn, firstRoot, secondRoot, proof, seed.value);
    ok := ConsistencyWalk(h, seed.value, fn, sn, proof[used..], firstRoot, secondRoot);
  }

  /** Beyond the leftmost node a proof carries at least the boundary subtree. */
  lemma {:induction false} SeedNeeded(h: Hash, m: nat, n: nat)
    requires 0 < m <= n && m % 2 == 1 && (m < n || m == 1)
    ensures m > 1 ==> ProofLength(m, n, true) > 0
  {
    var zero: Digest := seq(32, _ => 0);
    RootsAreFolds(h, m, n, if m == 1 then [] else [zero], [], true, zero);
  }

  /** Once the seed is chosen, the recursion accepts exactly when the walk from it does. */
  lemma {:induction false} SeededWalk(h: Hash, m: nat, n: nat, fn: nat, sn: nat, first: Bytes, second: Bytes,
                                      proof: seq<Digest>, seed: Digest)
    requires 0 < m < n && fn % 2 == 0 && fn <= sn && (fn < sn || fn == 0)
    requires ProofLength(m, n, true) == ProofLength(fn + 1, sn + 1, true)
    requires forall p: seq<Digest>, s | |p| == ProofLength(m, n, true) ::
               ClaimedRoots(h, m, n, p, true, s) == ClaimedRoots(h, fn + 1, sn + 1, p, true, s)
    requires if fn != 0 then proof != [] && seed == proof[0] else seed == first
    ensures ConsistencyAccepts(h, m, n, first, second, proof)
         == PairAccepts(h, seed, seed, fn, sn, proof[if fn != 0 then 1 else 0..], first, second)
  {
    hide ClaimedRoots, ProofLength, Sides, LevelSides;
    var used := if fn != 0 then 1 else 0;
    var known: Digest := if |first| == 32 then first else seq(32, _ => 0);
    LevelSidesAreSides(fn, sn + 1);
    RootsAreFolds(h, fn + 1, sn + 1, proof[..used], proof[used..], true, known);
    assert proof == proof[..used] + proof[used..];
  }

  // ----- what acceptance means

  /** Two different strings with one hash. */
  predicate IsCollision(h: Hash, c: (Bytes, Bytes)) {
    c.0 != c.1 && h(c.0) == h(c.1)
  }

  function Pick(h: Hash, a: Bytes, b: Bytes, deeper: Option<(Bytes, Bytes)>): (c: Option<(Bytes, Bytes)>)
    requires deeper.Some? ==> IsCollision(h, deeper.value)
    ensures c.Some? ==> IsCollision(h, c.value)
    ensures c.None? ==> deeper.None? && (h(a) == h(b) ==> a == b)
  {
    if a != b && h(a) == h(b) then Some((a, b)) else deeper
  }

  /** Searches the strings hashed by two audit-path evaluations for a collision. */
  function PathsCollision(h: Hash, i: nat, n: nat, x: Digest, p: seq<Digest>, y: Digest, q: seq<Digest>)
    : (c: Option<(Bytes, Bytes)>)
    requires i < n && |p| == |q| == |Sides(i, n)|
    ensures c.Some? ==> IsCollision(h, c.value)
    decreases n
  {
    if n == 1 then None
    else
      var k, last := Split(n), |p| - 1;
      if i < k then
        var (a, b) := (ClaimedRoot(h, x, i, k, p[..last]), ClaimedRoot(h, y, i, k, q[..last]));
        Pick(h, [1] + a + p[last], [1] + b + q[last], PathsCollision(h, i, k, x, p[..last], y, q[..last]))
      else
        var (a, b) := (ClaimedRoot(h, x, i - k, n - k, p[..last]), ClaimedRoot(h, y, i - k, n - k, q[..last]));
        Pick(h, [1] + p[last] + a, [1] + q[last] + b, PathsCollision(h, i - k, n - k, x, p[..last], y, q[..last]))
  }

  lemma {:induction false} ConcatInjective(a: Digest, b: Digest, c: Digest, d: Digest)
    ensures [1] + a + b == [1] + c + d ==> a == c && b == d
  {
    var s, t := [1] + a + b, [1] + c + d;
    assert s[1..33] == a && s[33..] == b;
    assert t[1..33] == c && t[33..] == d;
  }

  /** Equal roots at one position mean equal leaves and equal paths. */
  lemma {:induction false} PathsAgree(h: Hash, i: nat, n: nat, x: Digest, p: seq<Digest>, y: Digest, q: seq<Digest>)
    requires i < n && |p| == |q| == |Sides(i, n)|
    requires ClaimedRoot(h, x, i, n, p) == ClaimedRoot(h, y, i, n, q)
    requires PathsCollision(h, i, n, x, p, y, q).None?
    ensures x == y && p == q
    decreases n
  {
    hide Doubled, Split;
    if n > 1 {
      var k, last := Split(n), |p| - 1;
      var below, size := if i < k then i else i - k, if i < k then k else n - k;
      var a, b := ClaimedRoot(h, x, below, size, p[..last]), ClaimedRoot(h, y, below, size, q[..last]);
      ConcatInjective(a, p[last], b, q[last]);
      ConcatInjective(p[last], a, q[last], b);
      PathsAgree(h, below, size, x, p[..last], y, q[..last]);
      assert p == p[..last] + [p[last]] && q == q[..last] + [q[last]];
    }
  }

  /** Two acceptances at one position under one root have the same leaf and path, or exhibit a collision. */
  lemma {:induction false} InclusionUnique(h: Hash, i: nat, n: nat, root: Bytes, x: Bytes, p: seq<Digest>, y: Bytes, q: seq<Digest>)
    requires InclusionAccepts(h, x, i, n, p, root) && InclusionAccepts(h, y, i, n, q, root)
    ensures (x == y && p == q) || PathsCollision(h, i, n, x, p, y, q).Some?
  {
    if PathsCollision(h, i, n, x, p, y, q).None? {
      PathsAgree(h, i, n, x, p, y, q);
    }
  }

  lemma {:induction false} PathClaimsRoot(h: Hash, i: nat, ns: seq<Digest>)
    requires i < |ns|
    ensures ClaimedRoot(h, ns[i], i, |ns|, Path(h, i, ns)) == RootOf(h, ns)
    decreases |ns|
  {
    hide Doubled, Split;
    if |ns| > 1 {
      var k, path := Split(|ns|), Path(h, i, ns);
      if i < k {
        PathClaimsRoot(h, i, ns[..k]);
        assert path[..|path| - 1] == Path(h, i, ns[..k]);
      } else {
        PathClaimsRoot(h, i - k, ns[k..]);
        assert path[..|path| - 1] == Path(h, i - k, ns[k..]);
      }
    }
  }

  /** The generated audit path of every entry is accepted. */
  lemma {:induction false} InclusionComplete(h: Hash, i: nat, entries: seq<Bytes>)
    requires i < |entries|
    ensures InclusionAccepts(h, LeafHash(h, entries[i]), i, |entries|,
                             Path(h, i, Leaves(h, entries)), TreeHash(h, entries))
  {
    PathClaimsRoot(h, i, Leaves(h, entries));
  }

  function InclusionCollision(h: Hash, i: nat, entries: seq<Bytes>, entry: Bytes, path: seq<Digest>): (c: Option<(Bytes, Bytes)>)
    requires i < |entries| && |path| == |Sides(i, |entries|)|
    ensures c.Some? ==> IsCollision(h, c.value)
  {
    var ns := Leaves(h, entries);
    Pick(h, [0] + entry, [0] + entries[i],
         PathsCollision(h, i, |entries|, LeafHash(h, entry), path, ns[i], Path(h, i, ns)))
  }

  /** An accepted entry is the tree's entry at that index, or a collision is exhibited. */
  lemma {:induction false} InclusionSound(h: Hash, i: nat, entries: seq<Bytes>, entry: Bytes, path: seq<Digest>)
    requires InclusionAccepts(h, LeafHash(h, entry), i, |entries|, path, TreeHash(h, entries))
    ensures (entry == entries[i] && path == Path(h, i, Leaves(h, entries)))
            || InclusionCollision(h, i, entries, entry, path).Some?
  {
    var ns := Leaves(h, entries);
    PathClaimsRoot(h, i, ns);
    if InclusionCollision(h, i, entries, entry, path).None? {
      PathsAgree(h, i, |entries|, LeafHash(h, entry), path, ns[i], Path(h, i, ns));
      assert ([0] + entry)[1..] == entry && ([0] + entries[i])[1..] == entries[i];
    }
  }

  /** Searches the strings hashed by a consistency check and by the tree it is checked against. */
  function RootsCollision(h: Hash, m: nat, ns: seq<Digest>, proof: seq<Digest>, complete: bool, seed: Digest)
    : (c: Option<(Bytes, Bytes)>)
    requires 0 < m <= |ns| && |proof| == ProofLength(m, |ns|, complete)
    ensures c.Some? ==> IsCollision(h, c.value)
    decreases |ns|
  {
    if m == |ns| then None
    else
      var k, last := Split(|ns|), |proof| - 1;
      var node := [1] + RootOf(h, ns[..k]) + RootOf(h, ns[k..]);
      if m <= k then
        var (_, b) := ClaimedRoots(h, m, k, proof[..last], complete, seed);
        Pick(h, [1] + b + proof[last], node, RootsCollision(h, m, ns[..k], proof[..last], complete, seed))
      else
        var (_, b) := ClaimedRoots(h, m - k, |ns| - k, proof[..last], false, seed);
        Pick(h, [1] + proof[last] + b, node, RootsCollision(h, m - k, ns[k..], proof[..last], false, seed))
  }

  lemma {:induction false} PrefixSplits(h: Hash, k: nat, m: nat, ns: seq<Digest>)
    requires |ns| >= 2 && k == Split(|ns|) && k < m <= |ns|
    ensures RootOf(h, ns[..m]) == Node(h, RootOf(h, ns[..k]), RootOf(h, ns[k..][..m - k]))
  {
    SplitUnique(k, |ns|);
    SplitUnique(k, m);
    assert ns[..m][..k] == ns[..k] && ns[..m][k..] == ns[k..][..m - k];
  }

  /** The two strings hashed for the root over all nodes, and the search below them. */
  lemma {:induction false} RootsCollisionSplits(h: Hash, m: nat, ns: seq<Digest>, below: seq<Digest>, top: Digest, complete: bool, seed: Digest)
    requires 0 < m < |ns| && |below + [top]| == ProofLength(m, |ns|, complete)
    requires RootsCollision(h, m, ns, below + [top], complete, seed).None?
    requires ClaimedRoots(h, m, |ns|, below + [top], complete, seed).1 == RootOf(h, ns)
    ensures var k := Split(|ns|);
            if m <= k then
              && |below| == ProofLength(m, k, complete) && RootsCollision(h, m, ns[..k], below, complete, seed).None?
              && ClaimedRoots(h, m, k, below, complete, seed).1 == RootOf(h, ns[..k])
            else
              && |below| == ProofLength(m - k, |ns| - k, false) && RootsCollision(h, m - k, ns[k..], below, false, seed).None?
              && ClaimedRoots(h, m - k, |ns| - k, below, false, seed).1 == RootOf(h, ns[k..]) && top == RootOf(h, ns[..k])
  {
    hide Split, Doubled, ClaimedRoots, ProofLength, RootOf;
    var k := Split(|ns|);
    var lo, hi := RootOf(h, ns[..k]), RootOf(h, ns[k..]);
    RootSplits(h, ns);
    LengthSplits(m, |ns|, complete);
    assert (below + [top])[..|below|] == below;
    RootsStep(h, m, |ns|, below, top, complete, seed);
    if m <= k {
      ConcatInjective(ClaimedRoots(h, m, k, below, complete, seed).1, top, lo, hi);
    } else {
      ConcatInjective(top, ClaimedRoots(h, m - k, |ns| - k, below, false, seed).1, lo, hi);
    }
  }

  lemma {:induction false} RootsAtEnd(h: Hash, n: nat, proof: seq<Digest>, complete: bool, seed: Digest)
    requires 0 < n && |proof| == ProofLength(n, n, complete)
    ensures ClaimedRoots(h, n, n, proof, complete, seed).0 == ClaimedRoots(h, n, n, proof, complete, seed).1
  {
  }

  /** Claiming the true root over all nodes forces the true root over the prefix. */
  lemma {:induction false} RootsSound(h: Hash, m: nat, ns: seq<Digest>, proof: seq<Digest>, complete: bool, seed: Digest)
    requires 0 < m <= |ns| && |proof| == ProofLength(m, |ns|, complete)
    requires ClaimedRoots(h, m, |ns|, proof, complete, seed).1 == RootOf(h, ns)
    requires RootsCollision(h, m, ns, proof, complete, seed).None?
    ensures ClaimedRoots(h, m, |ns|, proof, complete, seed).0 == RootOf(h, ns[..m])
    decreases |ns|
  {
    hide Split, ProofLength, ClaimedRoots, RootsCollision, RootOf;
    if m == |ns| {
      assert ns[..m] == ns;
      RootsAtEnd(h, m, proof, complete, seed);
    } else {
      LengthSplits(m, |ns|, complete);
      var k, below, top := Split(|ns|), proof[..|proof| - 1], proof[|proof| - 1];
      assert proof == below + [top];
      RootsCollisionSplits(h, m, ns, below, top, complete, seed);
      RootsStep(h, m, |ns|, below, top, complete, seed);
      if m <= k {
        RootsSound(h, m, ns[..k], below, complete, seed);
        assert ns[..k][..m] == ns[..m];
      } else {
        RootsSound(h, m - k, ns[k..], below, false, seed);
        PrefixSplits(h, k, m, ns);
      }
    }
  }

  function ConsistencyCollision(h: Hash, m: nat, entries: seq<Bytes>, first: Bytes, proof: seq<Digest>): (c: Option<(Bytes, Bytes)>)
    ensures c.Some? ==> IsCollision(h, c.value)
  {
    if 0 < m < |entries| && |first| == 32 && |proof| == ProofLength(m, |entries|, true)
    then RootsCollision(h, m, Leaves(h, entries), proof, true, first)
    else None
  }

  /** Against a tree over `entries`, an accepted first root is the root of the first m entries,
      or a collision is exhibited. */
  lemma {:induction false} ConsistencySound(h: Hash, m: nat, entries: seq<Bytes>, first: Bytes, proof: seq<Digest>)
    requires ConsistencyAccepts(h, m, |entries|, first, TreeHash(h, entries), proof)
    ensures first == TreeHash(h, entries[..m]) || ConsistencyCollision(h, m, entries, first, proof).Some?
  {
    if m == |entries| {
      assert entries[..m] == entries;
    } else if ConsistencyCollision(h, m, entries, first, proof).None? {
      RootsSound(h, m, Leaves(h, entries), proof, true, first);
      assert Leaves(h, entries)[..m] == Leaves(h, entries[..m]);
    }
  }

  lemma {:induction false} RootSplits(h: Hash, ns: seq<Digest>)
    requires |ns| >= 2
    ensures RootOf(h, ns) == Node(h, RootOf(h, ns[..Split(|ns|)]), RootOf(h, ns[Split(|ns|)..]))
  {
  }

  lemma {:induction false} SubproofSplits(h: Hash, m: nat, ns: seq<Digest>, complete: bool)
    requires 0 < m < |ns|
    ensures var k := Split(|ns|);
            Subproof(h, m, ns, complete)
            == if m <= k then Subproof(h, m, ns[..k], complete) + [RootOf(h, ns[k..])]
               else Subproof(h, m - k, ns[k..], false) + [RootOf(h, ns[..k])]
  {
  }

  lemma {:induction false} SubproofAtEnd(h: Hash, ns: seq<Digest>, complete: bool, seed: Digest)
    requires |ns| > 0 && (complete ==> seed == RootOf(h, ns))
    ensures ClaimedRoots(h, |ns|, |ns|, Subproof(h, |ns|, ns, complete), complete, seed) == (RootOf(h, ns), RootOf(h, ns))
  {
    hide RootOf;
  }

  lemma {:induction false} SubproofClaimsRoots(h: Hash, m: nat, ns: seq<Digest>, complete: bool, seed: Digest)
    requires 0 < m <= |ns| && (complete ==> seed == RootOf(h, ns[..m]))
    ensures ClaimedRoots(h, m, |ns|, Subproof(h, m, ns, complete), complete, seed) == (RootOf(h, ns[..m]), RootOf(h, ns))
    decreases |ns|
  {
    hide Split, ProofLength, ClaimedRoots, RootOf, Subproof;
    if m == |ns| {
      assert ns[..m] == ns;
      SubproofAtEnd(h, ns, complete, seed);
    } else {
      RootSplits(h, ns);
      SubproofSplits(h, m, ns, complete);
      var k := Split(|ns|);
      if m <= k {
        assert ns[..k][..m] == ns[..m];
        SubproofClaimsRoots(h, m, ns[..k], complete, seed);
        RootsStep(h, m, |ns|, Subproof(h, m, ns[..k], complete), RootOf(h, ns[k..]), complete, seed);
      } else {
        SubproofClaimsRoots(h, m - k, ns[k..], false, seed);
        RootsStep(h, m, |ns|, Subproof(h, m - k, ns[k..], false), RootOf(h, ns[..k]), complete, seed);
        PrefixSplits(h, k, m, ns);
      }
    }
  }

  /** The generated proof is accepted for every prefix, and no proof of another length ever is. */
  lemma {:induction false} ConsistencyComplete(h: Hash, m: nat, entries: seq<Bytes>)
    requires 0 < m <= |entries|
    ensures ConsistencyAccepts(h, m, |entries|, TreeHash(h, entries[..m]), TreeHash(h, entries), ConsistencyProof(h, m, entries))
    ensures forall first, second, proof | ConsistencyAccepts(h, m, |entries|, first, second, proof) ::
              |proof| == |ConsistencyProof(h, m, entries)|
  {
    if m == |entries| {
      assert entries[..m] == entries;
    } else {
      assert Leaves(h, entries)[..m] == Leaves(h, entries[..m]);
      SubproofClaimsRoots(h, m, Leaves(h, entries), true, TreeHash(h, entries[..m]));
    }
  }
}
