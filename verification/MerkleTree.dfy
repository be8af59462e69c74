/** The recursive tree definitions of sections 2.1.1, 2.1.3.1 and 2.1.4.1 of RFC 9162,
    and the combinatorics that let a bottom-up walk agree with them. */
module MerkleTree {
  import opened Bytes

  type Hash = Bytes -> Digest

  function Node(h: Hash, left: Digest, right: Digest): Digest {
    h([1] + left + right)
  }

  function LeafHash(h: Hash, entry: Bytes): Digest {
    h([0] + entry)
  }

  // ----- split points

  predicate PowerOfTwo(k: nat) {
    k == 1 || (k > 1 && k % 2 == 0 && PowerOfTwo(k / 2))
  }

  /** The largest power of two smaller than n. */
  function Split(n: nat): (k: nat)
    requires n >= 2
    ensures 0 < k < n <= 2 * k
  {
    Doubled(1, n)
  }

  function Doubled(k: nat, n: nat): (r: nat)
    requires 0 < k < n
    ensures k <= r < n <= 2 * r
    decreases n - k
  {
    if n <= 2 * k then k else Doubled(2 * k, n)
  }

  lemma {:induction false} DoubledIsPower(k: nat, n: nat)
    requires 0 < k < n && PowerOfTwo(k)
    ensures PowerOfTwo(Doubled(k, n))
    decreases n - k
  {
    if 2 * k < n {
      assert (2 * k) / 2 == k;
      DoubledIsPower(2 * k, n);
    }
  }

  lemma {:induction false} PowersApart(j: nat, k: nat)
    requires PowerOfTwo(j) && PowerOfTwo(k) && j < k
    ensures 2 * j <= k
  {
    if j > 1 {
      PowersApart(j / 2, k / 2);
    }
  }

  /** The bounds and being a power of two pin the split point down. */
  lemma {:induction false} SplitUnique(k: nat, n: nat)
    requires n >= 2
    ensures PowerOfTwo(Split(n))
    ensures PowerOfTwo(k) && k < n <= 2 * k ==> k == Split(n)
  {
    var s := Split(n);
    DoubledIsPower(1, n);
    if PowerOfTwo(k) && k < n <= 2 * k {
      if s < k {
        PowersApart(s, k);
      } else if k < s {
        PowersApart(k, s);
      }
    }
  }

  /** The split point of a level is twice that of the level above. */
  lemma {:induction false} SplitUp(n: nat) returns (half: nat)
    requires n > 2
    ensures 0 < half && Split(n) == 2 * half && half == Split((n + 1) / 2)
  {
    hide Doubled, Split;
    half := Split((n + 1) / 2);
    SplitUnique(half, (n + 1) / 2);
    assert PowerOfTwo(2 * half) by { assert (2 * half) / 2 == half; }
    SplitUnique(2 * half, n);
  }

  // ----- tree hashes

  /** The root over a non-empty sequence of node hashes. */
  function RootOf(h: Hash, ns: seq<Digest>): Digest
    requires |ns| >= 1
    decreases |ns|
  {
    if |ns| == 1 then ns[0]
    else
      var k := Split(|ns|);
      Node(h, RootOf(h, ns[..k]), RootOf(h, ns[k..]))
  }

  function Leaves(h: Hash, entries: seq<Bytes>): (ns: seq<Digest>)
    ensures |ns| == |entries|
    ensures forall i :: 0 <= i < |ns| ==> ns[i] == LeafHash(h, entries[i])
  {
    seq(|entries|, i requires 0 <= i < |entries| => LeafHash(h, entries[i]))
  }

  /** MTH of section 2.1.1. */
  function TreeHash(h: Hash, entries: seq<Bytes>): Digest {
    if entries == [] then h([]) else RootOf(h, Leaves(h, entries))
  }

  // ----- audit paths (section 2.1.3.1)

  /** On which side of the running hash the sibling goes. */
  datatype Side = Left | Right

  /** Sides of the path from leaf i to the root of an n-leaf tree, lowest level first. */
  function Sides(i: nat, n: nat): seq<Side>
    requires i < n
    decreases n
  {
    if n == 1 then []
    else
      var k := Split(n);
      if i < k then Sides(i, k) + [Right] else Sides(i - k, n - k) + [Left]
  }

  function Path(h: Hash, i: nat, ns: seq<Digest>): (p: seq<Digest>)
    requires i < |ns|
    ensures |p| == |Sides(i, |ns|)|
    decreases |ns|
  {
    if |ns| == 1 then []
    else
      var k := Split(|ns|);
      if i < k then Path(h, i, ns[..k]) + [RootOf(h, ns[k..])]
      else Path(h, i - k, ns[k..]) + [RootOf(h, ns[..k])]
  }

  /** The root a path claims, by the recursion of section 2.1.3.1 read top-down. */
  function ClaimedRoot(h: Hash, leaf: Digest, i: nat, n: nat, path: seq<Digest>): Digest
    requires i < n && |path| == |Sides(i, n)|
    decreases n
  {
    if n == 1 then leaf
    else
      var k, last := Split(n), |path| - 1;
      if i < k then Node(h, ClaimedRoot(h, leaf, i, k, path[..last]), path[last])
      else Node(h, path[last], ClaimedRoot(h, leaf, i - k, n - k, path[..last]))
  }

  // ----- bottom-up folding

  function Input(side: Side, x: Digest, sibling: Digest): Bytes {
    if side == Left then [1] + sibling + x else [1] + x + sibling
  }

  function Fold(h: Hash, x: Digest, sides: seq<Side>, path: seq<Digest>): Digest
    requires |sides| == |path|
    decreases |sides|
  {
    if sides == [] then x
    else Fold(h, h(Input(sides[0], x, path[0])), sides[1..], path[1..])
  }

  /** The fold that takes only the left siblings: the root of everything up to the leaf. */
  function FoldLeft(h: Hash, x: Digest, sides: seq<Side>, path: seq<Digest>): Digest
    requires |sides| == |path|
    decreases |sides|
  {
    if sides == [] then x
    else
      FoldLeft(h, if sides[0] == Left then h(Input(Left, x, path[0])) else x, sides[1..], path[1..])
  }

  lemma {:induction false} FoldAppend(h: Hash, x: Digest, sides: seq<Side>, path: seq<Digest>, side: Side, top: Digest)
    requires |sides| == |path|
    ensures Fold(h, x, sides + [side], path + [top]) == h(Input(side, Fold(h, x, sides, path), top))
    decreases |sides|
  {
    var ss, pp := sides + [side], path + [top];
    if sides == [] {
      assert ss[1..] == [] && pp[1..] == [];
    } else {
      assert ss[1..] == sides[1..] + [side] && pp[1..] == path[1..] + [top];
      FoldAppend(h, h(Input(sides[0], x, path[0])), sides[1..], path[1..], side, top);
    }
  }

  lemma {:induction false} FoldLeftAppend(h: Hash, x: Digest, sides: seq<Side>, path: seq<Digest>, side: Side, top: Digest)
    requires |sides| == |path|
    ensures FoldLeft(h, x, sides + [side], path + [top])
         == if side == Left then h(Input(Left, FoldLeft(h, x, sides, path), top)) else FoldLeft(h, x, sides, path)
    decreases |sides|
  {
    var ss, pp := sides + [side], path + [top];
    if sides == [] {
      assert ss[1..] == [] && pp[1..] == [];
    } else {
      assert ss[1..] == sides[1..] + [side] && pp[1..] == path[1..] + [top];
      FoldLeftAppend(h, if sides[0] == Left then h(Input(Left, x, path[0])) else x, sides[1..], path[1..], side, top);
    }
  }

  /** Folding upward computes the root the top-down recursion computes. */
  lemma {:induction false} FoldIsClaimedRoot(h: Hash, leaf: Digest, i: nat, n: nat, path: seq<Digest>)
    requires i < n && |path| == |Sides(i, n)|
    ensures Fold(h, leaf, Sides(i, n), path) == ClaimedRoot(h, leaf, i, n, path)
    decreases n
  {
    hide Doubled, Split;
    if n > 1 {
      var k, last := Split(n), |path| - 1;
      assert path == path[..last] + [path[last]];
      if i < k {
        FoldIsClaimedRoot(h, leaf, i, k, path[..last]);
        FoldAppend(h, leaf, Sides(i, k), path[..last], Right, path[last]);
      } else {
        FoldIsClaimedRoot(h, leaf, i - k, n - k, path[..last]);
        FoldAppend(h, leaf, Sides(i - k, n - k), path[..last], Left, path[last]);
      }
    }
  }

  // ----- one level up

  /** The sides seen by walking up level by level: fn is the node, sn the last node of the level. */
  function LevelSides(fn: nat, sn: nat): seq<Side>
    requires fn <= sn
    decreases sn
  {
    if sn == 0 then [] else Head(fn, sn) + LevelSides(fn / 2, sn / 2)
  }

  function Head(fn: nat, sn: nat): seq<Side> {
    if fn % 2 == 1 then [Left] else if fn < sn then [Right] else []
  }

  lemma {:induction false} SidesSplit(i: nat, n: nat)
    requires i < n && n >= 2
    ensures var k := Split(n); Sides(i, n) == if i < k then Sides(i, k) + [Right] else Sides(i - k, n - k) + [Left]
    ensures Sides(0, 1) == []
  {
  }

  /** The recursive definition, re-expressed one level up: node i of an n-node level is
      below node q of a u-node level. */
  lemma {:induction false} SidesUp(i: nat, n: nat, q: nat, u: nat)
    requires i < n && 2 <= n <= 2 * u <= n + 1 && 2 * q <= i <= 2 * q + 1
    ensures q < u && Sides(i, n) == Head(i, n - 1) + Sides(q, u)
    decreases n
  {
    hide Split, Sides;
    SidesSplit(i, n);
    if n > 2 {
      var half := SplitUp(n);
      assert (n + 1) / 2 == u;
      SidesSplit(q, u);
      if i < 2 * half {
        SidesUp(i, 2 * half, q, half);
        Regroup(Head(i, n - 1), Sides(q, half), Right);
      } else {
        var j, m := i - 2 * half, n - 2 * half;
        if m >= 2 {
          SidesUp(j, m, q - half, u - half);
        }
        Regroup(Head(i, n - 1), Sides(q - half, u - half), Left);
      }
    }
  }

  lemma {:induction false} Regroup(a: seq<Side>, b: seq<Side>, side: Side)
    ensures a + b + [side] == a + (b + [side])
  {
  }

  lemma {:induction false} LevelSidesAreSides(i: nat, n: nat)
    requires i < n
    ensures LevelSides(i, n - 1) == Sides(i, n)
    decreases n
  {
    hide Doubled, Split;
    if n > 1 {
      LevelSidesAreSides(i / 2, (n + 1) / 2);
      SidesUp(i, n, i / 2, (n + 1) / 2);
    }
  }

  /** A walk that stands on the last node of its level always has a left sibling higher up. */
  lemma {:induction false} LevelSidesNonEmpty(fn: nat, sn: nat)
    requires fn <= sn && sn > 0
    ensures LevelSides(fn, sn) != []
    decreases sn
  {
    if fn % 2 == 0 && fn == sn {
      LevelSidesNonEmpty(fn / 2, sn / 2);
    }
  }

  // ----- consistency proofs (section 2.1.4.1)

  function ProofLength(m: nat, n: nat, complete: bool): nat
    requires 0 < m <= n
    decreases n
  {
    if m == n then if complete then 0 else 1
    else
      var k := Split(n);
      1 + if m <= k then ProofLength(m, k, complete) else ProofLength(m - k, n - k, false)
  }

  /** SUBPROOF(m, D, b) over the leaf hashes of D. */
  function Subproof(h: Hash, m: nat, ns: seq<Digest>, complete: bool): (p: seq<Digest>)
    requires 0 < m <= |ns|
    ensures |p| == ProofLength(m, |ns|, complete)
    decreases |ns|
  {
    if m == |ns| then if complete then [] else [RootOf(h, ns)]
    else
      var k := Split(|ns|);
      if m <= k then Subproof(h, m, ns[..k], complete) + [RootOf(h, ns[k..])]
      else Subproof(h, m - k, ns[k..], false) + [RootOf(h, ns[..k])]
  }

  function ConsistencyProof(h: Hash, m: nat, entries: seq<Bytes>): seq<Digest>
    requires 0 < m <= |entries|
  {
    Subproof(h, m, Leaves(h, entries), true)
  }

  /** The pair of roots a consistency proof claims, by the same recursion read top-down:
      the root over the first m nodes and the root over all n. The boundary subtree is `seed`
      when it is complete (the verifier already knows it) and is carried by the proof otherwise. */
  function ClaimedRoots(h: Hash, m: nat, n: nat, proof: seq<Digest>, complete: bool, seed: Digest): (Digest, Digest)
    requires 0 < m <= n && |proof| == ProofLength(m, n, complete)
    decreases n
  {
    if m == n then if complete then (seed, seed) else (proof[0], proof[0])
    else
      var k, last := Split(n), |proof| - 1;
      if m <= k then
        var (a, b) := ClaimedRoots(h, m, k, proof[..last], complete, seed);
        (a, Node(h, b, proof[last]))
      else
        var (a, b) := ClaimedRoots(h, m - k, n - k, proof[..last], false, seed);
        (Node(h, proof[last], a), Node(h, proof[last], b))
  }

  /** An even boundary lies between pairs of nodes, so a proof means the same one level up. */
  lemma {:induction false} RootsUp(h: Hash, m: nat, n: nat, u: nat, complete: bool)
    requires 0 < m && 2 * m <= n <= 2 * u <= n + 1
    ensures m <= u && ProofLength(2 * m, n, complete) == ProofLength(m, u, complete)
    ensures forall proof: seq<Digest>, seed | |proof| == ProofLength(m, u, complete) ::
              ClaimedRoots(h, 2 * m, n, proof, complete, seed) == ClaimedRoots(h, m, u, proof, complete, seed)
    decreases n
  {
    hide Doubled, Split;
    if 2 * m < n {
      var half := SplitUp(n);
      assert (n + 1) / 2 == u;
      if m <= half {
        RootsUp(h, m, 2 * half, half, complete);
      } else {
        RootsUp(h, m - half, n - 2 * half, u - half, false);
      }
    }
  }

  /** The claimed roots of a proof, one split down. */
  lemma {:induction false} RootsStep(h: Hash, m: nat, n: nat, below: seq<Digest>, top: Digest, complete: bool, seed: Digest)
    requires 0 < m < n
    requires var k := Split(n); |below| == if m <= k then ProofLength(m, k, complete) else ProofLength(m - k, n - k, false)
    ensures |below + [top]| == ProofLength(m, n, complete)
    ensures var k := Split(n);
            ClaimedRoots(h, m, n, below + [top], complete, seed)
            == if m <= k then (var (a, b) := ClaimedRoots(h, m, k, below, complete, seed); (a, Node(h, b, top)))
               else (var (a, b) := ClaimedRoots(h, m - k, n - k, below, false, seed); (Node(h, top, a), Node(h, top, b)))
  {
    hide Doubled, Split;
    assert (below + [top])[..|below|] == below;
  }

  /** The two folds of one path: all siblings, and left siblings only. */
  function BothFolds(h: Hash, start: Digest, sides: seq<Side>, path: seq<Digest>): (Digest, Digest)
    requires |sides| == |path|
  {
    (FoldLeft(h, start, sides, path), Fold(h, start, sides, path))
  }

  lemma {:induction false} BothFoldsAppend(h: Hash, start: Digest, sides: seq<Side>, path: seq<Digest>, side: Side, top: Digest)
    requires |sides| == |path|
    ensures var (a, b) := BothFolds(h, start, sides, path);
            BothFolds(h, start, sides + [side], path + [top])
            == if side == Right then (a, Node(h, b, top)) else (Node(h, top, a), Node(h, top, b))
  {
    FoldAppend(h, start, sides, path, side, top);
    FoldLeftAppend(h, start, sides, path, side, top);
  }

  /** The odd boundary m of n ends on a single node: the proof is the boundary subtree, unless the verifier
      knows it, followed by that node's audit path, and the claimed roots are the two folds of it. */
  ghost predicate Folds(h: Hash, m: nat, n: nat, carried: seq<Digest>, path: seq<Digest>, complete: bool, seed: Digest)
    requires 0 < m <= n
  {
    && ProofLength(m, n, complete) == |carried| + |Sides(m - 1, n)|
    && (|path| == |Sides(m - 1, n)| ==>
          ClaimedRoots(h, m, n, carried + path, complete, seed)
          == BothFolds(h, if carried == [] then seed else carried[0], Sides(m - 1, n), path))
  }

  lemma {:induction false} FoldsAlone(h: Hash, carried: seq<Digest>, path: seq<Digest>, complete: bool, seed: Digest)
    requires |carried| == if complete then 0 else 1
    ensures Folds(h, 1, 1, carried, path, complete, seed)
  {
    assert path == [] ==> carried + path == carried;
  }

  lemma {:induction false} FoldsStep(h: Hash, m: nat, n: nat, carried: seq<Digest>, below: seq<Digest>, top: Digest, complete: bool, seed: Digest)
    requires 0 < m < n
    requires var k := Split(n);
             if m <= k then Folds(h, m, k, carried, below, complete, seed) else Folds(h, m - k, n - k, carried, below, false, seed)
    ensures Folds(h, m, n, carried, below + [top], complete, seed)
  {
    hide Split, Sides, ProofLength, ClaimedRoots, BothFolds;
    var k := Split(n);
    SidesSplit(m - 1, n);
    LengthSplits(m, n, complete);
    if |below| + 1 == |Sides(m - 1, n)| {
      assert carried + (below + [top]) == carried + below + [top];
      RootsStep(h, m, n, carried + below, top, complete, seed);
      var start := if carried == [] then seed else carried[0];
      if m <= k {
        BothFoldsAppend(h, start, Sides(m - 1, k), below, Right, top);
      } else {
        BothFoldsAppend(h, start, Sides(m - 1 - k, n - k), below, Left, top);
      }
    }
  }

  lemma {:induction false} RootsAreFolds(h: Hash, m: nat, n: nat, carried: seq<Digest>, path: seq<Digest>, complete: bool, seed: Digest)
    requires 0 < m <= n && m % 2 == 1 && (m < n || m == 1)
    requires |carried| == if complete && m == 1 then 0 else 1
    ensures Folds(h, m, n, carried, path, complete, seed)
    decreases n
  {
    hide Folds, Split;
    if n == 1 {
      FoldsAlone(h, carried, path, complete, seed);
    } else {
      var k := Split(n);
      SplitUnique(k, n);
      var some: seq<Digest> := if path == [] then [seed] else path;
      var below, top := some[..|some| - 1], some[|some| - 1];
      if m <= k {
        RootsAreFolds(h, m, k, carried, below, complete, seed);
      } else {
        RootsAreFolds(h, m - k, n - k, carried, below, false, seed);
      }
      FoldsStep(h, m, n, carried, below, top, complete, seed);
      assert some == below + [top];
      FoldsEmpty(h, m, n, carried, complete, seed, some);
    }
  }

  /** Above one node no audit path is empty. */
  lemma {:induction false} FoldsEmpty(h: Hash, m: nat, n: nat, carried: seq<Digest>, complete: bool, seed: Digest, any: seq<Digest>)
    requires 0 < m < n && Folds(h, m, n, carried, any, complete, seed)
    ensures Folds(h, m, n, carried, [], complete, seed)
  {
    SidesSplit(m - 1, n);
  }

  lemma {:induction false} LengthSplits(m: nat, n: nat, complete: bool)
    requires 0 < m < n
    ensures var k := Split(n);
            ProofLength(m, n, complete) == 1 + if m <= k then ProofLength(m, k, complete) else ProofLength(m - k, n - k, false)
  {
  }
}
