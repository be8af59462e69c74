/** Inclusion proofs that state their own tree size (verify-rs/src/b28.rs, `verify_state`): what they say
    about a tree of another size, and when the stated index is the tree's. */
module MerklePosition {
  import opened Bytes
  import opened MerkleTree
  import opened MerkleProof

  // ----- where a path leads

  /** The leaf of a `size`-leaf tree reached by walking down as to leaf i of an n-leaf tree, if the walk
      ends exactly at a leaf. */
  function Position(i: nat, n: nat, size: nat): (j: Option<nat>)
    requires i < n
    ensures j.Some? ==> j.value < size
    decreases n
  {
    if size == 0 then None
    else if n == 1 || size == 1 then if n == size then Some(0) else None
    else
      var k, m := Split(n), Split(size);
      if i < k then Position(i, k, m)
      else
        var below := Position(i - k, n - k, size - m);
        if below.Some? then Some(m + below.value) else None
  }

  lemma {:induction false} SameSides(a: seq<Side>, s: Side, b: seq<Side>, t: Side)
    ensures a + [s] == b + [t] <==> a == b && s == t
  {
    if a + [s] == b + [t] {
      assert (a + [s])[..|a|] == a && (b + [t])[..|b|] == b;
      assert (a + [s])[|a|] == s && (b + [t])[|b|] == t;
    }
  }

  /** The position is the one leaf with the same sides. */
  lemma {:induction false} PositionHasSides(i: nat, n: nat, j: nat, size: nat)
    requires i < n && j < size
    ensures Position(i, n, size) == Some(j) <==> Sides(i, n) == Sides(j, size)
    decreases n
  {
    hide Split, Sides;
    if n > 1 {
      SidesSplit(i, n);
    }
    if size > 1 {
      SidesSplit(j, size);
    }
    SidesAlone(i, n);
    SidesAlone(j, size);
    if n > 1 && size > 1 {
      var k, m := Split(n), Split(size);
      SameSides(if i < k then Sides(i, k) else Sides(i - k, n - k), if i < k then Right else Left,
                if j < m then Sides(j, m) else Sides(j - m, size - m), if j < m then Right else Left);
      if i < k && j < m {
        PositionHasSides(i, k, j, m);
      } else if i >= k && j >= m {
        PositionHasSides(i - k, n - k, j - m, size - m);
      }
    }
  }

  lemma {:induction false} SidesAlone(i: nat, n: nat)
    requires i < n
    ensures Sides(i, n) == [] <==> n == 1
  {
  }

  /** Stating the tree's own size states the tree's own index. */
  lemma {:induction false} OwnSizeOwnIndex(i: nat, n: nat)
    requires i < n
    ensures Position(i, n, n) == Some(i)
  {
    PositionHasSides(i, n, i, n);
  }

  // ----- what acceptance means at any stated size

  /** The string hashed last on the way to the claimed root. */
  function TopInput(h: Hash, entry: Bytes, i: nat, n: nat, path: seq<Digest>): Bytes
    requires i < n && |path| == |Sides(i, n)|
  {
    if n == 1 then [0] + entry
    else
      var k, last := Split(n), |path| - 1;
      if i < k then [1] + ClaimedRoot(h, LeafHash(h, entry), i, k, path[..last]) + path[last]
      else [1] + path[last] + ClaimedRoot(h, LeafHash(h, entry), i - k, n - k, path[..last])
  }

  lemma {:induction false} TopInputHashes(h: Hash, entry: Bytes, i: nat, n: nat, path: seq<Digest>)
    requires i < n && |path| == |Sides(i, n)|
    ensures ClaimedRoot(h, LeafHash(h, entry), i, n, path) == h(TopInput(h, entry, i, n, path))
  {
  }

  /** The string hashed last for the tree hash of a sequence. */
  function TreeInput(h: Hash, entries: seq<Bytes>): Bytes {
    if entries == [] then []
    else if |entries| == 1 then [0] + entries[0]
    else
      var m := Split(|entries|);
      [1] + TreeHash(h, entries[..m]) + TreeHash(h, entries[m..])
  }

  lemma {:induction false} TreeInputHashes(h: Hash, entries: seq<Bytes>)
    ensures TreeHash(h, entries) == h(TreeInput(h, entries))
  {
    hide Split, Doubled;
    if |entries| > 1 {
      var m := Split(|entries|);
      assert Leaves(h, entries)[..m] == Leaves(h, entries[..m]);
      assert Leaves(h, entries)[m..] == Leaves(h, entries[m..]);
    }
  }

  /** Walks the claimed path and the tree down together, comparing the strings hashed. */
  function LeafCollision(h: Hash, entry: Bytes, i: nat, n: nat, path: seq<Digest>, entries: seq<Bytes>): (c: Option<(Bytes, Bytes)>)
    requires i < n && |path| == |Sides(i, n)|
    ensures c.Some? ==> IsCollision(h, c.value)
    decreases n
  {
    var deeper :=
      if n == 1 || |entries| <= 1 then None
      else
        var k, m, below := Split(n), Split(|entries|), path[..|path| - 1];
        if i < k then LeafCollision(h, entry, i, k, below, entries[..m])
        else LeafCollision(h, entry, i - k, n - k, below, entries[m..]);
    Pick(h, TopInput(h, entry, i, n, path), TreeInput(h, entries), deeper)
  }

  /** The position and the path of the entry an accepted proof is about. */
  ghost predicate Names(h: Hash, entry: Bytes, i: nat, n: nat, path: seq<Digest>, entries: seq<Bytes>)
    requires i < n
  {
    var j := Position(i, n, |entries|);
    j.Some? && entry == entries[j.value] && path == Path(h, j.value, Leaves(h, entries))
  }

  lemma {:induction false} NamesUp(h: Hash, entry: Bytes, i: nat, n: nat, below: seq<Digest>, top: Digest, entries: seq<Bytes>)
    requires i < n && n >= 2 && |entries| >= 2
    requires var k, m := Split(n), Split(|entries|);
             if i < k then Names(h, entry, i, k, below, entries[..m]) && top == TreeHash(h, entries[m..])
             else Names(h, entry, i - k, n - k, below, entries[m..]) && top == TreeHash(h, entries[..m])
    ensures Names(h, entry, i, n, below + [top], entries)
  {
    hide Split, Doubled;
    var m := Split(|entries|);
    assert Leaves(h, entries)[..m] == Leaves(h, entries[..m]);
    assert Leaves(h, entries)[m..] == Leaves(h, entries[m..]);
  }

  lemma {:induction false} TagsDiffer(a: Bytes, b: Bytes)
    ensures [0] + a != [1] + b && [0] + a != [] && [1] + b != []
    ensures [0] + a == [0] + b ==> a == b
  {
    assert ([0] + a)[0] == 0 && ([1] + b)[0] == 1;
    assert ([0] + a)[1..] == a && ([0] + b)[1..] == b;
  }

  lemma {:induction false} InputsAgree(h: Hash, entry: Bytes, i: nat, n: nat, path: seq<Digest>, entries: seq<Bytes>)
    requires i < n && |path| == |Sides(i, n)|
    requires TopInput(h, entry, i, n, path) == TreeInput(h, entries)
    ensures n == 1 <==> |entries| == 1
    ensures n == 1 ==> entry == entries[0]
    ensures n > 1 ==> |entries| > 1 && path != [] &&
                      var k, m, last := Split(n), Split(|entries|), |path| - 1;
                      if i < k then path[last] == TreeHash(h, entries[m..]) && |path[..last]| == |Sides(i, k)|
                                    && ClaimedRoot(h, LeafHash(h, entry), i, k, path[..last]) == TreeHash(h, entries[..m])
                      else path[last] == TreeHash(h, entries[..m]) && |path[..last]| == |Sides(i - k, n - k)|
                           && ClaimedRoot(h, LeafHash(h, entry), i - k, n - k, path[..last]) == TreeHash(h, entries[m..])
  {
    hide Split, Doubled, ClaimedRoot, TreeHash;
    if n == 1 {
      assert TopInput(h, entry, i, n, path)[0] == 0;
      if |entries| == 1 {
        TagsDiffer(entry, entries[0]);
      }
    } else {
      SidesSplit(i, n);
      var k, last := Split(n), |path| - 1;
      assert TopInput(h, entry, i, n, path)[0] == 1;
      if |entries| > 1 {
        var m := Split(|entries|);
        var lo, hi := TreeHash(h, entries[..m]), TreeHash(h, entries[m..]);
        if i < k {
          ConcatInjective(ClaimedRoot(h, LeafHash(h, entry), i, k, path[..last]), path[last], lo, hi);
        } else {
          ConcatInjective(path[last], ClaimedRoot(h, LeafHash(h, entry), i - k, n - k, path[..last]), lo, hi);
        }
      }
    }
  }

  lemma {:induction false} AcceptedNames(h: Hash, entry: Bytes, i: nat, n: nat, path: seq<Digest>, entries: seq<Bytes>)
    requires i < n && |path| == |Sides(i, n)|
    requires ClaimedRoot(h, LeafHash(h, entry), i, n, path) == TreeHash(h, entries)
    requires LeafCollision(h, entry, i, n, path, entries).None?
    ensures Names(h, entry, i, n, path, entries)
    decreases n
  {
    hide Split, Doubled, Sides, ClaimedRoot, TreeHash, TopInput, TreeInput, Names, Path;
    TopInputHashes(h, entry, i, n, path);
    TreeInputHashes(h, entries);
    InputsAgree(h, entry, i, n, path, entries);
    if n == 1 {
      SidesAlone(i, n);
      OnlyEntry(h, entry, entries);
    } else {
      var k, m, below, top := Split(n), Split(|entries|), path[..|path| - 1], path[|path| - 1];
      assert path == below + [top];
      if i < k {
        AcceptedNames(h, entry, i, k, below, entries[..m]);
      } else {
        AcceptedNames(h, entry, i - k, n - k, below, entries[m..]);
      }
      NamesUp(h, entry, i, n, below, top, entries);
    }
  }

  lemma {:induction false} OnlyEntry(h: Hash, entry: Bytes, entries: seq<Bytes>)
    requires |entries| == 1 && entry == entries[0]
    ensures Names(h, entry, 0, 1, [], entries)
  {
  }

  /** Whatever tree size an accepted proof states, its entry is in the tree, at the position its own index
      and size lead to, and its path is that entry's; or a collision is exhibited. */
  lemma {:induction false} InclusionAtAnySize(h: Hash, entry: Bytes, i: nat, n: nat, path: seq<Digest>, entries: seq<Bytes>)
    requires InclusionAccepts(h, LeafHash(h, entry), i, n, path, TreeHash(h, entries))
    ensures (Names(h, entry, i, n, path, entries) && entry in entries) || LeafCollision(h, entry, i, n, path, entries).Some?
  {
    hide ClaimedRoot, TreeHash;
    if LeafCollision(h, entry, i, n, path, entries).None? {
      AcceptedNames(h, entry, i, n, path, entries);
    }
  }

  /** Conversely the entry at that position is accepted under the index and size that lead to it. */
  lemma {:induction false} PositionAccepts(h: Hash, i: nat, n: nat, entries: seq<Bytes>)
    requires i < n && Position(i, n, |entries|).Some?
    ensures var j := Position(i, n, |entries|).value;
            InclusionAccepts(h, LeafHash(h, entries[j]), i, n, Path(h, j, Leaves(h, entries)), TreeHash(h, entries))
  {
    hide Sides, ClaimedRoot, Fold, Path, RootOf;
    var ns, j := Leaves(h, entries), Position(i, n, |entries|).value;
    PositionHasSides(i, n, j, |entries|);
    PathClaimsRoot(h, j, ns);
    FoldIsClaimedRoot(h, ns[j], i, n, Path(h, j, ns));
    FoldIsClaimedRoot(h, ns[j], j, |ns|, Path(h, j, ns));
  }

  /** The stated size is not checked: the last of two entries passes as entry 2 of 3. */
  lemma {:induction false} WrongSizeShiftsIndex(h: Hash, a: Bytes, b: Bytes)
    ensures InclusionAccepts(h, LeafHash(h, b), 2, 3, [LeafHash(h, a)], TreeHash(h, [a, b]))
  {
    assert Position(0, 1, 1) == Some(0) && Split(3) == 2 && Split(2) == 1;
    assert Position(2, 3, 2) == Some(1);
    var ns := Leaves(h, [a, b]);
    PositionAccepts(h, 2, 3, [a, b]);
    assert ns[..1] == [LeafHash(h, a)];
    assert Path(h, 0, ns[1..]) == [];
    assert Path(h, 1, ns) == [LeafHash(h, a)];
  }

  // ----- when the stated index is the tree's

  /** The honest path for the position a stated index and size lead to. */
  function HonestPath(h: Hash, i: nat, n: nat, entries: seq<Bytes>): (path: seq<Digest>)
    requires i < n && Position(i, n, |entries|).Some?
    ensures |path| == |Sides(i, n)|
  {
    var j := Position(i, n, |entries|).value;
    PositionHasSides(i, n, j, |entries|);
    Path(h, j, Leaves(h, entries))
  }

  lemma {:induction false} HonestSplits(h: Hash, i: nat, n: nat, entries: seq<Bytes>)
    requires i < n && n > 1 && Position(i, n, |entries|).Some?
    ensures |entries| > 1
    ensures var k, m, path, j := Split(n), Split(|entries|), HonestPath(h, i, n, entries), Position(i, n, |entries|).value;
            if i < k then && Position(i, k, m) == Some(j)
                          && path == HonestPath(h, i, k, entries[..m]) + [TreeHash(h, entries[m..])]
            else && Position(i - k, n - k, |entries| - m) == Some(j - m)
                 && path == HonestPath(h, i - k, n - k, entries[m..]) + [TreeHash(h, entries[..m])]
  {
    hide Split, Doubled, Sides, RootOf;
    var m := Split(|entries|);
    assert Leaves(h, entries)[..m] == Leaves(h, entries[..m]);
    assert Leaves(h, entries)[m..] == Leaves(h, entries[m..]);
  }

  lemma {:induction false} HonestClaim(h: Hash, i: nat, n: nat, entries: seq<Bytes>)
    requires i < n && Position(i, n, |entries|).Some?
    ensures ClaimedRoot(h, LeafHash(h, entries[Position(i, n, |entries|).value]), i, n, HonestPath(h, i, n, entries)) == TreeHash(h, entries)
  {
    hide ClaimedRoot, TreeHash;
    PositionAccepts(h, i, n, entries);
  }

  /** The walk found nothing here and went on below. */
  lemma {:induction false} CollisionBelow(h: Hash, entry: Bytes, i: nat, n: nat, below: seq<Digest>, top: Digest, entries: seq<Bytes>)
    requires i < n && n > 1 && |entries| > 1 && |below + [top]| == |Sides(i, n)|
    requires TopInput(h, entry, i, n, below + [top]) == TreeInput(h, entries)
    ensures var k, m := Split(n), Split(|entries|);
            if i < k then |below| == |Sides(i, k)|
                          && LeafCollision(h, entry, i, n, below + [top], entries) == LeafCollision(h, entry, i, k, below, entries[..m])
            else |below| == |Sides(i - k, n - k)|
                 && LeafCollision(h, entry, i, n, below + [top], entries) == LeafCollision(h, entry, i - k, n - k, below, entries[m..])
  {
    hide Split, Doubled, TopInput, TreeInput;
    assert (below + [top])[..|below|] == below;
  }

  /** On an honest path both walks hash the same strings. */
  lemma {:induction false} HonestInputs(h: Hash, i: nat, n: nat, entries: seq<Bytes>)
    requires i < n && Position(i, n, |entries|).Some?
    ensures TopInput(h, entries[Position(i, n, |entries|).value], i, n, HonestPath(h, i, n, entries)) == TreeInput(h, entries)
  {
    hide Split, ClaimedRoot, Sides, HonestPath, TreeHash, Position;
    if n == 1 {
      PositionAlone(i, n, |entries|);
    } else {
      HonestSplits(h, i, n, entries);
      var k, m, path := Split(n), Split(|entries|), HonestPath(h, i, n, entries);
      if i < k {
        assert path[..|path| - 1] == HonestPath(h, i, k, entries[..m]);
        HonestClaim(h, i, k, entries[..m]);
      } else {
        assert path[..|path| - 1] == HonestPath(h, i - k, n - k, entries[m..]);
        HonestClaim(h, i - k, n - k, entries[m..]);
      }
    }
  }

  lemma {:induction false} HonestPathHasNoCollision(h: Hash, i: nat, n: nat, entries: seq<Bytes>)
    requires i < n && Position(i, n, |entries|).Some?
    ensures LeafCollision(h, entries[Position(i, n, |entries|).value], i, n, HonestPath(h, i, n, entries), entries).None?
    decreases n
  {
    hide Split, ClaimedRoot, Sides, HonestPath, TreeHash, Position, LeafCollision, TopInput, TreeInput;
    HonestInputs(h, i, n, entries);
    if n == 1 {
      PositionAlone(i, n, |entries|);
      CollisionAlone(h, entries[0], i, HonestPath(h, i, n, entries), entries);
    } else {
      HonestSplits(h, i, n, entries);
      var k, m, entry := Split(n), Split(|entries|), entries[Position(i, n, |entries|).value];
      if i < k {
        HonestPathHasNoCollision(h, i, k, entries[..m]);
        CollisionBelow(h, entry, i, n, HonestPath(h, i, k, entries[..m]), TreeHash(h, entries[m..]), entries);
      } else {
        HonestPathHasNoCollision(h, i - k, n - k, entries[m..]);
        CollisionBelow(h, entry, i, n, HonestPath(h, i - k, n - k, entries[m..]), TreeHash(h, entries[..m]), entries);
      }
    }
  }

  lemma {:induction false} PositionAlone(i: nat, n: nat, size: nat)
    requires i < n && n == 1 && Position(i, n, size).Some?
    ensures size == 1 && Position(i, n, size) == Some(0)
  {
  }

  lemma {:induction false} CollisionAlone(h: Hash, entry: Bytes, i: nat, path: seq<Digest>, entries: seq<Bytes>)
    requires i < 1 && |path| == |Sides(i, 1)| && TopInput(h, entry, i, 1, path) == TreeInput(h, entries)
    ensures LeafCollision(h, entry, i, 1, path, entries).None?
  {
  }

  /** Every entry accepted at (i, n) against a tree of this size is that tree's entry i, or a collision is exhibited. */
  ghost predicate IndexIsBinding(i: nat, n: nat, size: nat)
    requires i < n
  {
    forall h: Hash, entry, path, entries: seq<Bytes> |
      |entries| == size && InclusionAccepts(h, LeafHash(h, entry), i, n, path, TreeHash(h, entries)) ::
      (i < size && entry == entries[i]) || LeafCollision(h, entry, i, n, path, entries).Some?
  }

  /** The stated index binds exactly when the stated size leads nowhere in the tree or to that index. */
  lemma {:induction false} IndexBindsIff(i: nat, n: nat, size: nat)
    requires i < n
    ensures IndexIsBinding(i, n, size) <==> Position(i, n, size) in {None, Some(i)}
  {
    hide Position, InclusionAccepts, LeafCollision, Path, TreeHash, Sides;
    var at := Position(i, n, size);
    if at in {None, Some(i)} {
      forall h: Hash, entry, path, entries: seq<Bytes> |
        |entries| == size && InclusionAccepts(h, LeafHash(h, entry), i, n, path, TreeHash(h, entries))
        ensures |path| == |Sides(i, n)|
        ensures (i < size && entry == entries[i]) || LeafCollision(h, entry, i, n, path, entries).Some?
      {
        AcceptedLength(h, entry, i, n, path, TreeHash(h, entries));
        InclusionAtAnySize(h, entry, i, n, path, entries);
      }
    } else {
      var j, h: Hash := at.value, (b: Bytes) => seq(32, _ => 0);
      var entries: seq<Bytes> := seq(size, k => if k == j then [1] else []);
      var path := HonestPath(h, i, n, entries);
      PositionAccepts(h, i, n, entries);
      HonestPathHasNoCollision(h, i, n, entries);
      assert entries[j] == [1] && (i < size ==> entries[i] == []);
      assert InclusionAccepts(h, LeafHash(h, entries[j]), i, n, path, TreeHash(h, entries));
    }
  }

  lemma {:induction false} AcceptedLength(h: Hash, entry: Bytes, i: nat, n: nat, path: seq<Digest>, root: Bytes)
    requires i < n && InclusionAccepts(h, LeafHash(h, entry), i, n, path, root)
    ensures |path| == |Sides(i, n)|
  {
  }
}
