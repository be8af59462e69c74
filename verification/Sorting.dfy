/** Stable sorting of keyed items by the bytewise order of their keys. */
module Sorting {
  import opened Bytes

  predicate Sorted<T>(xs: seq<(Bytes, T)>) {
    forall i, j :: 0 <= i < j < |xs| ==> AtMost(xs[i].0, xs[j].0)
  }

  predicate StrictlySorted<T>(xs: seq<(Bytes, T)>) {
    forall i, j :: 0 <= i < j < |xs| ==> Less(xs[i].0, xs[j].0)
  }

  function Insert<T>(x: (Bytes, T), xs: seq<(Bytes, T)>): seq<(Bytes, T)> {
    if xs == [] || AtMost(x.0, xs[0].0) then [x] + xs
    else [xs[0]] + Insert(x, xs[1..])
  }

  function Sort<T>(xs: seq<(Bytes, T)>): seq<(Bytes, T)> {
    if xs == [] then [] else Insert(xs[0], Sort(xs[1..]))
  }

  lemma {:induction false} InsertKeeps<T>(x: (Bytes, T), xs: seq<(Bytes, T)>)
    ensures multiset(Insert(x, xs)) == multiset{x} + multiset(xs)
    ensures |Insert(x, xs)| == |xs| + 1
  {
    if !(xs == [] || AtMost(x.0, xs[0].0)) {
      InsertKeeps(x, xs[1..]);
      assert xs == [xs[0]] + xs[1..];
    }
  }

  lemma {:induction false} SortKeeps<T>(xs: seq<(Bytes, T)>)
    ensures multiset(Sort(xs)) == multiset(xs)
    ensures |Sort(xs)| == |xs|
  {
    if xs != [] {
      SortKeeps(xs[1..]);
      InsertKeeps(xs[0], Sort(xs[1..]));
      assert xs == [xs[0]] + xs[1..];
    }
  }

  lemma {:induction false} SortMembers<T>(xs: seq<(Bytes, T)>)
    ensures |Sort(xs)| == |xs|
    ensures forall x :: x in Sort(xs) <==> x in xs
  {
    SortKeeps(xs);
    forall x ensures x in Sort(xs) <==> x in xs {
      assert x in Sort(xs) <==> x in multiset(Sort(xs));
      assert x in xs <==> x in multiset(xs);
    }
  }

  lemma {:induction false} InsertSorted<T>(x: (Bytes, T), xs: seq<(Bytes, T)>)
    requires Sorted(xs)
    ensures Sorted(Insert(x, xs))
  {
    if xs != [] {
      if AtMost(x.0, xs[0].0) {
        forall j | 0 <= j < |xs| ensures AtMost(x.0, xs[j].0) {
          if j > 0 {
            AtMostTransitive(x.0, xs[0].0, xs[j].0);
          }
        }
      } else {
        InsertSorted(x, xs[1..]);
        var rest := Insert(x, xs[1..]);
        LessAsymmetric(xs[0].0, x.0);
        forall y | y in rest ensures AtMost(xs[0].0, y.0) {
          InsertKeeps(x, xs[1..]);
          assert y in multiset(rest);
          assert y == x || y in xs[1..];
        }
      }
    }
  }

  /** Sorting permutes its input into order. */
  lemma {:induction false} SortSorts<T>(xs: seq<(Bytes, T)>)
    ensures Sorted(Sort(xs)) && multiset(Sort(xs)) == multiset(xs) && |Sort(xs)| == |xs|
  {
    SortKeeps(xs);
    if xs != [] {
      SortSorts(xs[1..]);
      InsertSorted(xs[0], Sort(xs[1..]));
    }
  }

  /** A sorted sequence is left alone. */
  lemma {:induction false} SortFixed<T>(xs: seq<(Bytes, T)>)
    requires Sorted(xs)
    ensures Sort(xs) == xs
  {
    if xs != [] {
      SortFixed(xs[1..]);
      assert xs == [xs[0]] + xs[1..];
    }
  }

  // ----- sorting only looks at keys

  function Firsts<A, B>(zs: seq<(Bytes, (A, B))>): (r: seq<(Bytes, A)>)
    ensures |r| == |zs| && forall i :: 0 <= i < |r| ==> r[i] == (zs[i].0, zs[i].1.0)
  {
    seq(|zs|, i requires 0 <= i < |zs| => (zs[i].0, zs[i].1.0))
  }

  function Seconds<A, B>(zs: seq<(Bytes, (A, B))>): (r: seq<(Bytes, B)>)
    ensures |r| == |zs| && forall i :: 0 <= i < |r| ==> r[i] == (zs[i].0, zs[i].1.1)
  {
    seq(|zs|, i requires 0 <= i < |zs| => (zs[i].0, zs[i].1.1))
  }

  lemma {:induction false} InsertZip<A, B>(z: (Bytes, (A, B)), zs: seq<(Bytes, (A, B))>)
    ensures Insert((z.0, z.1.0), Firsts(zs)) == Firsts(Insert(z, zs))
    ensures Insert((z.0, z.1.1), Seconds(zs)) == Seconds(Insert(z, zs))
  {
    if !(zs == [] || AtMost(z.0, zs[0].0)) {
      InsertZip(z, zs[1..]);
      assert Firsts(zs)[1..] == Firsts(zs[1..]) && Seconds(zs)[1..] == Seconds(zs[1..]);
    }
  }

  /** Two payloads carried along with one key stay together. */
  lemma {:induction false} SortZip<A, B>(zs: seq<(Bytes, (A, B))>)
    ensures Sort(Firsts(zs)) == Firsts(Sort(zs))
    ensures Sort(Seconds(zs)) == Seconds(Sort(zs))
  {
    if zs != [] {
      SortZip(zs[1..]);
      assert Firsts(zs)[1..] == Firsts(zs[1..]) && Seconds(zs)[1..] == Seconds(zs[1..]);
      InsertZip(zs[0], Sort(zs[1..]));
    }
  }

  // ----- distinct keys have one order

  lemma {:induction false} SameLeast<T>(xs: seq<(Bytes, T)>, ys: seq<(Bytes, T)>)
    requires StrictlySorted(xs) && Sorted(ys) && xs != [] && ys != [] && xs[0] in ys && ys[0] in xs
    ensures xs[0] == ys[0]
  {
    var i :| 0 <= i < |xs| && xs[i] == ys[0];
    var j :| 0 <= j < |ys| && ys[j] == xs[0];
    if i > 0 {
      assert Less(xs[0].0, xs[i].0);
      LessIrreflexive(xs[0].0);
    }
  }

  lemma {:induction false} Tail<T>(xs: seq<(Bytes, T)>)
    requires xs != []
    ensures xs == [xs[0]] + xs[1..] && multiset(xs[1..]) == multiset(xs) - multiset{xs[0]}
    ensures Sorted(xs) ==> Sorted(xs[1..])
    ensures StrictlySorted(xs) ==> StrictlySorted(xs[1..])
  {
    hide Less, AtMost;
    assert xs == [xs[0]] + xs[1..];
    assert multiset(xs) == multiset{xs[0]} + multiset(xs[1..]);
  }

  /** A strictly sorted sequence is the only sorted arrangement of its elements. */
  lemma {:induction false} StrictlySortedUnique<T>(xs: seq<(Bytes, T)>, ys: seq<(Bytes, T)>)
    requires StrictlySorted(xs) && Sorted(ys) && multiset(xs) == multiset(ys)
    ensures xs == ys
    decreases |xs|
  {
    hide Sorted, StrictlySorted;
    assert |xs| == |multiset(xs)| == |multiset(ys)| == |ys|;
    if xs != [] {
      assert xs[0] in multiset(ys) && ys[0] in multiset(xs);
      SameLeast(xs, ys);
      Tail(xs);
      Tail(ys);
      StrictlySortedUnique(xs[1..], ys[1..]);
    }
  }
}
