/** What the deterministic encoding guarantees: it decodes to one value, does not depend on the order
    of map entries, is prefix-free, and the iterative scan and the decoder agree with it
    (verify-rs/src/cbor_wire.rs, verify-rs/src/cbor.rs). */
module CborCanonical {
  import opened Bytes
  import opened Sorting
  import opened CborHead
  import opened CborWire
  import opened CborScan

  // ----- the value an encoding stands for: map entries in the order of their encoded keys

  function KeyBytes(k: Value, p: Profile): Bytes {
    var b := EncodeKey(k, p);
    if b.Some? then b.value else []
  }

  function Payloads<T>(xs: seq<(Bytes, T)>): (r: seq<T>)
    ensures |r| == |xs| && forall i :: 0 <= i < |r| ==> r[i] == xs[i].1
  {
    seq(|xs|, i requires 0 <= i < |xs| => xs[i].1)
  }

  function Norm(v: Value, p: Profile): Value
    decreases v, 1
  {
    match v
    case Array(items) => Array(NormAll(items, p))
    case Map(entries) => Map(Payloads(Sort(NormPairs(entries, p))))
    case _ => v
  }

  function NormAll(items: seq<Value>, p: Profile): (r: seq<Value>)
    ensures |r| == |items|
    decreases items, 0
  {
    if items == [] then [] else [Norm(items[0], p)] + NormAll(items[1..], p)
  }

  function NormEntry(e: Entry, p: Profile): (Bytes, Entry)
    decreases e
  {
    (KeyBytes(e.key, p), Entry(e.key, Norm(e.value, p)))
  }

  function NormPairs(entries: seq<Entry>, p: Profile): (r: seq<(Bytes, Entry)>)
    ensures |r| == |entries|
    decreases entries, 0
  {
    if entries == [] then [] else [NormEntry(entries[0], p)] + NormPairs(entries[1..], p)
  }

  // ----- bytes that denote a value wherever they stand

  ghost predicate At(data: Bytes, i: nat, b: Bytes) {
    i + |b| <= |data| && data[i..i + |b|] == b
  }

  ghost predicate Denotes(b: Bytes, v: Value, depth: nat) {
    b != [] && forall data, i: nat | At(data, i, b) :: Parse(data, i, depth) == Some((v, i + |b|))
  }

  ghost predicate DenotesMany(b: Bytes, vs: seq<Value>, depth: nat) {
    |b| >= |vs| && forall data, i: nat | At(data, i, b) :: ParseMany(data, i, |vs|, depth) == Some((vs, i + |b|))
  }

  lemma {:induction false} AtSplits(data: Bytes, i: nat, a: Bytes, b: Bytes)
    requires At(data, i, a + b)
    ensures At(data, i, a) && At(data, i + |a|, b)
  {
    var ab := data[i..i + |a + b|];
    assert data[i..i + |a|] == ab[..|a|] == a;
    assert data[i + |a|..i + |a| + |b|] == ab[|a|..] == b;
  }

  lemma {:induction false} NothingDenotes(depth: nat)
    ensures DenotesMany([], [], depth)
  {
  }

  lemma {:induction false} ConsDenotes(a: Bytes, v: Value, b: Bytes, vs: seq<Value>, depth: nat)
    requires Denotes(a, v, depth) && DenotesMany(b, vs, depth)
    ensures DenotesMany(a + b, [v] + vs, depth)
  {
    hide Parse;
    forall data, i: nat | At(data, i, a + b)
      ensures ParseMany(data, i, |[v] + vs|, depth) == Some(([v] + vs, i + |a + b|))
    {
      AtSplits(data, i, a, b);
      assert Parse(data, i, depth) == Some((v, i + |a|));
      assert ParseMany(data, i + |a|, |vs|, depth) == Some((vs, i + |a| + |b|));
    }
  }

  lemma {:induction false} IntDenotes(i: int, depth: nat)
    requires EncodeInt(i).Some?
    ensures Denotes(EncodeInt(i).value, Int(i), depth)
  {
    hide Head, PeekHead;
    var b := EncodeInt(i).value;
    forall data, at: nat | At(data, at, b) ensures Parse(data, at, depth) == Some((Int(i), at + |b|)) {
      HeadRoundTrip(data, at, if i >= 0 then 0 else 1, if i >= 0 then i else -1 - i);
    }
    assert |b| > 0;
  }

  lemma {:induction false} StringDenotes(major: nat, s: Bytes, depth: nat)
    requires major in {2, 3} && EncodeString(major, s).Some?
    ensures Denotes(EncodeString(major, s).value, if major == 2 then ByteString(s) else Text(s), depth)
  {
    hide Head, PeekHead;
    var head, b := Head(major, |s|), EncodeString(major, s).value;
    forall data, at: nat | At(data, at, b)
      ensures Parse(data, at, depth) == Some((if major == 2 then ByteString(s) else Text(s), at + |b|))
    {
      AtSplits(data, at, head, s);
      HeadRoundTrip(data, at, major, |s|);
    }
  }

  lemma {:induction false} KeyDenotes(k: Value, p: Profile, depth: nat)
    requires EncodeKey(k, p).Some?
    ensures Denotes(EncodeKey(k, p).value, k, depth)
  {
    hide Denotes;
    match k
    case Int(i) => IntDenotes(i, depth);
    case Text(s) => StringDenotes(3, s, depth);
  }

  lemma {:induction false} SimpleDenotes(b: byte, depth: nat)
    requires b in {0xf4, 0xf5, 0xf6}
    ensures Denotes([b], if b == 0xf6 then Null else Bool(b == 0xf5), depth)
  {
    forall data, at: nat | At(data, at, [b])
      ensures Parse(data, at, depth) == Some((if b == 0xf6 then Null else Bool(b == 0xf5), at + 1))
    {
      assert data[at] == data[at..at + 1][0] == b;
      assert PeekHead(data, at) == Some(HeadAt(7, 0, at + 1));
    }
  }

  lemma {:induction false} ArrayDenotes(b: Bytes, vs: seq<Value>, depth: nat)
    requires DenotesMany(b, vs, if depth == 0 then 0 else depth - 1) && |vs| < U64 && (depth == 0 ==> vs == [] && b == [])
    ensures Denotes(Head(4, |vs|) + b, Array(vs), depth)
  {
    hide Head, PeekHead;
    var head := Head(4, |vs|);
    forall data, at: nat | At(data, at, head + b)
      ensures Parse(data, at, depth) == Some((Array(vs), at + |head + b|))
    {
      AtSplits(data, at, head, b);
      HeadRoundTrip(data, at, 4, |vs|);
      MembersRead(data, at + |head|, b, vs, depth);
    }
  }

  lemma {:induction false} MembersRead(data: Bytes, i: nat, b: Bytes, vs: seq<Value>, depth: nat)
    requires DenotesMany(b, vs, if depth == 0 then 0 else depth - 1) && |vs| < U64 && (depth == 0 ==> vs == [] && b == [])
    requires At(data, i, b)
    ensures ParseMembers(data, i, |vs|, depth) == Some((vs, i + |b|))
  {
    hide Parse;
    var inner := if depth == 0 then 0 else depth - 1;
    assert ParseMany(data, i, |vs|, inner) == Some((vs, i + |b|));
  }

  /** Keys and values in the order they are written. */
  function Flat(entries: seq<Entry>): (r: seq<Value>)
    ensures |r| == 2 * |entries|
  {
    if entries == [] then [] else [entries[0].key] + ([entries[0].value] + Flat(entries[1..]))
  }

  lemma {:induction false} PairUpFlat(entries: seq<Entry>)
    ensures PairUp(Flat(entries)) == entries
  {
    if entries != [] {
      PairUpFlat(entries[1..]);
      assert Flat(entries)[2..] == Flat(entries[1..]);
    }
  }

  lemma {:induction false} MapDenotes(b: Bytes, entries: seq<Entry>, depth: nat)
    requires DenotesMany(b, Flat(entries), if depth == 0 then 0 else depth - 1)
    requires 2 * |entries| < U64 && (depth == 0 ==> entries == [] && b == [])
    ensures Denotes(Head(5, |entries|) + b, Map(entries), depth)
  {
    hide Head, PeekHead;
    var head := Head(5, |entries|);
    forall data, at: nat | At(data, at, head + b)
      ensures Parse(data, at, depth) == Some((Map(entries), at + |head + b|))
    {
      AtSplits(data, at, head, b);
      HeadRoundTrip(data, at, 5, |entries|);
      MembersRead(data, at + |head|, b, Flat(entries), depth);
      PairUpFlat(entries);
    }
  }

  // ----- encodings denote the normal form of their value

  /** An encoded pair beside the normal entry it stands for. */
  type Row = (Bytes, (Bytes, Entry))

  ghost predicate RowDenotes(z: Row, depth: nat) {
    Denotes(z.0, z.1.1.key, depth) && Denotes(z.1.0, z.1.1.value, depth)
  }

  lemma {:induction false} RowsDenote(zs: seq<Row>, depth: nat)
    requires forall z | z in zs :: RowDenotes(z, depth)
    ensures DenotesMany(Joined(Firsts(zs)), Flat(Payloads(Seconds(zs))), depth)
  {
    hide Denotes, DenotesMany;
    if zs == [] {
      NothingDenotes(depth);
    } else {
      var z, rest := zs[0], zs[1..];
      RowsDenote(rest, depth);
      assert RowDenotes(z, depth);
      assert Firsts(zs)[1..] == Firsts(rest) && Payloads(Seconds(zs))[1..] == Payloads(Seconds(rest));
      var tail, flat := Joined(Firsts(rest)), Flat(Payloads(Seconds(rest)));
      ConsDenotes(z.1.0, z.1.1.value, tail, flat, depth);
      ConsDenotes(z.0, z.1.1.key, z.1.0 + tail, [z.1.1.value] + flat, depth);
      assert z.0 + z.1.0 + tail == z.0 + (z.1.0 + tail);
    }
  }

  /** The encoded pairs of a map beside its normal entries, in the order given. */
  function Rows(pairs: seq<(Bytes, Bytes)>, entries: seq<(Bytes, Entry)>): (zs: seq<Row>)
    requires |pairs| == |entries|
    ensures |zs| == |pairs| && forall i :: 0 <= i < |zs| ==> zs[i] == (pairs[i].0, (pairs[i].1, entries[i].1))
  {
    seq(|pairs|, i requires 0 <= i < |pairs| => (pairs[i].0, (pairs[i].1, entries[i].1)))
  }

  lemma {:induction false} PairsAt(entries: seq<Entry>, k: nat, limit: int, p: Profile)
    requires k < |entries| && EncodePairs(entries, limit, p).Some?
    ensures NormPairs(entries, p)[k] == NormEntry(entries[k], p)
    ensures EncodeEntry(entries[k], limit, p) == Some(EncodePairs(entries, limit, p).value[k])
    ensures EncodePairs(entries, limit, p).value[k].0 == KeyBytes(entries[k].key, p)
    decreases |entries|
  {
    hide Encode, Norm;
    EncodePairsAt(entries, k, limit, p);
    NormPairsAt(entries, k, p);
  }

  lemma {:induction false} NormPairsAt(entries: seq<Entry>, k: nat, p: Profile)
    requires k < |entries|
    ensures NormPairs(entries, p)[k] == NormEntry(entries[k], p)
    decreases |entries|
  {
    hide NormEntry;
    if k > 0 {
      NormPairsAt(entries[1..], k - 1, p);
    }
  }

  /** Sorting the encoded pairs and sorting the normal entries put the same rows in the same order. */
  lemma {:induction false} RowsSort(entries: seq<Entry>, limit: int, p: Profile) returns (zs: seq<Row>)
    requires EncodePairs(entries, limit, p).Some?
    ensures var pairs := EncodePairs(entries, limit, p).value;
            && zs == Rows(pairs, NormPairs(entries, p))
            && Sort(pairs) == Firsts(Sort(zs))
            && Sort(NormPairs(entries, p)) == Seconds(Sort(zs))
            && |Sort(zs)| == |zs| && forall z :: z in Sort(zs) <==> z in zs
  {
    hide Sort, EncodePairs, NormPairs, NormEntry;
    var pairs, norms := EncodePairs(entries, limit, p).value, NormPairs(entries, p);
    zs := Rows(pairs, norms);
    forall k | 0 <= k < |entries| ensures norms[k].0 == pairs[k].0 {
      PairsAt(entries, k, limit, p);
      KeyOfNorm(entries[k], p);
    }
    assert Firsts(zs) == pairs && Seconds(zs) == norms;
    SortZip(zs);
    SortMembers(zs);
  }

  lemma {:induction false} KeyOfNorm(e: Entry, p: Profile)
    ensures NormEntry(e, p).0 == KeyBytes(e.key, p) && NormEntry(e, p).1 == Entry(e.key, Norm(e.value, p))
  {
  }

  lemma {:induction false} EncodedDenotes(v: Value, limit: int, p: Profile, depth: nat)
    requires Encode(v, limit, p).Some? && Depth(v) <= depth
    ensures Denotes(Encode(v, limit, p).value, Norm(v, p), depth)
    decreases v, 1
  {
    hide Denotes, DenotesMany, Head, Assemble, Sort;
    match v
    case Null => SimpleDenotes(0xf6, depth);
    case Bool(b) => SimpleDenotes(if b then 0xf5 else 0xf4, depth);
    case Int(i) => IntDenotes(i, depth);
    case Text(s) => StringDenotes(3, s, depth);
    case ByteString(s) => StringDenotes(2, s, depth);
    case Array(items) =>
      AllDenotes(items, limit - 1, p, if depth == 0 then 0 else depth - 1);
      ArrayDenotes(EncodeAll(items, limit - 1, p).value, NormAll(items, p), depth);
    case Map(entries) =>
      PairsDenote(entries, limit - 1, p, if depth == 0 then 0 else depth - 1);
      AssembledDenotes(entries, limit - 1, p, depth);
  }

  lemma {:induction false} AllDenotes(items: seq<Value>, limit: int, p: Profile, depth: nat)
    requires EncodeAll(items, limit, p).Some? && DepthAll(items) <= depth
    ensures DenotesMany(EncodeAll(items, limit, p).value, NormAll(items, p), depth)
    decreases items, 0
  {
    hide Denotes, DenotesMany, Encode, Norm, Depth;
    if items == [] {
      NothingDenotes(depth);
    } else {
      EncodedDenotes(items[0], limit, p, depth);
      AllDenotes(items[1..], limit, p, depth);
      ConsDenotes(Encode(items[0], limit, p).value, Norm(items[0], p),
                  EncodeAll(items[1..], limit, p).value, NormAll(items[1..], p), depth);
    }
  }

  lemma {:induction false} EntryDenotes(e: Entry, limit: int, p: Profile, depth: nat)
    requires EncodeEntry(e, limit, p).Some? && DepthEntry(e) <= depth
    ensures RowDenotes((EncodeEntry(e, limit, p).value.0, (EncodeEntry(e, limit, p).value.1, NormEntry(e, p).1)), depth)
    decreases e
  {
    hide Denotes, Encode, Norm, Depth;
    KeyDenotes(e.key, p, depth);
    EncodedDenotes(e.value, limit, p, depth);
  }

  lemma {:induction false} PairsDenote(entries: seq<Entry>, limit: int, p: Profile, depth: nat)
    requires EncodePairs(entries, limit, p).Some? && DepthEntries(entries) <= depth
    ensures forall z | z in Rows(EncodePairs(entries, limit, p).value, NormPairs(entries, p)) :: RowDenotes(z, depth)
    decreases entries, 0
  {
    hide RowDenotes, EncodeEntry, NormEntry, DepthEntry;
    if entries != [] {
      EntryDenotes(entries[0], limit, p, depth);
      PairsDenote(entries[1..], limit, p, depth);
      var pairs, norms := EncodePairs(entries, limit, p).value, NormPairs(entries, p);
      var zs := Rows(pairs, norms);
      assert zs[1..] == Rows(EncodePairs(entries[1..], limit, p).value, NormPairs(entries[1..], p));
      forall z | z in zs ensures RowDenotes(z, depth) {
        assert z == zs[0] || z in zs[1..];
      }
    }
  }

  lemma {:induction false} AssembledDenotes(entries: seq<Entry>, limit: int, p: Profile, depth: nat)
    requires EncodePairs(entries, limit, p).Some? && Assemble(EncodePairs(entries, limit, p).value).Some?
    requires forall z | z in Rows(EncodePairs(entries, limit, p).value, NormPairs(entries, p)) ::
               RowDenotes(z, if depth == 0 then 0 else depth - 1)
    requires depth == 0 ==> entries == []
    ensures Denotes(Assemble(EncodePairs(entries, limit, p).value).value, Norm(Map(entries), p), depth)
  {
    hide RowDenotes, Denotes, DenotesMany, Head, EncodePairs, NormPairs, Sort, HasDuplicate;
    var zs := RowsSort(entries, limit, p);
    var inner := if depth == 0 then 0 else depth - 1;
    RowsDenote(Sort(zs), inner);
    MapDenotes(Joined(Firsts(Sort(zs))), Payloads(Seconds(Sort(zs))), depth);
  }

  // ----- the normal form keeps the item count and the encoding

  lemma {:induction false} ItemsSnocFree(xs: seq<(Bytes, Entry)>, x: (Bytes, Entry))
    ensures ItemsEntries(Payloads(Insert(x, xs))) == ItemsEntry(x.1) + ItemsEntries(Payloads(xs))
  {
    hide ItemsEntry;
    var all := Insert(x, xs);
    if xs == [] || AtMost(x.0, xs[0].0) {
      assert Payloads(all)[1..] == Payloads(xs);
    } else {
      ItemsSnocFree(xs[1..], x);
      assert Payloads(all)[1..] == Payloads(Insert(x, xs[1..])) && Payloads(xs)[1..] == Payloads(xs[1..]);
    }
  }

  lemma {:induction false} SortItems(xs: seq<(Bytes, Entry)>)
    ensures ItemsEntries(Payloads(Sort(xs))) == ItemsEntries(Payloads(xs))
  {
    hide ItemsEntry;
    if xs != [] {
      SortItems(xs[1..]);
      ItemsSnocFree(Sort(xs[1..]), xs[0]);
      assert Payloads(xs)[1..] == Payloads(xs[1..]);
    }
  }

  lemma {:induction false} NormItems(v: Value, p: Profile)
    ensures Items(Norm(v, p)) == Items(v)
    decreases v, 1
  {
    match v
    case Array(items) => NormItemsAll(items, p);
    case Map(entries) =>
      NormItemsEntries(entries, p);
      SortItems(NormPairs(entries, p));
    case _ =>
  }

  lemma {:induction false} NormItemsAll(items: seq<Value>, p: Profile)
    ensures ItemsAll(NormAll(items, p)) == ItemsAll(items)
    decreases items, 0
  {
    if items != [] {
      NormItems(items[0], p);
      NormItemsAll(items[1..], p);
      assert NormAll(items, p)[1..] == NormAll(items[1..], p);
    }
  }

  lemma {:induction false} NormItemsEntry(e: Entry, p: Profile)
    ensures ItemsEntry(NormEntry(e, p).1) == ItemsEntry(e)
    decreases e
  {
    NormItems(e.value, p);
  }

  lemma {:induction false} NormItemsEntries(entries: seq<Entry>, p: Profile)
    ensures ItemsEntries(Payloads(NormPairs(entries, p))) == ItemsEntries(entries)
    decreases entries, 0
  {
    hide NormEntry, ItemsEntry;
    if entries != [] {
      NormItemsEntry(entries[0], p);
      NormItemsEntries(entries[1..], p);
      assert Payloads(NormPairs(entries, p))[1..] == Payloads(NormPairs(entries[1..], p));
    }
  }

  /** Re-encoding the normal form gives the same bytes. */
  lemma {:induction false} NormEncodes(v: Value, limit: int, p: Profile)
    requires Encode(v, limit, p).Some?
    ensures Encode(Norm(v, p), limit, p) == Encode(v, limit, p)
    decreases v, 1
  {
    hide Head, Sort;
    match v
    case Array(items) => NormEncodesAll(items, limit - 1, p);
    case Map(entries) =>
      NormEncodesPairs(entries, limit - 1, p);
      var pairs := EncodePairs(entries, limit - 1, p).value;
      SortSorts(pairs);
      SortFixed(Sort(pairs));
    case _ =>
  }

  lemma {:induction false} NormEncodesAll(items: seq<Value>, limit: int, p: Profile)
    requires EncodeAll(items, limit, p).Some?
    ensures EncodeAll(NormAll(items, p), limit, p) == EncodeAll(items, limit, p)
    decreases items, 0
  {
    hide Encode, Norm;
    if items != [] {
      NormEncodes(items[0], limit, p);
      NormEncodesAll(items[1..], limit, p);
      assert NormAll(items, p)[1..] == NormAll(items[1..], p);
    }
  }

  ghost predicate RowEncodes(z: Row, limit: int, p: Profile) {
    EncodeEntry(z.1.1, limit, p) == Some((z.0, z.1.0))
  }

  lemma {:induction false} NormEncodesEntry(e: Entry, limit: int, p: Profile)
    requires EncodeEntry(e, limit, p).Some?
    ensures EncodeEntry(NormEntry(e, p).1, limit, p) == EncodeEntry(e, limit, p)
    decreases e
  {
    hide Encode, Norm;
    NormEncodes(e.value, limit, p);
  }

  lemma {:induction false} NormEncodesRows(entries: seq<Entry>, limit: int, p: Profile)
    requires EncodePairs(entries, limit, p).Some?
    ensures forall z | z in Rows(EncodePairs(entries, limit, p).value, NormPairs(entries, p)) :: RowEncodes(z, limit, p)
    decreases entries, 1
  {
    hide EncodeEntry, NormEntry;
    if entries != [] {
      NormEncodesEntry(entries[0], limit, p);
      NormEncodesRows(entries[1..], limit, p);
      var zs := Rows(EncodePairs(entries, limit, p).value, NormPairs(entries, p));
      assert zs[1..] == Rows(EncodePairs(entries[1..], limit, p).value, NormPairs(entries[1..], p));
      forall z | z in zs ensures RowEncodes(z, limit, p) {
        assert z == zs[0] || z in zs[1..];
      }
    }
  }

  lemma {:induction false} RowsEncode(zs: seq<Row>, limit: int, p: Profile)
    requires forall z | z in zs :: RowEncodes(z, limit, p)
    ensures EncodePairs(Payloads(Seconds(zs)), limit, p) == Some(Firsts(zs))
  {
    hide EncodeEntry;
    if zs != [] {
      RowsEncode(zs[1..], limit, p);
      assert RowEncodes(zs[0], limit, p);
      assert Payloads(Seconds(zs))[1..] == Payloads(Seconds(zs[1..]));
      assert Firsts(zs) == [(zs[0].0, zs[0].1.0)] + Firsts(zs[1..]);
    }
  }

  lemma {:induction false} NormEncodesPairs(entries: seq<Entry>, limit: int, p: Profile)
    requires EncodePairs(entries, limit, p).Some?
    ensures EncodePairs(Payloads(Sort(NormPairs(entries, p))), limit, p) == Some(Sort(EncodePairs(entries, limit, p).value))
    decreases entries, 2
  {
    hide EncodePairs, NormPairs, Sort, RowEncodes;
    NormEncodesRows(entries, limit, p);
    var zs := RowsSort(entries, limit, p);
    RowsEncode(Sort(zs), limit, p);
  }

  lemma {:induction false} InsertPayloads(x: (Bytes, Entry), xs: seq<(Bytes, Entry)>)
    ensures multiset(Payloads(Insert(x, xs))) == multiset{x.1} + multiset(Payloads(xs))
  {
    var all := Insert(x, xs);
    if xs == [] || AtMost(x.0, xs[0].0) {
      assert Payloads(all) == [x.1] + Payloads(xs);
    } else {
      InsertPayloads(x, xs[1..]);
      assert Payloads(all) == [xs[0].1] + Payloads(Insert(x, xs[1..]));
      assert Payloads(xs) == [xs[0].1] + Payloads(xs[1..]);
    }
  }

  lemma {:induction false} SortPayloads(xs: seq<(Bytes, Entry)>)
    ensures multiset(Payloads(Sort(xs))) == multiset(Payloads(xs))
  {
    if xs != [] {
      SortPayloads(xs[1..]);
      InsertPayloads(xs[0], Sort(xs[1..]));
      assert Payloads(xs) == [xs[0].1] + Payloads(xs[1..]);
    }
  }

  function NormEach(entries: seq<Entry>, p: Profile): (r: seq<Entry>)
    ensures |r| == |entries| && forall i | 0 <= i < |r| :: r[i] == Entry(entries[i].key, Norm(entries[i].value, p))
  {
    seq(|entries|, i requires 0 <= i < |entries| => Entry(entries[i].key, Norm(entries[i].value, p)))
  }

  /** The normal form of a map holds its entries, with normal values, in another order and nothing else. */
  lemma {:induction false} NormOnlyReorders(entries: seq<Entry>, p: Profile)
    ensures Norm(Map(entries), p).Map?
    ensures multiset(Norm(Map(entries), p).entries) == multiset(NormEach(entries, p))
  {
    hide Sort, NormPairs;
    var pairs := NormPairs(entries, p);
    SortPayloads(pairs);
    var plain := NormEach(entries, p);
    forall i | 0 <= i < |entries| ensures Payloads(pairs)[i] == plain[i] {
      NormPairsAt(entries, i, p);
      KeyOfNorm(entries[i], p);
    }
    assert Payloads(pairs) == plain;
  }

  // ----- the emitter's limit is a depth bound

  lemma {:induction false} EncodeDepth(v: Value, limit: int, p: Profile)
    requires Encode(v, limit, p).Some?
    ensures Depth(v) <= limit
    decreases v, 1
  {
    match v
    case Array(items) => EncodeDepthAll(items, limit - 1, p);
    case Map(entries) => EncodeDepthEntries(entries, limit - 1, p);
    case _ =>
  }

  lemma {:induction false} EncodeDepthAll(items: seq<Value>, limit: int, p: Profile)
    requires EncodeAll(items, limit, p).Some?
    ensures items != [] ==> DepthAll(items) <= limit
    decreases items, 0
  {
    if items != [] {
      EncodeDepth(items[0], limit, p);
      EncodeDepthAll(items[1..], limit, p);
    }
  }

  lemma {:induction false} EncodeDepthEntry(e: Entry, limit: int, p: Profile)
    requires EncodeEntry(e, limit, p).Some?
    ensures DepthEntry(e) <= limit
    decreases e
  {
    EncodeDepth(e.value, limit, p);
  }

  lemma {:induction false} EncodeDepthEntries(entries: seq<Entry>, limit: int, p: Profile)
    requires EncodePairs(entries, limit, p).Some?
    ensures entries != [] ==> DepthEntries(entries) <= limit
    decreases entries, 0
  {
    if entries != [] {
      EncodeDepthEntry(entries[0], limit, p);
      EncodeDepthEntries(entries[1..], limit, p);
    }
  }

  // ----- main results

  /** Whatever the emitter accepts at a limit, the scan bounded by that limit and by the value's item
      count delimits exactly, whatever follows; one item or one level less and it refuses. */
  lemma {:induction false} EmitterAndScannerAgree(v: Value, limit: nat, p: Profile, trailing: Bytes)
    requires Encode(v, limit, p).Some?
    ensures var b := Encode(v, limit, p).value;
            forall depth: nat, budget: nat ::
              Scanned(b + trailing, depth, budget) == if Depth(v) <= depth && Items(v) <= budget then Some(|b|) else None
    ensures Depth(v) <= limit
  {
    hide Encode, Parse, Norm;
    EncodeDepth(v, limit, p);
    var b := Encode(v, limit, p).value;
    forall depth: nat, budget: nat
      ensures Scanned(b + trailing, depth, budget) == if Depth(v) <= depth && Items(v) <= budget then Some(|b|) else None
    {
      ScanOfEncoding(v, limit, p, trailing, depth);
    }
  }

  lemma {:induction false} ScanOfEncoding(v: Value, limit: nat, p: Profile, trailing: Bytes, depth: nat)
    requires Encode(v, limit, p).Some?
    ensures var b := Encode(v, limit, p).value;
            var item := Parse(b + trailing, 0, depth);
            && (Depth(v) <= depth ==> item == Some((Norm(v, p), |b|)) && Items(item.value.0) == Items(v))
            && (depth < Depth(v) ==> item.None?)
  {
    hide Encode, Parse, Norm;
    var b := Encode(v, limit, p).value;
    var data := b + trailing;
    assert At(data, 0, b) by { assert data[0..0 + |b|] == b; }
    EncodedDenotes(v, limit, p, Depth(v));
    NormItems(v, p);
    if Depth(v) <= depth {
      EncodedDenotes(v, limit, p, depth);
    } else if Parse(data, 0, depth).Some? {
      ParseDepth(data, 0, depth);
      ParseMonotone(data, 0, depth, Depth(v));
      NormDepth(v, p);
    }
  }

  /** A larger depth bound reads the same item. */
  lemma {:induction false} ParseMonotone(data: Bytes, i: nat, depth: nat, more: nat)
    requires i <= |data| && depth <= more && Parse(data, i, depth).Some?
    ensures Parse(data, i, more) == Parse(data, i, depth)
    decreases |data| - i, 0
  {
    hide PeekHead;
    var head := PeekHead(data, i);
    var HeadAt(major, arg, next) := head.value;
    if major == 4 || major == 5 {
      var count := if major == 4 then arg else 2 * arg;
      if count > 0 && depth > 0 && count <= |data| - next {
        ParseManyMonotone(data, next, count, depth - 1, more - 1);
      }
    }
  }

  lemma {:induction false} ParseManyMonotone(data: Bytes, i: nat, count: nat, depth: nat, more: nat)
    requires i <= |data| && depth <= more
    ensures ParseMany(data, i, count, depth).Some? ==> ParseMany(data, i, count, more) == ParseMany(data, i, count, depth)
    decreases |data| - i, count + 1
  {
    if count > 0 && ParseMany(data, i, count, depth).Some? {
      ParseMonotone(data, i, depth, more);
      ParseManyMonotone(data, Parse(data, i, depth).value.1, count - 1, depth, more);
    }
  }

  lemma {:induction false} DepthInsert(xs: seq<(Bytes, Entry)>, x: (Bytes, Entry))
    ensures DepthEntries(Payloads(Insert(x, xs))) == Max(DepthEntry(x.1), DepthEntries(Payloads(xs)))
  {
    hide DepthEntry;
    var all := Insert(x, xs);
    if xs == [] || AtMost(x.0, xs[0].0) {
      assert Payloads(all)[1..] == Payloads(xs);
    } else {
      DepthInsert(xs[1..], x);
      assert Payloads(all)[1..] == Payloads(Insert(x, xs[1..])) && Payloads(xs)[1..] == Payloads(xs[1..]);
    }
  }

  lemma {:induction false} SortDepth(xs: seq<(Bytes, Entry)>)
    ensures DepthEntries(Payloads(Sort(xs))) == DepthEntries(Payloads(xs))
  {
    hide DepthEntry;
    if xs != [] {
      SortDepth(xs[1..]);
      DepthInsert(Sort(xs[1..]), xs[0]);
      assert Payloads(xs)[1..] == Payloads(xs[1..]);
    }
  }

  lemma {:induction false} NormDepth(v: Value, p: Profile)
    ensures Depth(Norm(v, p)) == Depth(v)
    decreases v, 1
  {
    match v
    case Array(items) => NormDepthAll(items, p);
    case Map(entries) =>
      NormDepthEntries(entries, p);
      SortDepth(NormPairs(entries, p));
      SortKeeps(NormPairs(entries, p));
    case _ =>
  }

  lemma {:induction false} NormDepthAll(items: seq<Value>, p: Profile)
    ensures DepthAll(NormAll(items, p)) == DepthAll(items)
    decreases items, 0
  {
    if items != [] {
      NormDepth(items[0], p);
      NormDepthAll(items[1..], p);
      assert NormAll(items, p)[1..] == NormAll(items[1..], p);
    }
  }

  lemma {:induction false} NormDepthEntry(e: Entry, p: Profile)
    ensures DepthEntry(NormEntry(e, p).1) == DepthEntry(e)
    decreases e
  {
    NormDepth(e.value, p);
  }

  lemma {:induction false} NormDepthEntries(entries: seq<Entry>, p: Profile)
    ensures DepthEntries(Payloads(NormPairs(entries, p))) == DepthEntries(entries)
    decreases entries, 0
  {
    hide NormEntry, DepthEntry;
    if entries != [] {
      NormDepthEntry(entries[0], p);
      NormDepthEntries(entries[1..], p);
      assert Payloads(NormPairs(entries, p))[1..] == Payloads(NormPairs(entries[1..], p));
    }
  }

  /** No encoding is a proper prefix of another, and equal encodings mean equal values up to the order
      of map entries: the two normal forms coincide. */
  lemma {:induction false} PrefixFreeAndInjective(v: Value, w: Value, limit: nat, other: nat, p: Profile, q: Profile)
    requires Encode(v, limit, p).Some? && Encode(w, other, q).Some?
    requires Encode(v, limit, p).value <= Encode(w, other, q).value
    ensures Encode(v, limit, p) == Encode(w, other, q) && Norm(v, p) == Norm(w, q)
  {
    hide Encode, Parse, Norm;
    var a, b := Encode(v, limit, p).value, Encode(w, other, q).value;
    assert b == a + b[|a|..] && b == b + [];
    var depth := Max(Depth(v), Depth(w));
    ScanOfEncoding(v, limit, p, b[|a|..], depth);
    ScanOfEncoding(w, other, q, [], depth);
  }

  lemma {:induction false} NoDuplicateIsStrict(xs: seq<(Bytes, Bytes)>)
    requires Sorted(xs) && !HasDuplicate(xs)
    ensures StrictlySorted(xs)
  {
    forall i, j | 0 <= i < j < |xs| ensures Less(xs[i].0, xs[j].0) {
      LessTotal(xs[i].0, xs[j].0);
      LessTotal(xs[i].0, xs[i + 1].0);
      assert xs[i].0 != xs[i + 1].0 && AtMost(xs[i].0, xs[i + 1].0);
      if i + 1 < j {
        assert AtMost(xs[i + 1].0, xs[j].0);
      }
    }
  }

  lemma {:induction false} AssembleIgnoresOrder(xs: seq<(Bytes, Bytes)>, ys: seq<(Bytes, Bytes)>)
    requires multiset(xs) == multiset(ys)
    ensures Assemble(xs) == Assemble(ys)
  {
    hide Sort, Sorted, StrictlySorted, Head;
    SortSorts(xs);
    SortSorts(ys);
    if !HasDuplicate(Sort(xs)) {
      NoDuplicateIsStrict(Sort(xs));
      StrictlySortedUnique(Sort(xs), Sort(ys));
    } else if !HasDuplicate(Sort(ys)) {
      NoDuplicateIsStrict(Sort(ys));
      StrictlySortedUnique(Sort(ys), Sort(xs));
    }
  }

  lemma {:induction false} EncodePairsFails(entries: seq<Entry>, limit: int, p: Profile)
    ensures EncodePairs(entries, limit, p).Some? <==> forall e | e in entries :: EncodeEntry(e, limit, p).Some?
    decreases |entries|
  {
    hide EncodeEntry;
    if entries != [] {
      EncodePairsFails(entries[1..], limit, p);
      assert entries[0] in entries && forall e | e in entries[1..] :: e in entries;
      if EncodePairs(entries, limit, p).Some? {
        forall e | e in entries ensures EncodeEntry(e, limit, p).Some? {
          assert e == entries[0] || e in entries[1..];
        }
      }
    }
  }

  lemma {:induction false} WithoutAt<T>(ys: seq<T>, j: nat)
    requires j < |ys|
    ensures multiset(ys) == multiset{ys[j]} + multiset(ys[..j] + ys[j + 1..])
  {
    assert ys == ys[..j] + ([ys[j]] + ys[j + 1..]);
  }

  lemma {:induction false} TakeOut<T>(xs: seq<T>, ys: seq<T>) returns (j: nat)
    requires multiset(xs) == multiset(ys) && xs != []
    ensures j < |ys| && ys[j] == xs[0]
    ensures multiset(xs[1..]) == multiset(ys[..j] + ys[j + 1..])
  {
    assert xs[0] in multiset(xs);
    assert xs[0] in multiset(ys);
    assert xs[0] in ys;
    j :| 0 <= j < |ys| && ys[j] == xs[0];
    WithoutAt(ys, j);
    WithoutAt(xs, 0);
    assert xs[..0] + xs[0 + 1..] == xs[1..];
    Cancel(multiset{xs[0]}, multiset(xs[1..]), multiset(ys[..j] + ys[j + 1..]));
  }

  lemma {:induction false} Cancel<T>(one: multiset<T>, a: multiset<T>, b: multiset<T>)
    requires one + a == one + b
    ensures a == b
  {
    assert a == (one + a) - one;
  }

  lemma {:induction false} EncodePairsRemove(entries: seq<Entry>, j: nat, limit: int, p: Profile)
    requires j < |entries| && EncodePairs(entries, limit, p).Some?
    ensures var rest := EncodePairs(entries[..j] + entries[j + 1..], limit, p);
            rest.Some? && EncodeEntry(entries[j], limit, p).Some? &&
            multiset(EncodePairs(entries, limit, p).value) == multiset{EncodeEntry(entries[j], limit, p).value} + multiset(rest.value)
    decreases |entries|
  {
    hide EncodeEntry;
    if j == 0 {
      assert entries[..0] + entries[1..] == entries[1..];
    } else {
      EncodePairsRemove(entries[1..], j - 1, limit, p);
      assert (entries[..j] + entries[j + 1..])[1..] == entries[1..][..j - 1] + entries[1..][j..];
    }
  }

  lemma {:induction false} EncodePairsPermutes(xs: seq<Entry>, ys: seq<Entry>, limit: int, p: Profile)
    requires multiset(xs) == multiset(ys) && EncodePairs(xs, limit, p).Some?
    ensures EncodePairs(ys, limit, p).Some?
    ensures multiset(EncodePairs(ys, limit, p).value) == multiset(EncodePairs(xs, limit, p).value)
    decreases |xs|
  {
    hide EncodeEntry, EncodePairs;
    assert |xs| == |multiset(xs)| == |multiset(ys)| == |ys|;
    EncodePairsFails(xs, limit, p);
    EncodePairsFails(ys, limit, p);
    assert forall e | e in ys :: e in multiset(xs);
    if xs == [] {
      assert ys == [];
    } else {
      var j := TakeOut(xs, ys);
      EncodePairsRemove(xs, 0, limit, p);
      EncodePairsRemove(ys, j, limit, p);
      assert xs[..0] + xs[0 + 1..] == xs[1..];
      EncodePairsPermutes(xs[1..], ys[..j] + ys[j + 1..], limit, p);
    }
  }

  /** Reordering the entries of a map changes neither whether it encodes nor the bytes. */
  lemma {:induction false} EntryOrderIrrelevant(xs: seq<Entry>, ys: seq<Entry>, limit: int, p: Profile)
    requires multiset(xs) == multiset(ys)
    ensures Encode(Map(xs), limit, p) == Encode(Map(ys), limit, p)
  {
    hide EncodePairs, Assemble;
    if EncodePairs(xs, limit - 1, p).Some? {
      EncodePairsPermutes(xs, ys, limit - 1, p);
      AssembleIgnoresOrder(EncodePairs(xs, limit - 1, p).value, EncodePairs(ys, limit - 1, p).value);
    } else if EncodePairs(ys, limit - 1, p).Some? {
      EncodePairsPermutes(ys, xs, limit - 1, p);
    }
  }

  // ----- reading a member of a map

  function Lookup(entries: seq<Entry>, key: Value): Option<Value> {
    if entries == [] then None else if entries[0].key == key then Some(entries[0].value) else Lookup(entries[1..], key)
  }

  ghost predicate Keyed(xs: seq<(Bytes, Entry)>, p: Profile) {
    forall i | 0 <= i < |xs| :: xs[i].0 == KeyBytes(xs[i].1.key, p)
  }

  /** Sorting is stable, so the first entry with a key stays the first. */
  lemma {:induction false} LookupInsert(x: (Bytes, Entry), xs: seq<(Bytes, Entry)>, key: Value, p: Profile)
    requires x.0 == KeyBytes(x.1.key, p) && Keyed(xs, p)
    ensures Keyed(Insert(x, xs), p)
    ensures Lookup(Payloads(Insert(x, xs)), key) == if x.1.key == key then Some(x.1.value) else Lookup(Payloads(xs), key)
  {
    hide KeyBytes, Less;
    LessIrreflexive(x.0);
    var all := Insert(x, xs);
    if xs == [] || AtMost(x.0, xs[0].0) {
      assert Payloads(all)[1..] == Payloads(xs);
    } else {
      LookupInsert(x, xs[1..], key, p);
      assert Payloads(all)[1..] == Payloads(Insert(x, xs[1..]));
      assert Payloads(xs)[1..] == Payloads(xs[1..]);
    }
  }

  lemma {:induction false} LookupSorted(entries: seq<Entry>, key: Value, p: Profile)
    ensures Keyed(Sort(NormPairs(entries, p)), p)
    ensures var found := Lookup(entries, key);
            Lookup(Payloads(Sort(NormPairs(entries, p))), key) == if found.Some? then Some(Norm(found.value, p)) else None
  {
    hide KeyBytes, Norm, Insert, AtMost;
    if entries != [] {
      LookupSorted(entries[1..], key, p);
      var pairs := NormPairs(entries, p);
      assert pairs[1..] == NormPairs(entries[1..], p);
      KeyOfNorm(entries[0], p);
      LookupInsert(pairs[0], Sort(pairs[1..]), key, p);
    }
  }

  /** Reading a member commutes with normalisation: equal encodings have equal members. */
  lemma {:induction false} LookupNorm(entries: seq<Entry>, key: Value, p: Profile)
    ensures Norm(Map(entries), p).Map?
    ensures var found := Lookup(entries, key);
            Lookup(Norm(Map(entries), p).entries, key) == if found.Some? then Some(Norm(found.value, p)) else None
  {
    hide Lookup, Sort;
    LookupSorted(entries, key, p);
  }

  /** A member of a value that encodes encodes, one level down. */
  lemma {:induction false} MemberEncodes(entries: seq<Entry>, key: Value, limit: int, p: Profile)
    requires EncodePairs(entries, limit, p).Some? && Lookup(entries, key).Some?
    ensures Encode(Lookup(entries, key).value, limit, p).Some?
    decreases |entries|
  {
    hide Encode;
    if entries[0].key != key {
      MemberEncodes(entries[1..], key, limit, p);
    }
  }

  // ----- an encoded map has distinct keys

  lemma {:induction false} StrictHoldsOnce(xs: seq<(Bytes, Bytes)>, x: (Bytes, Bytes))
    requires StrictlySorted(xs)
    ensures multiset(xs)[x] <= 1
  {
    hide Less;
    if xs != [] {
      assert xs == [xs[0]] + xs[1..];
      StrictHoldsOnce(xs[1..], x);
      if x in xs[1..] {
        LessIrreflexive(x.0);
      }
    }
  }

  lemma {:induction false} TwoOccurrences<T>(xs: seq<T>, a: nat, b: nat)
    requires a < b < |xs|
    ensures xs[a] in multiset(xs) && xs[b] in multiset(xs)
    ensures xs[a] == xs[b] ==> multiset(xs)[xs[a]] >= 2
  {
    var x, y := xs[a], xs[b];
    var mid, end := xs[a + 1..b], xs[b + 1..];
    assert xs == xs[..a] + ([x] + (mid + ([y] + end)));
  }

  lemma {:induction false} SameKeyShows(pairs: seq<(Bytes, Bytes)>, a: nat, b: nat)
    requires a < b < |pairs| && pairs[a].0 == pairs[b].0
    ensures HasDuplicate(Sort(pairs))
  {
    hide Sort, HasDuplicate, Less;
    SortSorts(pairs);
    TwoOccurrences(pairs, a, b);
    assert pairs[a] in Sort(pairs) && pairs[b] in Sort(pairs);
    LessIrreflexive(pairs[a].0);
    if !HasDuplicate(Sort(pairs)) {
      NoDuplicateIsStrict(Sort(pairs));
      StrictHoldsOnce(Sort(pairs), pairs[a]);
    }
  }

  lemma {:induction false} EncodedKeysDistinct(entries: seq<Entry>, limit: int, p: Profile, a: nat, b: nat)
    requires Encode(Map(entries), limit, p).Some? && a < b < |entries|
    ensures entries[a].key != entries[b].key
  {
    hide Sort, HasDuplicate, Joined;
    EncodePairsAt(entries, a, limit - 1, p);
    EncodePairsAt(entries, b, limit - 1, p);
    if entries[a].key == entries[b].key {
      SameKeyShows(EncodePairs(entries, limit - 1, p).value, a, b);
    }
  }

  // ----- a larger nesting limit changes nothing

  lemma {:induction false} EncodeWidens(v: Value, limit: int, more: int, p: Profile)
    requires Encode(v, limit, p).Some? && limit <= more
    ensures Encode(v, more, p) == Encode(v, limit, p)
    decreases v, 1
  {
    hide Assemble;
    match v
    case Array(items) => EncodeAllWidens(items, limit - 1, more - 1, p);
    case Map(entries) => EncodePairsWiden(entries, limit - 1, more - 1, p);
    case _ =>
  }

  lemma {:induction false} EncodeAllWidens(items: seq<Value>, limit: int, more: int, p: Profile)
    requires EncodeAll(items, limit, p).Some? && limit <= more
    ensures EncodeAll(items, more, p) == EncodeAll(items, limit, p)
    decreases items, 0
  {
    hide Encode;
    if items != [] {
      EncodeWidens(items[0], limit, more, p);
      EncodeAllWidens(items[1..], limit, more, p);
    }
  }

  lemma {:induction false} EncodeEntryWidens(e: Entry, limit: int, more: int, p: Profile)
    requires EncodeEntry(e, limit, p).Some? && limit <= more
    ensures EncodeEntry(e, more, p) == EncodeEntry(e, limit, p)
    decreases e
  {
    hide Encode, EncodeKey;
    EncodeWidens(e.value, limit, more, p);
  }

  lemma {:induction false} EncodePairsWiden(entries: seq<Entry>, limit: int, more: int, p: Profile)
    requires EncodePairs(entries, limit, p).Some? && limit <= more
    ensures EncodePairs(entries, more, p) == EncodePairs(entries, limit, p)
    decreases entries, 0
  {
    hide EncodeEntry;
    if entries != [] {
      EncodeEntryWidens(entries[0], limit, more, p);
      EncodePairsWiden(entries[1..], limit, more, p);
    }
  }

  // ----- text is UTF-8

  predicate Continues(b: Bytes, n: nat) {
    |b| >= n && forall i | 1 <= i < n :: 0x80 <= b[i] < 0xc0
  }

  /** Length of the well-formed sequence at the front, 0 if there is none (section 4 of RFC 3629). */
  function SequenceLength(b: Bytes): (n: nat)
    requires b != []
    ensures n <= |b|
  {
    if b[0] < 0x80 then 1
    else if 0xc2 <= b[0] <= 0xdf && Continues(b, 2) then 2
    else if 0xe0 <= b[0] <= 0xef && Continues(b, 3) && (b[0] == 0xe0 ==> b[1] >= 0xa0) && (b[0] == 0xed ==> b[1] <= 0x9f) then 3
    else if 0xf0 <= b[0] <= 0xf4 && Continues(b, 4) && (b[0] == 0xf0 ==> b[1] >= 0x90) && (b[0] == 0xf4 ==> b[1] <= 0x8f) then 4
    else 0
  }

  predicate Utf8(b: Bytes)
    decreases |b|
  {
    b == [] || (SequenceLength(b) > 0 && Utf8(b[SequenceLength(b)..]))
  }

  /** Every text in the value is UTF-8: what a value of the source's CBOR library is. */
  predicate TextValid(v: Value)
    decreases v, 1
  {
    match v
    case Text(s) => Utf8(s)
    case Array(items) => forall i | 0 <= i < |items| :: TextValid(items[i])
    case Map(entries) => forall i | 0 <= i < |entries| :: EntryTextValid(entries[i])
    case _ => true
  }

  predicate EntryTextValid(e: Entry)
    decreases e, 0
  {
    TextValid(e.key) && TextValid(e.value)
  }

  lemma {:induction false} SameMembers<T>(a: seq<T>, b: seq<T>)
    requires multiset(a) == multiset(b)
    ensures forall x :: x in a <==> x in b
  {
    assert forall x :: x in a <==> x in multiset(a);
    assert forall x :: x in b <==> x in multiset(b);
  }

  predicate AllTextValid(items: seq<Value>) {
    forall i | 0 <= i < |items| :: TextValid(items[i])
  }

  predicate EntriesTextValid(entries: seq<Entry>) {
    forall i | 0 <= i < |entries| :: EntryTextValid(entries[i])
  }

  lemma {:induction false} OrderKeepsText(a: seq<Entry>, b: seq<Entry>)
    requires multiset(a) == multiset(b) && EntriesTextValid(a)
    ensures EntriesTextValid(b)
  {
    hide EntryTextValid;
    SameMembers(a, b);
    forall i | 0 <= i < |b| ensures EntryTextValid(b[i]) {
      assert b[i] in b;
    }
  }

  lemma {:induction false} NormKeepsText(v: Value, p: Profile)
    ensures TextValid(Norm(v, p)) <==> TextValid(v)
    decreases v, 1
  {
    match v
    case Array(items) => NormKeepsTextAll(items, p);
    case Map(entries) => NormKeepsTextEntries(entries, p);
    case _ =>
  }

  lemma {:induction false} NormKeepsTextAll(items: seq<Value>, p: Profile)
    ensures AllTextValid(NormAll(items, p)) <==> AllTextValid(items)
    decreases items, 0
  {
    hide TextValid, Norm, NormAll;
    forall i | 0 <= i < |items| ensures TextValid(NormAll(items, p)[i]) <==> TextValid(items[i]) {
      NormAllAt(items, i, p);
      NormKeepsText(items[i], p);
    }
  }

  lemma {:induction false} NormKeepsTextEntries(entries: seq<Entry>, p: Profile)
    ensures Norm(Map(entries), p).Map? && (EntriesTextValid(Norm(Map(entries), p).entries) <==> EntriesTextValid(entries))
    decreases entries, 0
  {
    hide EntryTextValid, Norm, NormEach;
    NormOnlyReorders(entries, p);
    var normal, plain := Norm(Map(entries), p).entries, NormEach(entries, p);
    forall i | 0 <= i < |entries| ensures EntryTextValid(plain[i]) <==> EntryTextValid(entries[i]) {
      NormKeepsTextEntry(entries[i], p);
    }
    if EntriesTextValid(entries) {
      OrderKeepsText(plain, normal);
    }
    if EntriesTextValid(normal) {
      OrderKeepsText(normal, plain);
    }
  }

  lemma {:induction false} NormKeepsTextEntry(e: Entry, p: Profile)
    ensures EntryTextValid(Entry(e.key, Norm(e.value, p))) <==> EntryTextValid(e)
    decreases e, 0
  {
    hide Utf8, Norm;
    NormKeepsText(e.value, p);
  }

  lemma {:induction false} NormAllAt(items: seq<Value>, k: nat, p: Profile)
    requires k < |items|
    ensures NormAll(items, p)[k] == Norm(items[k], p)
    decreases |items|
  {
    hide Norm;
    if k > 0 {
      NormAllAt(items[1..], k - 1, p);
    }
  }

  // ----- strict decoding

  const MAX_DEPTH: nat := 64
  const MAX_ITEMS: nat := 100_000
  const CERT_PROFILE := Profile(false, true)

  function CanonicalCbor(v: Value): Option<Bytes> {
    Encode(v, MAX_DEPTH, CERT_PROFILE)
  }

  /** Some value of UTF-8 text within the caps has exactly these canonical bytes. */
  ghost predicate IsCanonical(data: Bytes, maxDepth: nat, maxBytes: nat, p: Profile) {
    |data| <= maxBytes &&
    exists v :: Encode(v, MAX_DEPTH, p) == Some(data) && TextValid(v) && Depth(v) <= maxDepth && Items(v) <= MAX_ITEMS
  }

  /** Scan within the caps, decode, and insist that the value encodes to the very bytes read. */
  function DecodeStrict(data: Bytes, maxDepth: nat, maxBytes: nat, p: Profile): Option<Value> {
    if |data| > maxBytes || Scanned(data, maxDepth, MAX_ITEMS) != Some(|data|) then None
    else
      var value := Parse(data, 0, maxDepth).value.0;
      if TextValid(value) && Encode(value, MAX_DEPTH, p) == Some(data) then Some(value) else None
  }

  /** Strict decoding accepts exactly the canonical bytes within the caps, and returns the value they
      denote, which is in normal form. */
  lemma {:induction false} DecodesCanonicalOnly(data: Bytes, maxDepth: nat, maxBytes: nat, p: Profile)
    ensures var r := DecodeStrict(data, maxDepth, maxBytes, p);
            && (r.Some? <==> IsCanonical(data, maxDepth, maxBytes, p))
            && (r.Some? ==> Encode(r.value, MAX_DEPTH, p) == Some(data) && Norm(r.value, p) == r.value)
            && (r.Some? ==> forall v | Encode(v, MAX_DEPTH, p) == Some(data) :: r.value == Norm(v, p))
  {
    hide Encode, Parse, Norm, TextValid;
    forall v | Encode(v, MAX_DEPTH, p) == Some(data)
      ensures Depth(v) <= maxDepth ==> Parse(data, 0, maxDepth) == Some((Norm(v, p), |data|))
      ensures maxDepth < Depth(v) ==> Parse(data, 0, maxDepth).None?
      ensures Items(Norm(v, p)) == Items(v) && Encode(Norm(v, p), MAX_DEPTH, p) == Some(data)
      ensures TextValid(Norm(v, p)) == TextValid(v)
    {
      assert data + [] == data;
      ScanOfEncoding(v, MAX_DEPTH, p, [], maxDepth);
      NormItems(v, p);
      NormEncodes(v, MAX_DEPTH, p);
      NormKeepsText(v, p);
    }
    if DecodeStrict(data, maxDepth, maxBytes, p).Some? {
      ParseDepth(data, 0, maxDepth);
    }
  }

  method DecodeCbor(data: Bytes, maxDepth: nat, maxBytes: nat) returns (r: Option<Value>)
    ensures r.Some? <==> IsCanonical(data, maxDepth, maxBytes, CERT_PROFILE)
    ensures r.Some? ==> CanonicalCbor(r.value) == Some(data)
    ensures forall v | CanonicalCbor(v) == Some(data) && r.Some? :: r.value == Norm(v, CERT_PROFILE)
  {
    hide Encode, Parse, Norm, TextValid;
    DecodesCanonicalOnly(data, maxDepth, maxBytes, CERT_PROFILE);
    if |data| > maxBytes {
      return None;
    }
    var end := StructuralScan(data, maxDepth, MAX_ITEMS);
    if end != Some(|data|) {
      return None;
    }
    var value := Parse(data, 0, maxDepth).value.0;
    if !TextValid(value) {
      return None;
    }
    var ok, bytes := WriteValue(value, [], MAX_DEPTH, CERT_PROFILE);
    assert ok ==> [] + Encode(value, MAX_DEPTH, CERT_PROFILE).value == Encode(value, MAX_DEPTH, CERT_PROFILE).value;
    if !ok || bytes != data {
      return None;
    }
    r := Some(value);
  }
}
