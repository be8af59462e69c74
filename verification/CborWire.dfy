/** The deterministic CBOR emitter of verify-rs/src/cbor_wire.rs: values, the profile-parameterised
    encoding, and the buffer-appending methods that compute it. */
module CborWire {
  import opened Bytes
  import opened Sorting
  import opened CborHead

  /** `Other` stands for floats and tags. Text is carried as its UTF-8 bytes. */
  datatype Value =
    | Null
    | Bool(b: bool)
    | Int(i: int)
    | Text(utf8: Bytes)
    | ByteString(raw: Bytes)
    | Array(items: seq<Value>)
    | Map(entries: seq<Entry>)
    | Other

  datatype Entry = Entry(key: Value, value: Value)

  datatype Profile = Profile(intKeys: bool, bools: bool)

  // ----- the encoding

  function EncodeInt(i: int): Option<Bytes> {
    if i < -0x8000_0000_0000_0000 || i > 0x7fff_ffff_ffff_ffff then None
    else if i >= 0 then Some(Head(0, i))
    else Some(Head(1, -1 - i))
  }

  /** No vector or string of the source is this long. */
  const NO_LENGTH := 0x8000_0000_0000_0000

  function EncodeString(major: nat, s: Bytes): Option<Bytes>
    requires major < 8
  {
    if |s| < NO_LENGTH then Some(Head(major, |s|) + s) else None
  }

  function EncodeKey(k: Value, p: Profile): Option<Bytes> {
    match k
    case Int(i) => if p.intKeys then EncodeInt(i) else None
    case Text(s) => EncodeString(3, s)
    case _ => None
  }

  function Encode(v: Value, limit: int, p: Profile): Option<Bytes>
    decreases v, 1
  {
    if limit < 0 then None
    else
      match v
      case Null => Some([0xf6])
      case Bool(b) => if p.bools then Some([if b then 0xf5 else 0xf4]) else None
      case Int(i) => EncodeInt(i)
      case Text(s) => EncodeString(3, s)
      case ByteString(s) => EncodeString(2, s)
      case Array(items) =>
        var body := EncodeAll(items, limit - 1, p);
        if body.None? || |items| >= NO_LENGTH then None else Some(Head(4, |items|) + body.value)
      case Map(entries) =>
        var pairs := EncodePairs(entries, limit - 1, p);
        if pairs.None? then None else Assemble(pairs.value)
      case Other => None
  }

  function EncodeAll(items: seq<Value>, limit: int, p: Profile): Option<Bytes>
    decreases items, 0
  {
    if items == [] then Some([])
    else
      var first := Encode(items[0], limit, p);
      var rest := EncodeAll(items[1..], limit, p);
      if first.None? || rest.None? then None else Some(first.value + rest.value)
  }

  function EncodeEntry(e: Entry, limit: int, p: Profile): Option<(Bytes, Bytes)>
    decreases e
  {
    var key, value := EncodeKey(e.key, p), Encode(e.value, limit, p);
    if key.None? || value.None? then None else Some((key.value, value.value))
  }

  function EncodePairs(entries: seq<Entry>, limit: int, p: Profile): (r: Option<seq<(Bytes, Bytes)>>)
    ensures r.Some? ==> |r.value| == |entries|
    decreases entries, 0
  {
    if entries == [] then Some([])
    else
      var first, rest := EncodeEntry(entries[0], limit, p), EncodePairs(entries[1..], limit, p);
      if first.None? || rest.None? then None else Some([first.value] + rest.value)
  }

  function Joined(pairs: seq<(Bytes, Bytes)>): Bytes {
    if pairs == [] then [] else pairs[0].0 + pairs[0].1 + Joined(pairs[1..])
  }

  predicate HasDuplicate(sorted: seq<(Bytes, Bytes)>) {
    exists i :: 0 <= i < |sorted| - 1 && sorted[i].0 == sorted[i + 1].0
  }

  /** Sort by encoded key, refuse duplicates, write the map. */
  function Assemble(pairs: seq<(Bytes, Bytes)>): Option<Bytes> {
    var sorted := Sort(pairs);
    if HasDuplicate(sorted) || |sorted| >= NO_LENGTH then None else Some(Head(5, |sorted|) + Joined(sorted))
  }

  // ----- the emitter

  method WriteInt(out: Bytes, i: int) returns (ok: bool, r: Bytes)
    ensures ok == EncodeInt(i).Some?
    ensures ok ==> r == out + EncodeInt(i).value
  {
    if i < -0x8000_0000_0000_0000 || i > 0x7fff_ffff_ffff_ffff {
      return false, out;
    }
    if i >= 0 {
      r := WriteHead(out, 0, i);
    } else {
      r := WriteHead(out, 1, -1 - i);
    }
    ok := true;
  }

  method WriteString(out: Bytes, major: nat, s: Bytes) returns (ok: bool, r: Bytes)
    requires major < 8
    ensures ok == EncodeString(major, s).Some?
    ensures ok ==> r == out + EncodeString(major, s).value
  {
    if |s| >= NO_LENGTH {
      return false, out;
    }
    r := WriteHead(out, major, |s|);
    r := r + s;
    ok := true;
  }

  method WriteKey(k: Value, out: Bytes, p: Profile) returns (ok: bool, r: Bytes)
    ensures ok == EncodeKey(k, p).Some?
    ensures ok ==> r == out + EncodeKey(k, p).value
  {
    match k
    case Int(i) =>
      if p.intKeys {
        ok, r := WriteInt(out, i);
      } else {
        ok, r := false, out;
      }
    case Text(s) =>
      ok, r := WriteString(out, 3, s);
    case _ =>
      ok, r := false, out;
  }

  method WriteValue(v: Value, out: Bytes, limit: int, p: Profile) returns (ok: bool, r: Bytes)
    ensures ok == Encode(v, limit, p).Some?
    ensures ok ==> r == out + Encode(v, limit, p).value
    decreases v, 1
  {
    hide Assemble, Head;
    ok, r := true, out;
    if limit < 0 {
      return false, r;
    }
    match v
    case Null =>
      r := r + [0xf6];
    case Bool(b) =>
      if p.bools {
        r := r + [if b then 0xf5 else 0xf4];
      } else {
        ok := false;
      }
    case Int(i) =>
      ok, r := WriteInt(r, i);
    case Text(s) =>
      ok, r := WriteString(r, 3, s);
    case ByteString(s) =>
      ok, r := WriteString(r, 2, s);
    case Array(items) =>
      if |items| >= NO_LENGTH {
        return false, r;
      }
      r := WriteHead(r, 4, |items|);
      ghost var start := r;
      for k := 0 to |items|
        invariant EncodeAll(items[..k], limit - 1, p).Some?
        invariant r == start + EncodeAll(items[..k], limit - 1, p).value
      {
        EncodeAllSplits(items, k, limit - 1, p);
        EncodeAllSnoc(items[..k], items[k], limit - 1, p);
        assert items[..k + 1] == items[..k] + [items[k]];
        var more;
        more, r := WriteValue(items[k], r, limit - 1, p);
        if !more {
          return false, r;
        }
      }
      assert items[..|items|] == items;
    case Map(entries) =>
      ok, r := WriteMap(entries, r, limit, p);
    case Other =>
      ok := false;
  }

  method WriteEntry(e: Entry, limit: int, p: Profile) returns (ok: bool, pair: (Bytes, Bytes))
    ensures ok == EncodeEntry(e, limit, p).Some?
    ensures ok ==> pair == EncodeEntry(e, limit, p).value
    decreases e
  {
    pair := ([], []);
    var keyOk, kb := WriteKey(e.key, [], p);
    if !keyOk {
      return false, pair;
    }
    var valueOk, vb := WriteValue(e.value, [], limit, p);
    if !valueOk {
      return false, pair;
    }
    assert [] + EncodeKey(e.key, p).value == EncodeKey(e.key, p).value;
    assert [] + Encode(e.value, limit, p).value == Encode(e.value, limit, p).value;
    return true, (kb, vb);
  }

  method WriteMap(entries: seq<Entry>, out: Bytes, limit: int, p: Profile) returns (ok: bool, r: Bytes)
    ensures ok == (EncodePairs(entries, limit - 1, p).Some? && Assemble(EncodePairs(entries, limit - 1, p).value).Some?)
    ensures ok ==> r == out + Assemble(EncodePairs(entries, limit - 1, p).value).value
    decreases entries, 0
  {
    hide EncodeEntry, Sort, HasDuplicate, Head;
    r := out;
    var pairs: seq<(Bytes, Bytes)> := [];
    for k := 0 to |entries|
      invariant EncodePairs(entries[..k], limit - 1, p) == Some(pairs)
    {
      EncodePairsAt(entries, k, limit - 1, p);
      EncodePairsSnoc(entries[..k], entries[k], limit - 1, p);
      assert entries[..k + 1] == entries[..k] + [entries[k]];
      var more, pair := WriteEntry(entries[k], limit - 1, p);
      if !more {
        return false, r;
      }
      pairs := pairs + [pair];
    }
    assert entries[..|entries|] == entries;
    pairs := Sort(pairs);
    if HasDuplicate(pairs) || |pairs| >= NO_LENGTH {
      return false, r;
    }
    r := WriteHead(r, 5, |pairs|);
    ghost var start := r;
    for k := 0 to |pairs|
      invariant r == start + Joined(pairs[..k])
    {
      JoinedSnoc(pairs[..k], pairs[k]);
      assert pairs[..k + 1] == pairs[..k] + [pairs[k]];
      r := r + pairs[k].0;
      r := r + pairs[k].1;
    }
    assert pairs[..|pairs|] == pairs;
    ok := true;
  }

  // ----- the loops read left to right, the encoding is defined right to left

  lemma {:induction false} EncodeAllSnoc(items: seq<Value>, v: Value, limit: int, p: Profile)
    requires EncodeAll(items, limit, p).Some?
    ensures var all := EncodeAll(items + [v], limit, p);
            all.Some? == Encode(v, limit, p).Some? &&
            (all.Some? ==> all.value == EncodeAll(items, limit, p).value + Encode(v, limit, p).value)
    decreases |items|
  {
    if items == [] {
      assert [v][1..] == [];
    } else {
      assert (items + [v])[1..] == items[1..] + [v];
      EncodeAllSnoc(items[1..], v, limit, p);
    }
  }

  /** A failing element makes the whole fail. */
  lemma {:induction false} EncodeAllSplits(items: seq<Value>, k: nat, limit: int, p: Profile)
    requires k < |items|
    ensures EncodeAll(items, limit, p).Some? ==> Encode(items[k], limit, p).Some?
    decreases |items|
  {
    if k > 0 {
      EncodeAllSplits(items[1..], k - 1, limit, p);
    }
  }

  lemma {:induction false} EncodePairsSnoc(entries: seq<Entry>, e: Entry, limit: int, p: Profile)
    requires EncodePairs(entries, limit, p).Some?
    ensures var all := EncodePairs(entries + [e], limit, p);
            all.Some? == EncodeEntry(e, limit, p).Some? &&
            (all.Some? ==> all.value == EncodePairs(entries, limit, p).value + [EncodeEntry(e, limit, p).value])
    decreases |entries|
  {
    hide EncodeEntry;
    if entries == [] {
      assert [e][1..] == [];
    } else {
      assert (entries + [e])[1..] == entries[1..] + [e];
      EncodePairsSnoc(entries[1..], e, limit, p);
    }
  }

  lemma {:induction false} EncodePairsAt(entries: seq<Entry>, k: nat, limit: int, p: Profile)
    requires k < |entries|
    ensures var all := EncodePairs(entries, limit, p);
            all.Some? ==> EncodeEntry(entries[k], limit, p) == Some(all.value[k])
    decreases |entries|
  {
    hide EncodeEntry;
    if k > 0 {
      EncodePairsAt(entries[1..], k - 1, limit, p);
    }
  }

  lemma {:induction false} JoinedSnoc(pairs: seq<(Bytes, Bytes)>, e: (Bytes, Bytes))
    ensures Joined(pairs + [e]) == Joined(pairs) + e.0 + e.1
  {
    if pairs == [] {
      assert [e][1..] == [];
    } else {
      assert (pairs + [e])[1..] == pairs[1..] + [e];
      JoinedSnoc(pairs[1..], e);
    }
  }
}
