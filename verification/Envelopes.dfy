/** Which bytes are a signed envelope (verify-rs/src/b28.rs): the closed form of a COSE_Sign1 message that carries a
    core, and what an accepted signature says about it. */
module Envelopes {
  import opened Bytes
  import Sorting
  import opened CborWire
  import opened CborScan
  import opened CborCanonical
  import opened Documents

  // ----- strict decoding, as an equation

  /** These bytes are the canonical encoding of this value, in normal form and within the decoder's caps. */
  ghost predicate Encodes(data: Bytes, cap: nat, v: Value) {
    |data| <= cap && Canonical(v) == Some(data) && Norm(v, CWT_PROFILE) == v && TextValid(v) && Items(v) <= MAX_ITEMS
  }

  lemma {:induction false} DecodeIff(data: Bytes, cap: nat, v: Value)
    ensures Decode(data, cap) == Some(v) <==> Encodes(data, cap, v)
  {
    hide Encode, Norm, TextValid, Items, Depth, Parse, Scanned;
    DecodesCanonicalOnly(data, MAX_DEPTH, cap, CWT_PROFILE);
    if Decode(data, cap) == Some(v) {
      var w :| Encode(w, MAX_DEPTH, CWT_PROFILE) == Some(data) && TextValid(w) && Items(w) <= MAX_ITEMS;
      NormItems(w, CWT_PROFILE);
      NormKeepsText(w, CWT_PROFILE);
    }
    if Encodes(data, cap, v) {
      EncodeDepth(v, MAX_DEPTH, CWT_PROFILE);
    }
  }

  /** A value whose encoding is `data` decodes to its normal form. */
  lemma {:induction false} DecodesToNorm(data: Bytes, cap: nat, v: Value)
    requires |data| <= cap && Canonical(v) == Some(data) && TextValid(v) && Items(v) <= MAX_ITEMS
    ensures Decode(data, cap) == Some(Norm(v, CWT_PROFILE))
  {
    hide Encode, Norm, TextValid, Items, Depth, Parse, Scanned;
    DecodesCanonicalOnly(data, MAX_DEPTH, cap, CWT_PROFILE);
    EncodeDepth(v, MAX_DEPTH, CWT_PROFILE);
  }

  // ----- small maps by their members

  lemma {:induction false} LookupIn(entries: seq<Entry>, key: Value)
    requires Lookup(entries, key).Some?
    ensures Entry(key, Lookup(entries, key).value) in entries
  {
    if entries[0].key != key {
      LookupIn(entries[1..], key);
    }
  }

  lemma {:induction false} ThreeEntries(entries: seq<Entry>, a: Entry, b: Entry, c: Entry)
    requires |entries| == 3 && a in entries && b in entries && c in entries && a != b && a != c && b != c
    ensures multiset(entries) == multiset([a, b, c])
  {
    assert entries == [entries[0], entries[1], entries[2]];
  }

  lemma {:induction false} TwoEntries(entries: seq<Entry>, a: Entry, b: Entry)
    requires |entries| == 2 && a in entries && b in entries && a != b
    ensures multiset(entries) == multiset([a, b])
  {
    assert entries == [entries[0], entries[1]];
  }

  // ----- the protected header

  /** Algorithm EdDSA, the media type, and the signer's key identifier (section 3.1 of RFC 9052). */
  function HeaderValue(kid: Bytes): Value {
    Map([Entry(Int(1), Int(-8)), Entry(Int(3), Text(MEDIA)), Entry(Int(4), ByteString(kid))])
  }

  ghost predicate Names(protected: Bytes, kid: Bytes) {
    && |protected| <= 4096 && Canonical(HeaderValue(kid)) == Some(protected)
    && 0 < |kid| <= 128 && forall i | 0 <= i < |kid| :: kid[i] < 128
  }

  lemma {:induction false} AsciiIsUtf8(b: Bytes)
    requires forall i | 0 <= i < |b| :: b[i] < 128
    ensures Utf8(b)
  {
    if b != [] {
      AsciiIsUtf8(b[1..]);
    }
  }

  lemma {:induction false} HeaderReads(protected: Bytes, kid: Bytes)
    requires HeaderKid(protected) == Some(kid)
    ensures Names(protected, kid)
  {
    hide Encode, Norm, TextValid, Items, Lookup, Ascii;
    var v := Decode(protected, 4096).value;
    DecodeIff(protected, 4096, v);
    LookupIn(v.entries, Int(1));
    LookupIn(v.entries, Int(3));
    LookupIn(v.entries, Int(4));
    ThreeEntries(v.entries, Entry(Int(1), Int(-8)), Entry(Int(3), Text(MEDIA)), Entry(Int(4), ByteString(kid)));
    EntryOrderIrrelevant(v.entries, HeaderValue(kid).entries, MAX_DEPTH, CWT_PROFILE);
  }

  lemma {:induction false} MediaIsAscii()
    ensures forall i | 0 <= i < |MEDIA| :: MEDIA[i] < 128
  {
  }

  lemma {:induction false} HeaderPlain(kid: Bytes)
    ensures TextValid(HeaderValue(kid)) && Items(HeaderValue(kid)) <= MAX_ITEMS
  {
    hide Utf8, Ascii;
    MediaIsAscii();
    AsciiIsUtf8(MEDIA);
    var e := HeaderValue(kid).entries;
    assert EntryTextValid(e[0]) && EntryTextValid(e[1]) && EntryTextValid(e[2]);
    assert e[1..] == [e[1], e[2]] && e[1..][1..] == [e[2]] && e[1..][1..][1..] == [];
    assert ItemsEntry(e[0]) == 2 && ItemsEntry(e[1]) == 2 && ItemsEntry(e[2]) == 2;
    assert ItemsEntries([e[2]]) == 2 && ItemsEntries([e[1], e[2]]) == 4;
  }

  lemma {:induction false} HeaderMembers(kid: Bytes)
    ensures var v := Norm(HeaderValue(kid), CWT_PROFILE);
            && v.Map? && |v.entries| == 3 && Member(v, 1) == Some(Int(-8)) && Member(v, 3) == Some(Text(MEDIA)) && Member(v, 4) == Some(ByteString(kid))
  {
    hide Ascii, Sorting.Sort;
    var e := HeaderValue(kid).entries;
    LookupNorm(e, Int(1), CWT_PROFILE);
    LookupNorm(e, Int(3), CWT_PROFILE);
    LookupNorm(e, Int(4), CWT_PROFILE);
    assert e[1..] == [e[1], e[2]] && e[1..][1..] == [e[2]];
    assert Lookup([e[2]], Int(4)) == Some(ByteString(kid)) && Lookup([e[1], e[2]], Int(4)) == Some(ByteString(kid));
    NormOnlyReorders(e, CWT_PROFILE);
    assert |multiset(Norm(Map(e), CWT_PROFILE).entries)| == |multiset(NormEach(e, CWT_PROFILE))|;
  }

  lemma {:induction false} HeaderIff(protected: Bytes, kid: Bytes)
    ensures HeaderKid(protected) == Some(kid) <==> Names(protected, kid)
  {
    hide Encode, Norm, TextValid, Items, HeaderValue, Ascii, Lookup;
    if HeaderKid(protected) == Some(kid) {
      HeaderReads(protected, kid);
    }
    if Names(protected, kid) {
      HeaderPlain(kid);
      DecodesToNorm(protected, 4096, HeaderValue(kid));
      HeaderMembers(kid);
    }
  }

  // ----- the claims

  function ClaimsValue(profile: Value, core: Value): Value {
    Map([Entry(Int(265), profile), Entry(Int(-65_537), core)])
  }

  ghost predicate Claims(payload: Bytes, profile: Value, core: Value) {
    && ProfileMatches(profile) && Canonical(ClaimsValue(profile, core)) == Some(payload)
    && TextValid(ClaimsValue(profile, core)) && Items(ClaimsValue(profile, core)) <= MAX_ITEMS
  }

  /** The payload is the canonical claims set of this core, under either profile. */
  ghost predicate States(payload: Bytes, core: Value) {
    |payload| <= MAX_CWT && Norm(core, CWT_PROFILE) == core && exists profile :: Claims(payload, profile, core)
  }

  /** A map of two entries in either order. */
  lemma {:induction false} SwapEntries(v: Value, a: Entry, b: Entry)
    requires v == Map([a, b]) || v == Map([b, a])
    ensures Items(v) == Items(Map([a, b])) && (TextValid(v) <==> TextValid(Map([a, b])))
    ensures Canonical(v) == Canonical(Map([a, b]))
  {
    hide Encode, ItemsEntry, EntryTextValid;
    EntryOrderIrrelevant(v.entries, [a, b], MAX_DEPTH, CWT_PROFILE);
    assert [a, b][1..] == [b] && [b, a][1..] == [a] && [a][1..] == [] && [b][1..] == [];
    assert ItemsEntries([a]) == ItemsEntry(a) && ItemsEntries([b]) == ItemsEntry(b);
    assert TextValid(Map([a, b])) <==> EntryTextValid([a, b][0]) && EntryTextValid([a, b][1]);
    assert TextValid(Map([b, a])) <==> EntryTextValid([b, a][0]) && EntryTextValid([b, a][1]);
  }

  lemma {:induction false} ClaimsRead(payload: Bytes, core: Value)
    requires ClaimedCore(payload) == Some(core)
    ensures States(payload, core)
  {
    hide Encode, Norm, TextValid, Items, Lookup, Ascii, ProfileMatches;
    var v := Decode(payload, MAX_CWT).value;
    DecodeIff(payload, MAX_CWT, v);
    LookupIn(v.entries, Int(265));
    LookupIn(v.entries, Int(-65_537));
    LookupNorm(v.entries, Int(-65_537), CWT_PROFILE);
    var profile := Member(v, 265).value;
    var a, b := Entry(Int(265), profile), Entry(Int(-65_537), core);
    assert v.entries == [v.entries[0], v.entries[1]];
    SwapEntries(v, a, b);
    assert Claims(payload, profile, core);
  }

  lemma {:induction false} ProfileNorm(profile: Value)
    requires ProfileMatches(profile)
    ensures Norm(profile, CWT_PROFILE) == profile
  {
    hide Ascii;
  }

  lemma {:induction false} ClaimsMembers(profile: Value, core: Value)
    requires ProfileMatches(profile) && Norm(core, CWT_PROFILE) == core
    ensures var v := Norm(ClaimsValue(profile, core), CWT_PROFILE);
            && v.Map? && |v.entries| == 2 && Member(v, 265) == Some(profile) && Member(v, -65_537) == Some(core)
            && forall i | 0 <= i < 2 :: v.entries[i].key in {Int(265), Int(-65_537)}
  {
    hide Ascii, Sorting.Sort, Norm, ProfileMatches;
    ProfileNorm(profile);
    var e := ClaimsValue(profile, core).entries;
    LookupNorm(e, Int(265), CWT_PROFILE);
    LookupNorm(e, Int(-65_537), CWT_PROFILE);
    assert e[1..] == [e[1]] && Lookup([e[1]], Int(-65_537)) == Some(core);
    NormOnlyReorders(e, CWT_PROFILE);
    var normal, each := Norm(Map(e), CWT_PROFILE).entries, NormEach(e, CWT_PROFILE);
    assert |multiset(normal)| == |multiset(each)|;
    SameMembers(normal, each);
    assert each[1..] == NormEach(e[1..], CWT_PROFILE) && |each| == 2;
    forall i | 0 <= i < 2 ensures normal[i].key in {Int(265), Int(-65_537)} {
      assert normal[i] in each;
      assert normal[i] == each[0] || normal[i] == each[1];
    }
  }

  lemma {:induction false} ClaimsIff(payload: Bytes, core: Value)
    ensures ClaimedCore(payload) == Some(core) <==> States(payload, core)
  {
    hide Encode, Norm, TextValid, Items, ClaimsValue, Ascii, Lookup, ProfileMatches;
    if ClaimedCore(payload) == Some(core) {
      ClaimsRead(payload, core);
    }
    if States(payload, core) {
      var profile :| Claims(payload, profile, core);
      DecodesToNorm(payload, MAX_CWT, ClaimsValue(profile, core));
      ClaimsMembers(profile, core);
    }
  }

  lemma {:induction false} StatedCoreEncodes(payload: Bytes, core: Value)
    requires States(payload, core)
    ensures Canonical(core).Some?
  {
    hide Norm, TextValid, Items, Ascii, ProfileMatches, Assemble;
    var profile :| Claims(payload, profile, core);
    var e := ClaimsValue(profile, core).entries;
    assert e[1..] == [e[1]] && Lookup([e[1]], Int(-65_537)) == Some(core);
    MemberEncodes(e, Int(-65_537), MAX_DEPTH - 1, CWT_PROFILE);
    EncodeWidens(core, MAX_DEPTH - 1, MAX_DEPTH, CWT_PROFILE);
  }

  // ----- the envelope

  function EnvelopeValue(protected: Bytes, payload: Bytes, signature: Bytes): Value {
    Array([ByteString(protected), Map([]), ByteString(payload), ByteString(signature)])
  }

  /** The bytes are a tagged COSE_Sign1 message of these parts (section 4.2 of RFC 9052). */
  ghost predicate Carries(raw: Bytes, protected: Bytes, payload: Bytes, signature: Bytes) {
    |raw| <= MAX_CWT && raw != [] && raw[0] == 0xd2 && Canonical(EnvelopeValue(protected, payload, signature)) == Some(raw[1..]) && |signature| == 64
  }

  lemma {:induction false} EnvelopePlain(protected: Bytes, payload: Bytes, signature: Bytes)
    ensures var v := EnvelopeValue(protected, payload, signature);
            TextValid(v) && Items(v) <= MAX_ITEMS && Norm(v, CWT_PROFILE) == v && IsEnvelope(v) == (|signature| == 64)
  {
    var v := EnvelopeValue(protected, payload, signature);
    var i := v.items;
    assert TextValid(i[0]) && TextValid(i[1]) && TextValid(i[2]) && TextValid(i[3]);
    assert i[1..] == [i[1], i[2], i[3]] && i[1..][1..] == [i[2], i[3]] && i[1..][1..][1..] == [i[3]] && i[1..][1..][1..][1..] == [];
    assert ItemsAll([i[3]]) == 1 && ItemsAll([i[2], i[3]]) == 2 && ItemsAll([i[1], i[2], i[3]]) == 3 && ItemsAll(i) == 4;
    assert Norm(Map([]), CWT_PROFILE) == Map([]);
    forall k | 0 <= k < 4 ensures NormAll(i, CWT_PROFILE)[k] == i[k] {
      NormAllAt(i, k, CWT_PROFILE);
    }
    assert NormAll(i, CWT_PROFILE) == i;
  }

  lemma {:induction false} EnvelopeParts(v: Value)
    requires IsEnvelope(v)
    ensures v == EnvelopeValue(v.items[0].raw, v.items[2].raw, v.items[3].raw)
  {
    assert v.items == EnvelopeValue(v.items[0].raw, v.items[2].raw, v.items[3].raw).items;
  }

  /** An envelope with these parts. */
  ghost predicate Holds(raw: Bytes, x: Cwt) {
    Carries(raw, x.protected, x.payload, x.signature) && Names(x.protected, x.kid) && States(x.payload, x.core) && Canonical(x.core) == Some(x.coreBytes)
  }

  lemma {:induction false} InspectReads(c: Crypto, raw: Bytes, s: Schema, x: Cwt)
    requires InspectCwt(c, raw, s) == Some(x)
    ensures Holds(raw, x) && ValidCore(c, s, x.core)
  {
    hide Encode, Norm, TextValid, Items, HeaderKid, ClaimedCore, Names, States, ValidCore, IsEnvelope, EnvelopeValue, Decode;
    var v := Decode(raw[1..], MAX_CWT).value;
    DecodeIff(raw[1..], MAX_CWT, v);
    EnvelopeParts(v);
    EnvelopePlain(x.protected, x.payload, x.signature);
    HeaderIff(x.protected, x.kid);
    ClaimsIff(x.payload, x.core);
  }

  lemma {:induction false} HoldsIsInspected(c: Crypto, raw: Bytes, s: Schema, x: Cwt)
    requires Holds(raw, x) && ValidCore(c, s, x.core)
    ensures InspectCwt(c, raw, s) == Some(x)
  {
    hide Encode, Norm, TextValid, Items, HeaderKid, ClaimedCore, Names, States, ValidCore, IsEnvelope, Decode;
    EnvelopePlain(x.protected, x.payload, x.signature);
    DecodeIff(raw[1..], MAX_CWT, EnvelopeValue(x.protected, x.payload, x.signature));
    HeaderIff(x.protected, x.kid);
    ClaimsIff(x.payload, x.core);
  }

  /** Reading an envelope yields exactly the parts whose canonical encodings nest to its bytes. */
  lemma {:induction false} InspectIff(c: Crypto, raw: Bytes, s: Schema, x: Cwt)
    ensures InspectCwt(c, raw, s) == Some(x) <==> Holds(raw, x) && ValidCore(c, s, x.core)
  {
    hide Holds, ValidCore, InspectCwt;
    if InspectCwt(c, raw, s) == Some(x) {
      InspectReads(c, raw, s, x);
    }
    if Holds(raw, x) && ValidCore(c, s, x.core) {
      HoldsIsInspected(c, raw, s, x);
    }
  }

  // ----- signatures

  /** The structure a signature is over (section 4.4 of RFC 9052). */
  function SignatureValue(protected: Bytes, payload: Bytes): Value {
    Array([Text(Ascii("Signature1")), ByteString(protected), ByteString([]), ByteString(payload)])
  }

  ghost predicate SignedParts(c: Crypto, key: Bytes, protected: Bytes, payload: Bytes, signature: Bytes) {
    var message := Canonical(SignatureValue(protected, payload));
    message.Some? && c.ed25519(key, message.value, signature)
  }

  /** These bytes are an envelope of this core, of this schema, whose signature this key verifies and whose header
      names it. */
  ghost predicate SignedBy(c: Crypto, key: Bytes, raw: Bytes, s: Schema, core: Value) {
    && ValidCore(c, s, core)
    && exists protected, payload, signature :: && Carries(raw, protected, payload, signature) && SignedParts(c, key, protected, payload, signature)
                                               && Names(protected, c.keyId(key)) && States(payload, core)
  }

  lemma {:induction false} ReadIsSigned(c: Crypto, key: Bytes, raw: Bytes, s: Schema, x: Cwt)
    requires InspectCwt(c, raw, s) == Some(x) && SignatureValid(c, x, key)
    ensures SignedBy(c, key, raw, s, x.core) && x.kid == c.keyId(key)
  {
    hide InspectCwt, Carries, Names, States, ValidCore, Canonical, Ascii;
    InspectReads(c, raw, s, x);
    assert SignedParts(c, key, x.protected, x.payload, x.signature);
  }

  /** Some key of the table, under its own identifier, signed it. */
  ghost predicate SignedByOneOf(c: Crypto, keys: map<Bytes, Bytes>, raw: Bytes, s: Schema, core: Value) {
    exists kid | kid in keys :: kid == c.keyId(keys[kid]) && SignedBy(c, keys[kid], raw, s, core)
  }

  lemma {:induction false} SignedOpens(c: Crypto, raw: Bytes, s: Schema, keys: map<Bytes, Bytes>, core: Value)
    requires SignedByOneOf(c, keys, raw, s, core)
    ensures var x := SignedCwt(c, raw, s, keys); x.Some? && x.value.core == core
  {
    hide InspectCwt, SignedBy, SignatureValid;
    var kid :| kid in keys && kid == c.keyId(keys[kid]) && SignedBy(c, keys[kid], raw, s, core);
    var x := OpenSigned(c, keys[kid], raw, s, core);
  }

  /** A document read under a table of keys is one that a key of the table, under its own identifier, signed. */
  lemma {:induction false} SignedIff(c: Crypto, raw: Bytes, s: Schema, keys: map<Bytes, Bytes>, core: Value)
    ensures var x := SignedCwt(c, raw, s, keys); (x.Some? && x.value.core == core) <==> SignedByOneOf(c, keys, raw, s, core)
  {
    hide InspectCwt, SignedBy, SignatureValid;
    var r := SignedCwt(c, raw, s, keys);
    if r.Some? && r.value.core == core {
      ReadIsSigned(c, keys[r.value.kid], raw, s, r.value);
    } else if SignedByOneOf(c, keys, raw, s, core) {
      SignedOpens(c, raw, s, keys, core);
    }
  }

  /** A table of one key under its own identifier. */
  lemma {:induction false} OneKeySignedIff(c: Crypto, raw: Bytes, s: Schema, keys: map<Bytes, Bytes>, key: Bytes, core: Value)
    requires keys == map[c.keyId(key) := key]
    ensures var x := SignedCwt(c, raw, s, keys); (x.Some? && x.value.core == core) <==> SignedBy(c, key, raw, s, core)
  {
    hide SignedBy, SignedCwt;
    SignedIff(c, raw, s, keys, core);
    assert c.keyId(key) in keys && keys[c.keyId(key)] == key;
  }

  /** The parts of a signed envelope, as read. */
  lemma {:induction false} OpenSigned(c: Crypto, key: Bytes, raw: Bytes, s: Schema, core: Value) returns (x: Cwt)
    requires SignedBy(c, key, raw, s, core)
    ensures InspectCwt(c, raw, s) == Some(x) && x.core == core && x.kid == c.keyId(key) && SignatureValid(c, x, key)
  {
    hide InspectCwt, Carries, Names, States, ValidCore, Canonical, Ascii;
    var protected, payload, signature :| && Carries(raw, protected, payload, signature) && SignedParts(c, key, protected, payload, signature)
                                         && Names(protected, c.keyId(key)) && States(payload, core);
    StatedCoreEncodes(payload, core);
    x := Cwt(core, Canonical(core).value, payload, protected, signature, c.keyId(key));
    HoldsIsInspected(c, raw, s, x);
  }

  lemma {:induction false} RootIff(c: Crypto, raw: Bytes, s: Schema, roots: map<Bytes, Anchor>, core: Value)
    ensures var x := RootCwt(c, raw, s, roots);
            (x.Some? && x.value.core == core) <==>
            (exists kid | kid in roots :: && kid == c.keyId(roots[kid].key) && SignedBy(c, roots[kid].key, raw, s, core)
                                          && Field(core, OrganisationRoot) == ByteString(roots[kid].fingerprint))
  {
    hide InspectCwt, SignedBy, SignatureValid, Field;
    var r := RootCwt(c, raw, s, roots);
    if r.Some? && r.value.core == core {
      ReadIsSigned(c, roots[r.value.kid].key, raw, s, r.value);
    }
    if kid :| kid in roots && kid == c.keyId(roots[kid].key) && SignedBy(c, roots[kid].key, raw, s, core)
              && Field(core, OrganisationRoot) == ByteString(roots[kid].fingerprint) {
      var x := OpenSigned(c, roots[kid].key, raw, s, core);
    }
  }

  // ----- what is read of a valid core is what it carries

  lemma {:induction false} UintIff(v: Value, n: nat)
    ensures UintOf(v) == Some(n) <==> v == Int(n) && n <= 0x7fff_ffff_ffff_ffff
  {
  }

  lemma {:induction false} LookupIff(entries: seq<Entry>, key: Value, value: Value)
    requires forall i, j | 0 <= i < j < |entries| :: entries[i].key != entries[j].key
    ensures Lookup(entries, key) == Some(value) <==> Entry(key, value) in entries
  {
    if entries != [] {
      var rest := entries[1..];
      assert forall i, j | 0 <= i < j < |rest| :: rest[i] == entries[i + 1] && rest[j] == entries[j + 1];
      LookupIff(rest, key, value);
      assert entries == [entries[0]] + rest;
    }
  }

  /** The member is carried, once, as this value. */
  ghost predicate CarriesMember(v: Value, n: Name, w: Value) {
    v.Map? && Entry(Text(Spell(n)), w) in v.entries && forall x | Entry(Text(Spell(n)), x) in v.entries :: x == w
  }

  lemma {:induction false} FieldIsCarried(v: Value, n: Name, s: Schema)
    requires IsDocument(v, Some(s), Fields(s)) && n in Fields(s)
    ensures CarriesMember(v, n, Field(v, n))
  {
    hide Spell, Fields, Lookup, AcceptedName;
    forall x ensures Lookup(v.entries, Text(Spell(n))) == Some(x) <==> Entry(Text(Spell(n)), x) in v.entries {
      LookupIff(v.entries, Text(Spell(n)), x);
    }
  }

  /** A member of this kind is read as it is carried: a number in range, a positive one above zero, a string of the
      demanded length. */
  ghost predicate ReadsAs(k: Kind, v: Value, raw: Bytes, num: nat) {
    match k
    case Count => v == Int(num) && num <= 0x7fff_ffff_ffff_ffff
    case Positive => v == Int(num) && 0 < num <= 0x7fff_ffff_ffff_ffff
    case Token => v == ByteString(raw) && |raw| == 32 && raw != Zero32()
    case Fixed => v == ByteString(raw) && |raw| == 32
    case Blob(least, most) => v == ByteString(raw) && least <= |raw| <= most
    case Label(most) => v == Text(raw) && 0 < |raw| <= most && 0 !in raw
    case Amount => v == Text(raw) && 0 < |raw| <= 78 && (raw[0] == 48 ==> |raw| == 1) && forall i | 0 <= i < |raw| :: 48 <= raw[i] <= 57
    case Flag => v == Bool(true) || v == Bool(false)
    case Anything => true
  }

  /** Every member a schema demands is carried once and read as carried; no stage ever reads a default in its place. */
  lemma {:induction false} MembersAreRead(c: Crypto, s: Schema, v: Value, n: Name)
    requires ValidCore(c, s, v) && n in Fields(s)
    ensures CarriesMember(v, n, Field(v, n)) && ReadsAs(KindOf(s, n), Field(v, n), Raw(v, n), Num(v, n))
  {
    hide Coherent, KindOf, Fields, Field, IsDocument;
    FieldIsCarried(v, n, s);
    assert Fits(KindOf(s, n), Field(v, n));
  }

  function Zero32(): Bytes {
    seq(32, _ => 0)
  }

  // ----- no document is of two kinds

  /** Length, second and seventh letter of a schema's name. */
  function Mark(s: Schema): (nat, int, int) {
    match s
    case ActionCore => (14, 99, 45)
    case AgentRef => (12, 103, 114)
    case ResourceRef => (15, 101, 99)
    case PartyRef => (12, 97, 114)
    case ChallengeCore => (17, 104, 110)
    case AsaCore => (11, 115, 114)
    case PresentationCore => (20, 114, 116)
    case Delegation => (18, 111, 101)
    case Template => (24, 101, 114)
    case Binding => (16, 100, 98)
    case Selection => (18, 100, 115)
    case AdminChallengeDoc => (18, 100, 99)
    case Consumption => (20, 100, 99)
    case Pop => (12, 103, 112)
    case Credential => (19, 103, 99)
    case Successor => (18, 103, 115)
    case Grant => (14, 105, 103)
    case Checkpoint => (23, 117, 105)
    case Snapshot => (18, 116, 45)
    case Membership => (29, 117, 105)
  }

  lemma {:induction false} TailLength(s: Schema)
    ensures |Tail(s)| == Mark(s).0 >= 7
  {
  }

  predicate Lettered(s: Schema) {
    |Tail(s)| >= 7 && Tail(s)[1] == Mark(s).1 && Tail(s)[6] == Mark(s).2
  }

  lemma {:induction false} ExchangeLetters(s: Schema)
    requires s.ActionCore? || s.AgentRef? || s.ResourceRef? || s.PartyRef? || s.ChallengeCore? || s.AsaCore? || s.PresentationCore?
    ensures Lettered(s)
  {
    TailLength(s);
  }

  lemma {:induction false} RegistrationLetters(s: Schema)
    requires s.Delegation? || s.Template? || s.Binding? || s.Selection? || s.AdminChallengeDoc? || s.Consumption? || s.Pop?
    ensures Lettered(s)
  {
    TailLength(s);
  }

  lemma {:induction false} AuthorityLetters(s: Schema)
    requires s.Credential? || s.Successor? || s.Grant? || s.Checkpoint? || s.Snapshot? || s.Membership?
    ensures Lettered(s)
  {
    TailLength(s);
  }

  lemma {:induction false} TailLetters(s: Schema)
    ensures Lettered(s)
  {
    hide Lettered;
    if s.Credential? || s.Successor? || s.Grant? || s.Checkpoint? || s.Snapshot? || s.Membership? {
      AuthorityLetters(s);
    } else if s.Delegation? || s.Template? || s.Binding? || s.Selection? || s.AdminChallengeDoc? || s.Consumption? || s.Pop? {
      RegistrationLetters(s);
    } else {
      ExchangeLetters(s);
    }
  }

  lemma {:induction false} MarksDiffer(s: Schema, t: Schema)
    requires Mark(s) == Mark(t)
    ensures s == t
  {
  }

  lemma {:induction false} PrefixesDiffer(a: Bytes, b: Bytes)
    ensures Ascii("swarrm-b28/") + a != Ascii("swarrm/") + b
    ensures Ascii("swarrm-b28/") + a == Ascii("swarrm-b28/") + b ==> a == b
    ensures Ascii("swarrm/") + a == Ascii("swarrm/") + b ==> a == b
  {
    assert (Ascii("swarrm-b28/") + a)[6] == 45 && (Ascii("swarrm/") + b)[6] == 47;
    assert (Ascii("swarrm-b28/") + a)[11..] == a && (Ascii("swarrm-b28/") + b)[11..] == b;
    assert (Ascii("swarrm/") + a)[7..] == a && (Ascii("swarrm/") + b)[7..] == b;
  }

  /** A core is valid for one schema only, whichever generation's name it carries. */
  lemma {:induction false} SchemasAreDisjoint(c: Crypto, s: Schema, t: Schema, v: Value)
    requires ValidCore(c, s, v) && ValidCore(c, t, v)
    ensures s == t
  {
    hide Coherent, KindOf, Fields, Fits, Ascii, Tail, Mark;
    var name := Field(v, SchemaField);
    assert AcceptedName(name, s) && AcceptedName(name, t);
    PrefixesDiffer(Tail(s), Tail(t));
    PrefixesDiffer(Tail(t), Tail(s));
    TailLength(s);
    TailLength(t);
    TailLetters(s);
    TailLetters(t);
    MarksDiffer(s, t);
  }

  /** One envelope is of one core, one schema and one key identifier, whoever is asked: no signature over one kind of
      document can stand for another. */
  lemma {:induction false} OneEnvelopeOneCore(c: Crypto, k: Bytes, l: Bytes, raw: Bytes, s: Schema, t: Schema, v: Value, w: Value)
    requires SignedBy(c, k, raw, s, v) && SignedBy(c, l, raw, t, w)
    ensures v == w && s == t && c.keyId(k) == c.keyId(l)
  {
    hide ValidCore, Decode, HeaderKid, ClaimedCore, SignatureValid;
    var x := OpenSigned(c, k, raw, s, v);
    var y := OpenSigned(c, l, raw, t, w);
    SchemasAreDisjoint(c, s, t, v);
  }
}
