/** Item heads of deterministic CBOR (section 4.2.1 of RFC 8949): the minimal writer and the reader
    of verify-rs/src/cbor_wire.rs. */
module CborHead {
  import opened Bytes

  const U64 := 0x1_0000_0000_0000_0000

  // ----- big-endian integers

  function Power256(w: nat): (p: nat)
    ensures p > 0
  {
    if w == 0 then 1 else 256 * Power256(w - 1)
  }

  function BigEndian(n: nat, w: nat): (b: Bytes)
    ensures |b| == w
  {
    if w == 0 then [] else BigEndian(n / 256, w - 1) + [n % 256]
  }

  function FromBigEndian(b: Bytes): nat {
    if b == [] then 0 else 256 * FromBigEndian(b[..|b| - 1]) + b[|b| - 1]
  }

  lemma {:induction false} BigEndianRoundTrip(n: nat, w: nat)
    requires n < Power256(w)
    ensures FromBigEndian(BigEndian(n, w)) == n
  {
    if w > 0 {
      BigEndianRoundTrip(n / 256, w - 1);
      var b := BigEndian(n, w);
      assert b[..|b| - 1] == BigEndian(n / 256, w - 1);
    }
  }

  lemma {:induction false} FromBigEndianBound(b: Bytes)
    ensures FromBigEndian(b) < Power256(|b|)
  {
    if b != [] {
      FromBigEndianBound(b[..|b| - 1]);
    }
  }

  lemma {:induction false} BigEndianMonotone(a: nat, b: nat, w: nat)
    requires a < b < Power256(w)
    ensures Less(BigEndian(a, w), BigEndian(b, w))
  {
    var p, q := BigEndian(a / 256, w - 1), BigEndian(b / 256, w - 1);
    if a / 256 == b / 256 {
      LessAfterPrefix(p, [a % 256], [b % 256]);
    } else {
      BigEndianMonotone(a / 256, b / 256, w - 1);
      LessIrreflexive(p);
      LessIgnoresSuffix(p, q, [a % 256], [b % 256]);
    }
  }

  lemma {:induction false} Powers()
    ensures Power256(1) == 0x100 && Power256(2) == 0x1_0000 && Power256(4) == 0x1_0000_0000 && Power256(8) == U64
  {
    assert Power256(1) == 256 * Power256(0);
    assert Power256(2) == 256 * Power256(1);
    assert Power256(3) == 256 * Power256(2);
    assert Power256(4) == 256 * Power256(3);
    assert Power256(5) == 256 * Power256(4);
    assert Power256(6) == 256 * Power256(5);
    assert Power256(7) == 256 * Power256(6);
    assert Power256(8) == 256 * Power256(7);
  }

  // ----- heads

  /** Bytes of argument after the initial byte: none, 1, 2, 4 or 8, whichever is the least that fits. */
  function Width(arg: nat): nat {
    if arg < 24 then 0 else if arg < 0x100 then 1 else if arg < 0x1_0000 then 2 else if arg < 0x1_0000_0000 then 4 else 8
  }

  /** The five-bit information field that announces a width. */
  function Info(arg: nat): nat {
    if arg < 24 then arg else if arg < 0x100 then 24 else if arg < 0x1_0000 then 25 else if arg < 0x1_0000_0000 then 26 else 27
  }

  function Head(major: nat, arg: nat): (b: Bytes)
    requires major < 8
    ensures |b| == 1 + Width(arg)
  {
    [major * 32 + Info(arg)] + BigEndian(arg, Width(arg))
  }

  method WriteHead(out: Bytes, major: nat, arg: nat) returns (r: Bytes)
    requires major < 8 && arg < U64
    ensures r == out + Head(major, arg)
  {
    if arg <= 23 {
      r := out + [major * 32 + arg];
    } else if arg <= 0xff {
      assert BigEndian(arg, 1) == BigEndian(arg / 256, 0) + [arg % 256];
      r := out + [major * 32 + 24, arg];
    } else if arg <= 0xffff {
      r := out + [major * 32 + 25];
      r := r + BigEndian(arg, 2);
    } else if arg <= 0xffff_ffff {
      r := out + [major * 32 + 26];
      r := r + BigEndian(arg, 4);
    } else {
      r := out + [major * 32 + 27];
      r := r + BigEndian(arg, 8);
    }
  }

  datatype HeadAt = HeadAt(major: nat, arg: nat, next: nat)

  /** The head at offset i, if the model admits it: no tags, no simple values but false, true and null,
      no reserved or indefinite lengths. */
  function PeekHead(data: Bytes, i: nat): (r: Option<HeadAt>)
    ensures r.Some? ==> i < r.value.next <= |data| && r.value.major < 8
  {
    if i >= |data| then None
    else
      var major, info := data[i] / 32, data[i] % 32;
      if major == 6 then None
      else if major == 7 then if 20 <= info <= 22 then Some(HeadAt(7, 0, i + 1)) else None
      else if info < 24 then Some(HeadAt(major, info, i + 1))
      else if info > 27 then None
      else
        var width := if info == 24 then 1 else if info == 25 then 2 else if info == 26 then 4 else 8;
        if i + 1 + width > |data| then None
        else Some(HeadAt(major, FromBigEndian(data[i + 1..i + 1 + width]), i + 1 + width))
  }

  method ReadHead(data: Bytes, start: nat) returns (r: Option<HeadAt>)
    ensures r == PeekHead(data, start)
  {
    if start >= |data| {
      return None;
    }
    var major, info := data[start] / 32, data[start] % 32;
    var i := start + 1;
    if major == 6 {
      return None;
    }
    if major == 7 {
      return if 20 <= info <= 22 then Some(HeadAt(7, 0, i)) else None;
    }
    if info < 24 {
      return Some(HeadAt(major, info, i));
    }
    if info > 27 {
      return None;
    }
    var width := if info == 24 then 1 else if info == 25 then 2 else if info == 26 then 4 else 8;
    if i + width > |data| {
      return None;
    }
    var raw := data[i..i + width];
    var arg: nat := 0;
    for k := 0 to |raw|
      invariant arg == FromBigEndian(raw[..k])
    {
      assert raw[..k + 1][..k] == raw[..k];
      arg := 256 * arg + raw[k];
    }
    assert raw[..|raw|] == raw;
    r := Some(HeadAt(major, arg, i + width));
  }

  lemma {:induction false} InitialByte(major: nat, info: nat)
    requires major < 8 && info < 32
    ensures (major * 32 + info) / 32 == major && (major * 32 + info) % 32 == info
  {
  }

  /** Reading back a written head gives its parts, whatever surrounds it. */
  lemma {:induction false} HeadRoundTrip(data: Bytes, i: nat, major: nat, arg: nat)
    requires major < 6 && arg < U64
    requires i + |Head(major, arg)| <= |data| && data[i..i + |Head(major, arg)|] == Head(major, arg)
    ensures PeekHead(data, i) == Some(HeadAt(major, arg, i + |Head(major, arg)|))
  {
    hide BigEndian, FromBigEndian, Power256;
    var head, w := Head(major, arg), Width(arg);
    InitialByte(major, Info(arg));
    assert data[i] == data[i..i + |head|][0] == head[0];
    assert data[i + 1..i + 1 + w] == data[i..i + |head|][1..] == head[1..] == BigEndian(arg, w);
    Powers();
    if arg >= 24 {
      BigEndianRoundTrip(arg, w);
    }
  }

  /** No admitted head for the same argument is shorter than the written one, and no argument
      exceeds 64 bits. */
  lemma {:induction false} HeadMinimal(data: Bytes, i: nat)
    requires PeekHead(data, i).Some?
    ensures var r := PeekHead(data, i).value;
            r.arg < U64 && (r.major != 7 ==> |Head(r.major, r.arg)| <= r.next - i)
  {
    hide FromBigEndian, Power256;
    Powers();
    var r := PeekHead(data, i).value;
    FromBigEndianBound(data[i + 1..r.next]);
    assert |data[i + 1..r.next]| == r.next - i - 1;
  }

  /** Heads of one major type are ordered as their arguments are. */
  lemma {:induction false} HeadMonotone(major: nat, a: nat, b: nat)
    requires major < 8 && a < b < U64
    ensures Less(Head(major, a), Head(major, b))
  {
    hide BigEndian, Power256;
    Powers();
    if Info(a) == Info(b) {
      BigEndianMonotone(a, b, Width(a));
      LessAfterPrefix([major * 32 + Info(a)], BigEndian(a, Width(a)), BigEndian(b, Width(b)));
    } else {
      assert Head(major, a)[0] < Head(major, b)[0];
    }
  }

  // ----- text items

  function TextItem(s: Bytes): Bytes {
    Head(3, |s|) + s
  }

  /** Sorting encoded text keys bytewise puts shorter keys first and equal lengths in byte order. */
  lemma {:induction false} TextKeyOrder(s: Bytes, t: Bytes)
    requires |s| < U64 && |t| < U64
    ensures Less(TextItem(s), TextItem(t)) <==> |s| < |t| || (|s| == |t| && Less(s, t))
  {
    if |s| == |t| {
      LessAfterPrefix(Head(3, |s|), s, t);
    } else if |s| < |t| {
      TextKeyShorterFirst(s, t);
    } else {
      TextKeyShorterFirst(t, s);
      LessAsymmetric(TextItem(t), TextItem(s));
    }
  }

  lemma {:induction false} TextKeyShorterFirst(s: Bytes, t: Bytes)
    requires |s| < |t| < U64
    ensures Less(TextItem(s), TextItem(t))
  {
    hide BigEndian;
    var a, b := Head(3, |s|), Head(3, |t|);
    HeadMonotone(3, |s|, |t|);
    LessIrreflexive(a);
    if |a| == |b| {
      LessIgnoresSuffix(a, b, s, t);
    } else {
      assert a[0] < b[0];
    }
  }
}
