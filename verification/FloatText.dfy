/** The number spelling of verify-rs/src/dispute.rs: decimal lexemes are rewritten to one canonical text
    per sign and value. */
module FloatText {
  import opened Bytes
  import opened CivilTime
  import opened Decimals

  const MINUS: byte := 45
  const PLUS: byte := 43
  const POINT: byte := 46
  const ZERO: byte := 48
  const EXP: byte := 101

  // ----- string operations of the source

  function Find(b: Bytes, c: byte): (r: Option<nat>)
    ensures r.Some? ==> r.value < |b| && b[r.value] == c && c !in b[..r.value]
    ensures r.None? ==> c !in b
  {
    if b == [] then None
    else if b[0] == c then Some(0)
    else
      var r := Find(b[1..], c);
      assert r.Some? ==> b[..r.value + 1] == [b[0]] + b[1..][..r.value];
      if r.Some? then Some(r.value + 1) else None
  }

  function Remove(b: Bytes, c: byte): Bytes {
    if b == [] then [] else (if b[0] == c then [] else [b[0]]) + Remove(b[1..], c)
  }

  function TrimMinus(b: Bytes): Bytes {
    if b != [] && b[0] == MINUS then TrimMinus(b[1..]) else b
  }

  predicate FitsI32(i: int) {
    -0x8000_0000 <= i <= 0x7fff_ffff
  }

  /** Parsing a signed 32-bit integer: an optional sign, then at least one digit, within range. */
  function ParseI32(b: Bytes): Option<int> {
    var signed := b != [] && (b[0] == MINUS || b[0] == PLUS);
    var digits := if signed then b[1..] else b;
    if digits == [] || !AllDigits(digits) then None
    else
      var i := if signed && b[0] == MINUS then -(Number(digits) as int) else Number(digits);
      if FitsI32(i) then Some(i) else None
  }

  function LeadingZeros(b: Bytes): (n: nat)
    ensures n <= |b|
    ensures b[..n] == Zeros(n)
    ensures n < |b| ==> b[n] != ZERO
  {
    if b == [] || b[0] != ZERO then 0
    else
      var n := LeadingZeros(b[1..]);
      assert b[..n + 1] == [ZERO] + b[1..][..n] == Zeros(n + 1);
      n + 1
  }

  function TrimZeros(b: Bytes): (r: Bytes)
    ensures r <= b && b[|r|..] == Zeros(|b| - |r|)
    ensures r != [] ==> r[|r| - 1] != ZERO
  {
    if b == [] || b[|b| - 1] != ZERO then b
    else
      var n := |b| - 1;
      var r := TrimZeros(b[..n]);
      assert b[|r|..] == b[..n][|r|..] + [ZERO] == Zeros(|b| - |r|);
      r
  }

  // ----- the rewriting

  /** What the source extracts from a lexeme: its digits, where the point stands among them, and the exponent. */
  datatype Parts = Parts(negative: bool, digits: Bytes, point: nat, exponent: int)

  function PartsOf(raw: Bytes): Option<Parts> {
    var e := Find(raw, EXP);
    var mantissa := if e.Some? then raw[..e.value] else raw;
    var exponent := ParseI32(if e.Some? then raw[e.value + 1..] else [ZERO]);
    if exponent.None? then None
    else
      var negative := mantissa != [] && mantissa[0] == MINUS;
      var body := TrimMinus(mantissa);
      var at := Find(body, POINT);
      Some(Parts(negative, Remove(body, POINT), if at.Some? then at.value else |body|, exponent.value))
  }

  /** A sign and at least two digits. */
  function ExponentText(power: int): Bytes {
    var digits := Print(if power < 0 then -power else power);
    [if power < 0 then MINUS else PLUS] + (if |digits| < 2 then [ZERO] + digits else digits)
  }

  /** The canonical text of the digits d0.d1d2... times ten to the power. */
  function Spell(negative: bool, digits: Bytes, power: int): Bytes
    requires digits != []
  {
    var sign := if negative then [MINUS] else [];
    if !(-4 <= power < 16) then
      var fraction := if |digits| > 1 then [POINT] + digits[1..] else [];
      sign + digits[..1] + fraction + [EXP] + ExponentText(power)
    else
      var point := power + 1;
      sign + if point <= 0 then [ZERO, POINT] + Zeros(-point) + digits
             else if point >= |digits| then digits + Zeros(point - |digits|) + [POINT, ZERO]
             else digits[..point] + [POINT] + digits[point..]
  }

  /** None also stands for an exponent sum outside 32 bits, which the source cannot compute. */
  function Rewrite(p: Parts): Option<Bytes>
    requires AllDigits(p.digits)
  {
    var zeros := LeadingZeros(p.digits);
    if zeros == |p.digits| then Some((if p.negative then [MINUS] else []) + [ZERO, POINT, ZERO])
    else
      var power := p.point + p.exponent - zeros - 1;
      if !FitsI32(p.point) || !FitsI32(zeros) || !FitsI32(p.point + p.exponent) || !FitsI32(power + 1) || !FitsI32(power) then None
      else
        var digits := TrimZeros(p.digits[zeros..]);
        assert p.digits[zeros] != ZERO;
        Some(Spell(p.negative, digits, power))
  }

  function FloatText(raw: Bytes): Option<Bytes> {
    var p := PartsOf(raw);
    if p.None? || !AllDigits(p.value.digits) then None else Rewrite(p.value)
  }

  // ----- lexemes and their values

  datatype Exponent = Exponent(sign: Option<byte>, digits: Bytes)
  {
    predicate Valid() {
      AllDigits(digits) && digits != [] && sign in {None, Some(MINUS), Some(PLUS)}
    }

    function Value(): int
      requires Valid()
    {
      if sign == Some(MINUS) then -(Number(digits) as int) else Number(digits)
    }

    function Text(): Bytes {
      (if sign.Some? then [sign.value] else []) + digits
    }
  }

  datatype Lexeme = Lexeme(negative: bool, whole: Bytes, fraction: Bytes, exponent: Option<Exponent>)
  {
    predicate Valid() {
      AllDigits(whole) && whole != [] && AllDigits(fraction) && (exponent.Some? ==> exponent.value.Valid())
    }

    function Mantissa(): Bytes {
      whole + if fraction == [] then [] else [POINT] + fraction
    }

    function Text(): Bytes {
      (if negative then [MINUS] else []) + Mantissa() + if exponent.Some? then [EXP] + exponent.value.Text() else []
    }

    function Shift(): int
      requires Valid()
    {
      if exponent.Some? then exponent.value.Value() else 0
    }

    /** The lexeme is plus or minus Coefficient times ten to the Scale. */
    function Coefficient(): nat
      requires Valid()
    {
      Number(whole + fraction)
    }

    function Scale(): int
      requires Valid()
    {
      Shift() - |fraction|
    }

    function Split(): Parts
      requires Valid()
    {
      Parts(negative, whole + fraction, |whole|, Shift())
    }
  }

  /** m * 10^a == n * 10^b, without fractions. */
  predicate SameValue(m: nat, a: int, n: nat, b: int) {
    if a <= b then m == n * Power10(b - a) else m * Power10(a - b) == n
  }

  // ----- reading a lexeme back

  lemma {:induction false} FindAfter(a: Bytes, c: byte, rest: Bytes)
    requires c !in a
    ensures Find(a + [c] + rest, c) == Some(|a|)
    ensures Find(a, c) == None
  {
    if a == [] {
      assert (a + [c] + rest)[0] == c;
    } else {
      assert (a + [c] + rest)[1..] == a[1..] + [c] + rest;
      FindAfter(a[1..], c, rest);
    }
  }

  lemma {:induction false} RemoveNothing(a: Bytes, c: byte)
    requires c !in a
    ensures Remove(a, c) == a
  {
    if a != [] {
      RemoveNothing(a[1..], c);
    }
  }

  lemma {:induction false} RemoveOne(a: Bytes, c: byte, b: Bytes)
    requires c !in a && c !in b
    ensures Remove(a + [c] + b, c) == a + b
  {
    if a == [] {
      assert a + [c] + b == [c] + b && ([c] + b)[1..] == b && a + b == b;
      RemoveNothing(b, c);
    } else {
      assert (a + [c] + b)[1..] == a[1..] + [c] + b;
      RemoveOne(a[1..], c, b);
    }
  }

  lemma {:induction false} ParseExponent(e: Exponent)
    requires e.Valid()
    ensures ParseI32(e.Text()) == if FitsI32(e.Value()) then Some(e.Value()) else None
  {
    hide Number;
    if e.sign.None? {
      assert e.Text() == e.digits && e.digits[0] >= 48;
    } else {
      assert e.Text()[1..] == e.digits;
    }
  }

  lemma {:induction false} SplitPoint(l: Lexeme)
    requires l.Valid()
    ensures var body, at := l.Mantissa(), Find(l.Mantissa(), POINT);
            Remove(body, POINT) == l.whole + l.fraction && (if at.Some? then at.value else |body|) == |l.whole|
  {
    hide Number, Remove, Find;
    assert POINT !in l.whole && POINT !in l.fraction;
    var body := l.Mantissa();
    if l.fraction == [] {
      assert body == l.whole && l.whole + l.fraction == l.whole;
      FindAfter(body, POINT, []);
      RemoveNothing(body, POINT);
    } else {
      assert body == l.whole + [POINT] + l.fraction;
      FindAfter(l.whole, POINT, l.fraction);
      RemoveOne(l.whole, POINT, l.fraction);
    }
  }

  lemma {:induction false} SplitExponent(l: Lexeme)
    requires l.Valid()
    ensures var mantissa, e := (if l.negative then [MINUS] else []) + l.Mantissa(), Find(l.Text(), EXP);
            if l.exponent.Some? then
              && e == Some(|mantissa|) && l.Text()[..|mantissa|] == mantissa && l.Text()[|mantissa| + 1..] == l.exponent.value.Text()
            else e == None && l.Text() == mantissa
  {
    hide Number, Find;
    var sign: Bytes := if l.negative then [MINUS] else [];
    var mantissa := sign + l.Mantissa();
    assert EXP !in mantissa;
    if l.exponent.Some? {
      assert l.Text() == mantissa + [EXP] + l.exponent.value.Text();
      FindAfter(mantissa, EXP, l.exponent.value.Text());
    } else {
      FindAfter(mantissa, EXP, []);
    }
  }

  lemma {:induction false} SplitSign(l: Lexeme)
    requires l.Valid()
    ensures var mantissa: Bytes := (if l.negative then [MINUS] else []) + l.Mantissa();
            TrimMinus(mantissa) == l.Mantissa() && mantissa != [] && (mantissa[0] == MINUS <==> l.negative)
  {
    hide TrimMinus;
    assert l.Mantissa()[0] == l.whole[0];
    TrimSign(if l.negative then [MINUS] else [], l.Mantissa());
  }

  /** The source's splitting recovers the parts of every well-formed lexeme. */
  lemma {:induction false} SplitText(l: Lexeme)
    requires l.Valid()
    ensures PartsOf(l.Text()) == if FitsI32(l.Shift()) then Some(l.Split()) else None
  {
    hide Number, ParseI32, Remove, Find, TrimMinus, Lexeme.Text, Lexeme.Mantissa;
    SplitExponent(l);
    SplitPoint(l);
    SplitSign(l);
    if l.exponent.Some? {
      ParseExponent(l.exponent.value);
    } else {
      ParseZero();
    }
  }

  lemma {:induction false} ParseZero()
    ensures ParseI32([ZERO]) == Some(0)
  {
    assert Number([ZERO]) == 10 * Number([ZERO][..0]) + 0;
  }

  lemma {:induction false} TrimSign(sign: Bytes, body: Bytes)
    requires sign in {[], [MINUS]} && body != [] && body[0] != MINUS
    ensures TrimMinus(sign + body) == body
    ensures (sign + body)[0] == MINUS <==> sign == [MINUS]
  {
    if sign == [] {
      assert sign + body == body;
    } else {
      assert (sign + body)[1..] == body;
    }
  }

  // ----- values

  lemma {:induction false} Cancel(u: int, v: int, x: int)
    requires x > 0
    ensures u * x == v * x <==> u == v
  {
    if u < v {
      assert (v - u) * x > 0;
    } else if v < u {
      assert (u - v) * x > 0;
    }
  }

  /** Values can be compared at any common scale. */
  lemma {:induction false} SameAt(m: nat, a: int, n: nat, b: int, low: int)
    requires low <= a && low <= b
    ensures SameValue(m, a, n, b) <==> m * Power10(a - low) == n * Power10(b - low)
  {
    hide Power10;
    if a <= b {
      PowerAdds(b - a, a - low);
      Cancel(m, n * Power10(b - a), Power10(a - low));
      assert n * Power10(b - a) * Power10(a - low) == n * (Power10(b - a) * Power10(a - low));
    } else {
      PowerAdds(a - b, b - low);
      Cancel(m * Power10(a - b), n, Power10(b - low));
      assert m * Power10(a - b) * Power10(b - low) == m * (Power10(a - b) * Power10(b - low));
    }
  }

  lemma {:induction false} SameTransitive(m: nat, a: int, n: nat, b: int, k: nat, c: int)
    requires SameValue(m, a, n, b) && SameValue(n, b, k, c)
    ensures SameValue(m, a, k, c)
  {
    hide Power10, SameValue;
    var low := if a <= b && a <= c then a else if b <= c then b else c;
    SameAt(m, a, n, b, low);
    SameAt(n, b, k, c, low);
    SameAt(m, a, k, c, low);
  }

  lemma {:induction false} SameSymmetric(m: nat, a: int, n: nat, b: int)
    requires SameValue(m, a, n, b)
    ensures SameValue(n, b, m, a)
  {
    if a == b {
      assert Power10(0) == 1;
    }
  }

  /** Coefficients that do not end in zero are determined by the value. */
  lemma {:induction false} TrimmedUnique(m: nat, a: int, n: nat, b: int)
    requires SameValue(m, a, n, b) && m % 10 != 0 && n % 10 != 0
    ensures m == n && a == b
  {
    if a < b {
      MulTen(n, Power10(b - a - 1));
    } else if b < a {
      MulTen(m, Power10(a - b - 1));
    } else {
      assert Power10(0) == 1;
    }
  }

  // ----- the canonical digits of a value

  /** The digits of p without leading and trailing zeros, and the power of the first of them. */
  function Core(p: Parts): (d: Bytes)
    requires AllDigits(p.digits)
    ensures AllDigits(d)
  {
    TrimZeros(p.digits[LeadingZeros(p.digits)..])
  }

  function Power(p: Parts): int
    requires AllDigits(p.digits)
  {
    p.point + p.exponent - LeadingZeros(p.digits) - 1
  }

  predicate IsZero(p: Parts)
    requires AllDigits(p.digits)
  {
    LeadingZeros(p.digits) == |p.digits|
  }

  function ScaleOf(p: Parts): int {
    p.exponent - (|p.digits| - p.point)
  }

  lemma {:induction false} LastDigit(d: Bytes)
    requires AllDigits(d) && d != []
    ensures Number(d) % 10 == d[|d| - 1] - 48
  {
    var n := |d| - 1;
    var last := d[n] - 48;
    assert Number(d) == 10 * Number(d[..n]) + last;
    hide Number;
    ModTen(Number(d[..n]), last);
  }

  lemma {:induction false} ModTen(x: nat, digit: nat)
    requires digit < 10
    ensures (10 * x + digit) % 10 == digit
  {
  }

  /** The digits are the core between zeros. */
  lemma {:induction false} CoreShape(p: Parts) returns (z: nat, t: nat)
    requires AllDigits(p.digits) && !IsZero(p)
    ensures var d := Core(p);
            && d != [] && d[0] != ZERO && d[|d| - 1] != ZERO
            && p.digits == Zeros(z) + (d + Zeros(t))
            && z + |d| + t == |p.digits| && Power(p) == p.point + p.exponent - z - 1
  {
    hide LeadingZeros, TrimZeros;
    z := LeadingZeros(p.digits);
    var rest := p.digits[z..];
    var d := TrimZeros(rest);
    assert rest[0] != ZERO;
    t := |rest| - |d|;
    assert rest == d + Zeros(t);
  }

  lemma {:induction false} PaddedNumber(z: nat, d: Bytes, t: nat)
    requires AllDigits(d)
    ensures AllDigits(Zeros(z) + (d + Zeros(t))) && Number(Zeros(z) + (d + Zeros(t))) == Number(d) * Power10(t)
  {
    hide Number, Power10;
    NumberConcat(d, Zeros(t));
    NumberConcat(Zeros(z), d + Zeros(t));
    NumberOfZeros(t);
    NumberOfZeros(z);
  }

  lemma {:induction false} CoreValue(p: Parts)
    requires AllDigits(p.digits) && !IsZero(p)
    ensures var d := Core(p);
            && d != [] && d[0] != ZERO && Number(d) % 10 != 0 && Number(d) > 0
            && SameValue(Number(p.digits), ScaleOf(p), Number(d), Power(p) + 1 - |d|)
  {
    hide Number, SameValue, Core, Power, IsZero, Power10;
    var d := Core(p);
    var z, t := CoreShape(p);
    PaddedNumber(z, d, t);
    LastDigit(d);
    assert Power(p) + 1 - |d| == ScaleOf(p) + t;
    ScaledSame(Number(p.digits), ScaleOf(p), Number(d), t);
  }

  lemma {:induction false} ScaledSame(m: nat, a: int, n: nat, t: nat)
    requires m == n * Power10(t)
    ensures SameValue(m, a, n, a + t)
  {
  }

  lemma {:induction false} ZeroValue(p: Parts)
    requires AllDigits(p.digits)
    ensures IsZero(p) <==> Number(p.digits) == 0
  {
    hide Number;
    if IsZero(p) {
      assert p.digits == p.digits[..|p.digits|] == Zeros(|p.digits|);
      NumberOfZeros(|p.digits|);
    } else {
      CoreValue(p);
      PositiveValue(Number(p.digits), ScaleOf(p), Number(Core(p)), Power(p) + 1 - |Core(p)|);
    }
  }

  lemma {:induction false} PositiveValue(m: nat, a: int, n: nat, b: int)
    requires SameValue(m, a, n, b)
    ensures m == 0 <==> n == 0
  {
    if a <= b {
      Cancel(n, 0, Power10(b - a));
    } else {
      Cancel(m, 0, Power10(a - b));
    }
  }

  // ----- the output is a lexeme of the same value

  function OutputExponent(power: int): (e: Exponent)
    ensures e.Valid() && e.Text() == ExponentText(power)
  {
    var digits := Print(if power < 0 then -power else power);
    Exponent(Some(if power < 0 then MINUS else PLUS), if |digits| < 2 then [ZERO] + digits else digits)
  }

  lemma {:induction false} OutputExponentValue(power: int)
    ensures OutputExponent(power).Value() == power
  {
    hide Number;
    var n := if power < 0 then -power else power;
    PrintSpells(n);
    NumberConcat([ZERO], Print(n));
    assert [ZERO] == Zeros(1);
    NumberOfZeros(1);
  }

  /** The lexeme `Spell` writes. */
  function Output(negative: bool, d: Bytes, power: int): (l: Lexeme)
    requires AllDigits(d) && d != []
    ensures l.Valid() && l.negative == negative
  {
    if !(-4 <= power < 16) then Lexeme(negative, d[..1], d[1..], Some(OutputExponent(power)))
    else
      var point := power + 1;
      if point <= 0 then Lexeme(negative, [ZERO], Zeros(-point) + d, None)
      else if point >= |d| then Lexeme(negative, d + Zeros(point - |d|), [ZERO], None)
      else Lexeme(negative, d[..point], d[point..], None)
  }

  /** A lexeme without an exponent is its sign, digits, point and digits. */
  lemma {:induction false} PlainText(l: Lexeme, sign: Bytes, text: Bytes)
    requires l.exponent.None? && l.fraction != [] && sign == (if l.negative then [MINUS] else [])
    requires text == l.whole + ([POINT] + l.fraction)
    ensures l.Text() == sign + text
  {
    assert sign + text + [] == sign + text;
  }

  lemma {:induction false} OutputText(negative: bool, d: Bytes, power: int)
    requires AllDigits(d) && d != []
    ensures Output(negative, d, power).Text() == Spell(negative, d, power)
  {
    hide Number, Print, ExponentText, OutputExponent, Zeros, Lexeme.Text;
    var sign: Bytes := if negative then [MINUS] else [];
    var l, point := Output(negative, d, power), power + 1;
    if !(-4 <= power < 16) {
      ScientificText(negative, d, power);
    } else if point <= 0 {
      assert [ZERO, POINT] + Zeros(-point) + d == [ZERO] + ([POINT] + (Zeros(-point) + d));
      PlainText(l, sign, [ZERO] + ([POINT] + (Zeros(-point) + d)));
    } else if point >= |d| {
      assert d + Zeros(point - |d|) + [POINT, ZERO] == (d + Zeros(point - |d|)) + ([POINT] + [ZERO]);
      PlainText(l, sign, (d + Zeros(point - |d|)) + ([POINT] + [ZERO]));
    } else {
      assert d[..point] + [POINT] + d[point..] == d[..point] + ([POINT] + d[point..]);
      PlainText(l, sign, d[..point] + ([POINT] + d[point..]));
    }
  }

  lemma {:induction false} ScientificText(negative: bool, d: Bytes, power: int)
    requires AllDigits(d) && d != [] && !(-4 <= power < 16)
    ensures Output(negative, d, power).Text() == Spell(negative, d, power)
  {
    hide Number, Print, ExponentText, OutputExponent;
    var sign: Bytes := if negative then [MINUS] else [];
    if |d| == 1 {
      assert d[1..] == [];
    }
    Glue(sign, d[..1], if |d| > 1 then [POINT] + d[1..] else [], [EXP], OutputExponent(power).Text());
  }

  /** Concatenation may be regrouped. */
  lemma {:induction false} Glue(a: Bytes, b: Bytes, c: Bytes, d: Bytes, e: Bytes)
    ensures a + b + c + d + e == a + (b + c) + (d + e)
  {
  }

  lemma {:induction false} ScientificValue(negative: bool, d: Bytes, power: int)
    requires AllDigits(d) && d != [] && !(-4 <= power < 16)
    ensures var l := Output(negative, d, power); l.Coefficient() == Number(d) && l.Scale() == power + 1 - |d| && l.Shift() == power
  {
    hide Number, Print;
    OutputExponentValue(power);
    assert d[..1] + d[1..] == d;
  }

  lemma {:induction false} FractionValue(negative: bool, d: Bytes, power: int)
    requires AllDigits(d) && d != [] && -4 <= power < 0
    ensures var l := Output(negative, d, power); l.Coefficient() == Number(d) && l.Scale() == power + 1 - |d| && l.Shift() == 0
  {
    hide Number, Power10;
    PaddedNumber(-power, d, 0);
    assert [ZERO] + (Zeros(-power - 1) + d) == Zeros(-power) + (d + Zeros(0));
    PowerOfZero();
  }

  lemma {:induction false} WholeValue(negative: bool, d: Bytes, power: int)
    requires AllDigits(d) && d != [] && |d| <= power + 1 <= 16
    ensures var l := Output(negative, d, power);
            l.Coefficient() == Number(d) * Power10(power + 2 - |d|) && l.Scale() == -1 && l.Shift() == 0
  {
    hide Number, Power10;
    var k := power + 1 - |d|;
    assert d + Zeros(k) + [ZERO] == Zeros(0) + (d + Zeros(k + 1));
    PaddedNumber(0, d, k + 1);
  }

  lemma {:induction false} MixedValue(negative: bool, d: Bytes, power: int)
    requires AllDigits(d) && 0 <= power < 16 && power + 1 < |d|
    ensures var l := Output(negative, d, power); l.Coefficient() == Number(d) && l.Scale() == power + 1 - |d| && l.Shift() == 0
  {
    hide Number;
    assert d[..power + 1] + d[power + 1..] == d;
  }

  lemma {:induction false} OutputValue(negative: bool, d: Bytes, power: int)
    requires AllDigits(d) && d != []
    ensures var l := Output(negative, d, power);
            SameValue(l.Coefficient(), l.Scale(), Number(d), power + 1 - |d|)
    ensures FitsI32(power) ==> FitsI32(Output(negative, d, power).Shift())
  {
    hide Number, SameValue, Output, Power10;
    ScaledSelf(Number(d), power + 1 - |d|);
    if !(-4 <= power < 16) {
      ScientificValue(negative, d, power);
    } else if power < 0 {
      FractionValue(negative, d, power);
    } else if power + 1 >= |d| {
      WholeValue(negative, d, power);
      ScaledSame(Output(negative, d, power).Coefficient(), -1, Number(d), power + 2 - |d|);
    } else {
      MixedValue(negative, d, power);
    }
  }

  lemma {:induction false} PowerOfZero()
    ensures Power10(0) == 1
  {
  }

  lemma {:induction false} ScaledSelf(n: nat, a: int)
    ensures SameValue(n, a, n, a)
  {
  }

  /** The lexeme the rewriting of p writes. */
  function Canonical(p: Parts): (l: Lexeme)
    requires AllDigits(p.digits)
    ensures l.Valid() && l.negative == p.negative
  {
    if IsZero(p) || Core(p) == [] then Lexeme(p.negative, [ZERO], [ZERO], None) else Output(p.negative, Core(p), Power(p))
  }

  lemma {:induction false} RewriteCases(p: Parts)
    requires AllDigits(p.digits) && Rewrite(p).Some?
    ensures IsZero(p) ==> Rewrite(p).value == (if p.negative then [MINUS] else []) + [ZERO, POINT, ZERO]
    ensures !IsZero(p) ==> Core(p) != [] && FitsI32(Power(p)) && Rewrite(p).value == Spell(p.negative, Core(p), Power(p))
  {
    hide LeadingZeros, TrimZeros, Spell;
  }

  lemma {:induction false} RewriteWritesCanonical(p: Parts)
    requires AllDigits(p.digits) && Rewrite(p).Some?
    ensures var l := Canonical(p);
            && Rewrite(p).value == l.Text() && FitsI32(l.Shift())
            && SameValue(l.Coefficient(), l.Scale(), Number(p.digits), ScaleOf(p))
  {
    hide Number, SameValue, Rewrite, Core, Power, IsZero, Output;
    ZeroValue(p);
    RewriteCases(p);
    if IsZero(p) {
      ZeroText(p.negative);
      BothZero(-1, ScaleOf(p));
    } else {
      var d := Core(p);
      CoreValue(p);
      OutputText(p.negative, d, Power(p));
      OutputValue(p.negative, d, Power(p));
      SameSymmetric(Number(p.digits), ScaleOf(p), Number(d), Power(p) + 1 - |d|);
      var l := Output(p.negative, d, Power(p));
      SameTransitive(l.Coefficient(), l.Scale(), Number(d), Power(p) + 1 - |d|, Number(p.digits), ScaleOf(p));
    }
  }

  lemma {:induction false} ZeroText(negative: bool)
    ensures var l := Lexeme(negative, [ZERO], [ZERO], None);
            && l.Text() == (if negative then [MINUS] else []) + [ZERO, POINT, ZERO]
            && l.Coefficient() == 0 && l.Scale() == -1
  {
    hide Number;
    var sign: Bytes := if negative then [MINUS] else [];
    assert Lexeme(negative, [ZERO], [ZERO], None).Text() == sign + ([ZERO] + ([POINT] + [ZERO])) + [];
    assert [ZERO] + [ZERO] == Zeros(2);
    NumberOfZeros(2);
  }

  lemma {:induction false} BothZero(a: int, b: int)
    ensures SameValue(0, a, 0, b)
  {
  }

  lemma {:induction false} FloatTextSplits(l: Lexeme)
    requires l.Valid()
    ensures FloatText(l.Text()) == if FitsI32(l.Shift()) then Rewrite(l.Split()) else None
    ensures Number(l.Split().digits) == l.Coefficient() && ScaleOf(l.Split()) == l.Scale()
  {
    hide Number, Rewrite, PartsOf;
    SplitText(l);
  }

  /** Every lexeme of moderate length and exponent is rewritten: all that a 64-bit float prints as are. */
  lemma {:induction false} ModerateLexemesRewrite(l: Lexeme)
    requires l.Valid() && |l.whole| + |l.fraction| <= 0x2000_0000 && -0x2000_0000 <= l.Shift() <= 0x2000_0000
    ensures FloatText(l.Text()).Some?
  {
    hide Number, Spell, FloatText, LeadingZeros, TrimZeros;
    FloatTextSplits(l);
  }

  // ----- main results

  /** The output is a well-formed lexeme of the same sign and exactly the same value. */
  lemma {:induction false} KeepsSignAndValue(l: Lexeme) returns (out: Lexeme)
    requires l.Valid() && FloatText(l.Text()).Some?
    ensures out.Valid() && out.Text() == FloatText(l.Text()).value
    ensures out.negative == l.negative
    ensures SameValue(out.Coefficient(), out.Scale(), l.Coefficient(), l.Scale())
  {
    hide Number, SameValue, Rewrite;
    FloatTextSplits(l);
    RewriteWritesCanonical(l.Split());
    out := Canonical(l.Split());
  }

  /** Two lexemes are rewritten to one text exactly when they have one sign and one value. */
  lemma {:induction false} CanonicalText(a: Lexeme, b: Lexeme)
    requires a.Valid() && b.Valid() && FloatText(a.Text()).Some? && FloatText(b.Text()).Some?
    ensures FloatText(a.Text()) == FloatText(b.Text()) <==>
            a.negative == b.negative && SameValue(a.Coefficient(), a.Scale(), b.Coefficient(), b.Scale())
  {
    hide Number, SameValue, FloatText;
    if FloatText(a.Text()) == FloatText(b.Text()) {
      EqualTextsDenoteAlike(a, b);
    } else if a.negative == b.negative && SameValue(a.Coefficient(), a.Scale(), b.Coefficient(), b.Scale()) {
      EqualValuesSpellAlike(a, b);
    }
  }

  lemma {:induction false} EqualTextsDenoteAlike(a: Lexeme, b: Lexeme)
    requires a.Valid() && b.Valid() && FloatText(a.Text()).Some? && FloatText(a.Text()) == FloatText(b.Text())
    ensures a.negative == b.negative && SameValue(a.Coefficient(), a.Scale(), b.Coefficient(), b.Scale())
  {
    hide Number, SameValue, Rewrite, PartsOf;
    FloatTextSplits(a);
    FloatTextSplits(b);
    var x, y := Canonical(a.Split()), Canonical(b.Split());
    RewriteWritesCanonical(a.Split());
    RewriteWritesCanonical(b.Split());
    SplitText(x);
    SplitText(y);
    assert x.Split() == y.Split();
    FloatTextSplits(x);
    FloatTextSplits(y);
    SameSymmetric(x.Coefficient(), x.Scale(), a.Coefficient(), a.Scale());
    SameTransitive(a.Coefficient(), a.Scale(), x.Coefficient(), x.Scale(), b.Coefficient(), b.Scale());
  }

  lemma {:induction false} EqualValuesSpellAlike(a: Lexeme, b: Lexeme)
    requires a.Valid() && b.Valid() && FloatText(a.Text()).Some? && FloatText(b.Text()).Some?
    requires a.negative == b.negative && SameValue(a.Coefficient(), a.Scale(), b.Coefficient(), b.Scale())
    ensures FloatText(a.Text()) == FloatText(b.Text())
  {
    hide Number, SameValue, Spell, Core, Power, IsZero, Rewrite, FloatText, ScaleOf;
    FloatTextSplits(a);
    FloatTextSplits(b);
    var p, q := a.Split(), b.Split();
    RewriteCases(p);
    RewriteCases(q);
    ZeroValue(p);
    ZeroValue(q);
    PositiveValue(a.Coefficient(), a.Scale(), b.Coefficient(), b.Scale());
    if !IsZero(p) {
      CoreValue(p);
      CoreValue(q);
      var c, d := Core(p), Core(q);
      var m, k := Power(p) + 1 - |c|, Power(q) + 1 - |d|;
      SameSymmetric(Number(p.digits), ScaleOf(p), Number(c), m);
      SameTransitive(Number(c), m, Number(p.digits), ScaleOf(p), Number(q.digits), ScaleOf(q));
      SameTransitive(Number(c), m, Number(q.digits), ScaleOf(q), Number(d), k);
      TrimmedUnique(Number(c), m, Number(d), k);
      LengthThenBytesIsNumeric(c, d);
    }
  }

  // ----- when the text has an exponent

  /** m * 10^a >= n * 10^b, without fractions. */
  predicate NoLess(m: nat, a: int, n: nat, b: int) {
    if a <= b then m >= n * Power10(b - a) else m * Power10(a - b) >= n
  }

  lemma {:induction false} CancelOrder(u: int, v: int, x: int)
    requires x > 0
    ensures u * x >= v * x <==> u >= v
  {
    if u < v {
      assert (v - u) * x > 0;
    } else {
      assert (u - v) * x >= 0;
    }
  }

  lemma {:induction false} NoLessAt(m: nat, a: int, n: nat, b: int, low: int)
    requires low <= a && low <= b
    ensures NoLess(m, a, n, b) <==> m * Power10(a - low) >= n * Power10(b - low)
  {
    hide Power10;
    if a <= b {
      PowerAdds(b - a, a - low);
      CancelOrder(m, n * Power10(b - a), Power10(a - low));
      assert n * Power10(b - a) * Power10(a - low) == n * (Power10(b - a) * Power10(a - low));
    } else {
      PowerAdds(a - b, b - low);
      CancelOrder(m * Power10(a - b), n, Power10(b - low));
      assert m * Power10(a - b) * Power10(b - low) == m * (Power10(a - b) * Power10(b - low));
    }
  }

  /** Equal values are on one side of a bound. */
  lemma {:induction false} NoLessOfSame(m: nat, a: int, n: nat, b: int, k: nat, c: int)
    requires SameValue(m, a, n, b)
    ensures NoLess(m, a, k, c) <==> NoLess(n, b, k, c)
  {
    hide Power10, SameValue, NoLess;
    var low := if a <= b && a <= c then a else if b <= c then b else c;
    SameAt(m, a, n, b, low);
    NoLessAt(m, a, k, c, low);
    NoLessAt(n, b, k, c, low);
  }

  /** A number whose first digit is not zero reaches 10^k exactly when its first digit's power does. */
  lemma {:induction false} Magnitude(d: Bytes, scale: int, k: int)
    requires AllDigits(d) && d != [] && d[0] != ZERO
    ensures NoLess(Number(d), scale, 1, k) <==> k <= scale + |d| - 1
  {
    hide Number, Power10, NoLess;
    var low := if scale <= k then scale else k;
    NoLessAt(Number(d), scale, 1, k, low);
    NumberFloor(d);
    NumberBound(d);
    var unit := Power10(scale - low);
    if k <= scale + |d| - 1 {
      CancelOrder(Number(d), Power10(|d| - 1), unit);
      PowerAdds(|d| - 1, scale - low);
      PowersGrow(k - low, |d| - 1 + (scale - low));
    } else {
      CancelOrder(Number(d), Power10(|d|), unit);
      PowerAdds(|d|, scale - low);
      PowersGrow(|d| + (scale - low), k - low);
    }
  }

  /** The one spelling per value: with an exponent, one whole digit that is not zero, no superfluous zero, and a signed
      exponent of at least two digits; without, digits on both sides of the point and no superfluous zero. */
  ghost predicate WellSpelled(l: Lexeme) {
    if l.exponent.Some? then
      && |l.whole| == 1 && l.whole[0] != ZERO && (l.fraction != [] ==> l.fraction[|l.fraction| - 1] != ZERO)
      && l.exponent.value.sign.Some? && |l.exponent.value.digits| >= 2
      && (|l.exponent.value.digits| > 2 ==> l.exponent.value.digits[0] != ZERO)
    else
      && l.whole != [] && l.fraction != []
      && (l.whole == [ZERO] || l.whole[0] != ZERO) && (l.fraction == [ZERO] || l.fraction[|l.fraction| - 1] != ZERO)
  }

  lemma {:induction false} OutputSpelled(negative: bool, d: Bytes, power: int)
    requires AllDigits(d) && d != [] && d[0] != ZERO && d[|d| - 1] != ZERO
    ensures WellSpelled(Output(negative, d, power)) && (Output(negative, d, power).exponent.Some? <==> power < -4 || 16 <= power)
  {
    hide Number, Print;
    var n := if power < 0 then -power else power;
    PrintSpells(n);
  }

  /** The text has an exponent exactly when the value is not zero and is at least 10^16 or below 10^-4 in size, and
      is spelled without a superfluous digit either way. */
  lemma {:induction false} ExponentIff(l: Lexeme) returns (out: Lexeme)
    requires l.Valid() && FloatText(l.Text()).Some?
    ensures out.Valid() && out.Text() == FloatText(l.Text()).value && WellSpelled(out)
    ensures out.exponent.Some? <==> l.Coefficient() != 0 && (NoLess(l.Coefficient(), l.Scale(), 1, 16) || !NoLess(l.Coefficient(), l.Scale(), 1, -4))
  {
    hide Number, SameValue, NoLess, Rewrite, Core, Power, IsZero, Output, FloatText, ScaleOf, Lexeme.Text;
    FloatTextSplits(l);
    var p := l.Split();
    RewriteWritesCanonical(p);
    ZeroValue(p);
    out := Canonical(p);
    if !IsZero(p) {
      var d := Core(p);
      var z, t := CoreShape(p);
      CoreValue(p);
      OutputSpelled(p.negative, d, Power(p));
      NoLessOfSame(Number(p.digits), ScaleOf(p), Number(d), Power(p) + 1 - |d|, 1, 16);
      NoLessOfSame(Number(p.digits), ScaleOf(p), Number(d), Power(p) + 1 - |d|, 1, -4);
      Magnitude(d, Power(p) + 1 - |d|, 16);
      Magnitude(d, Power(p) + 1 - |d|, -4);
    }
  }
}
