/** Digit strings as numbers: comparison by length and bytes, printing, and powers of ten. */
module Decimals {
  import opened Bytes
  import opened CivilTime

  lemma {:induction false} PowerAdds(a: nat, b: nat)
    ensures Power10(a + b) == Power10(a) * Power10(b)
  {
    if a > 0 {
      PowerAdds(a - 1, b);
      assert Power10(a + b) == 10 * Power10(a - 1 + b);
    }
  }

  lemma {:induction false} NumberConcat(a: Bytes, b: Bytes)
    requires AllDigits(a) && AllDigits(b)
    ensures AllDigits(a + b) && Number(a + b) == Number(a) * Power10(|b|) + Number(b)
  {
    if b == [] {
      assert a + b == a;
    } else {
      var n := |b| - 1;
      var ab := a + b;
      assert ab[..|ab| - 1] == a + b[..n] && ab[|ab| - 1] == b[n];
      NumberConcat(a, b[..n]);
      MulTen(Number(a), Power10(n));
    }
  }

  lemma {:induction false} MulTen(x: int, y: int)
    ensures x * (10 * y) == 10 * (x * y)
  {
  }

  lemma {:induction false} NumberOfZeros(n: nat)
    ensures Number(Zeros(n)) == 0
  {
    if n > 0 {
      assert Zeros(n)[..n - 1] == Zeros(n - 1);
      NumberOfZeros(n - 1);
    }
  }

  /** A string without a leading zero spells at least the power of its length. */
  lemma {:induction false} NumberFloor(a: Bytes)
    requires AllDigits(a) && a != [] && a[0] != 48
    ensures Number(a) >= Power10(|a| - 1)
  {
    var n := |a| - 1;
    if n > 0 {
      NumberFloor(a[..n]);
      assert a[..n][0] == a[0];
    } else {
      assert a[..0] == [];
    }
  }

  lemma {:induction false} PowersGrow(a: nat, b: nat)
    requires a <= b
    ensures Power10(a) <= Power10(b)
  {
    if a < b {
      PowersGrow(a, b - 1);
    }
  }

  /** No leading zero: zero itself is spelled "0". */
  predicate Plain(a: Bytes) {
    AllDigits(a) && a != [] && (a == [48] || a[0] != 48)
  }

  /** Shorter plain numerals are smaller. */
  lemma {:induction false} ShorterIsSmaller(a: Bytes, b: Bytes)
    requires Plain(a) && Plain(b) && |a| < |b|
    ensures Number(a) < Number(b)
  {
    NumberBound(a);
    NumberFloor(b);
    PowersGrow(|a|, |b| - 1);
  }

  /** Comparing plain numerals by length and then by bytes compares the numbers. */
  lemma {:induction false} LengthThenBytesIsNumeric(a: Bytes, b: Bytes)
    requires Plain(a) && Plain(b)
    ensures |a| < |b| || (|a| == |b| && AtMost(a, b)) <==> Number(a) <= Number(b)
    ensures a == b <==> Number(a) == Number(b)
  {
    if |a| < |b| {
      ShorterIsSmaller(a, b);
    } else if |b| < |a| {
      ShorterIsSmaller(b, a);
    } else {
      NumberOrder(a, b);
      NumberOrder(b, a);
    }
  }

  /** The plain numeral of n. */
  function Print(n: nat): (r: Bytes)
    ensures Plain(r)
  {
    if n < 10 then [48 + n] else Print(n / 10) + [48 + n % 10]
  }

  lemma {:induction false} PrintSpells(n: nat)
    ensures Number(Print(n)) == n
  {
    if n < 10 {
      assert Print(n)[..0] == [];
    } else {
      PrintSpells(n / 10);
      assert Print(n)[..|Print(n)| - 1] == Print(n / 10);
    }
  }
}
