/** Decimal numerals: how an unsigned integer is printed, what a digit string is worth,
    and the fixed nine-digit fractions used for nanoseconds. */
module Numerals {

  const BILLION: nat := 1_000_000_000

  predicate IsAsciiDigit(c: char) {
    '0' <= c <= '9'
  }

  predicate AllAsciiDigits(s: string) {
    forall i | 0 <= i < |s| :: IsAsciiDigit(s[i])
  }

  function DigitChar(d: nat): (c: char)
    requires d < 10
    ensures IsAsciiDigit(c) && DigitValue(c) == d
  {
    ('0' as int + d) as char
  }

  /** What a digit is worth; a decimal digit outside ASCII is worth nothing, as the integer
      parser rejects it. */
  function DigitValue(c: char): (d: nat)
    ensures d < 10
  {
    if IsAsciiDigit(c) then c as int - '0' as int else 0
  }

  /** The shortest decimal numeral of `n`, as the `{}` format prints it. */
  function Dec(n: nat): (s: string)
    ensures s != "" && AllAsciiDigits(s)
  {
    if n < 10 then [DigitChar(n)] else Dec(n / 10) + [DigitChar(n % 10)]
  }

  function Val(s: string): nat {
    if s == "" then 0 else 10 * Val(s[..|s| - 1]) + DigitValue(s[|s| - 1])
  }

  function Pow10(k: nat): (p: nat)
    ensures p >= 1
  {
    if k == 0 then 1 else 10 * Pow10(k - 1)
  }

  function Zeros(k: nat): (s: string)
    ensures |s| == k && AllAsciiDigits(s)
  {
    seq(k, _ => '0')
  }

  /** Removes every trailing zero digit (`trim_end_matches('0')`). */
  function TrimZeros(s: string): (t: string)
    ensures t <= s
    ensures t != "" ==> t[|t| - 1] != '0'
  {
    if s != "" && s[|s| - 1] == '0' then TrimZeros(s[..|s| - 1]) else s
  }

  /** `{:0>9}`: at least nine characters, filled with zeros on the left. */
  function PadLeft9(s: string): string {
    if |s| < 9 then Zeros(9 - |s|) + s else s
  }

  /** `{:0<9.9}`: at most the first nine characters, filled with zeros on the right. */
  function Fill9(s: string): (t: string)
    ensures |t| == 9
  {
    if |s| <= 9 then s + Zeros(9 - |s|) else s[..9]
  }

  // ----- values of numerals -----

  lemma {:induction false} ValOfDec(n: nat)
    ensures Val(Dec(n)) == n
  {
    if n < 10 {
      assert Dec(n)[..0] == "";
    } else {
      ValOfDec(n / 10);
      assert Dec(n)[..|Dec(n)| - 1] == Dec(n / 10);
    }
  }

  lemma {:induction false} DecLength(n: nat, k: nat)
    requires 1 <= k && n < Pow10(k)
    ensures |Dec(n)| <= k
  {
    if n >= 10 && k > 1 {
      DecLength(n / 10, k - 1);
    }
  }

  lemma {:induction false} ValAppend(a: string, b: string)
    ensures Val(a + b) == Val(a) * Pow10(|b|) + Val(b)
  {
    if b == "" {
      assert a + b == a;
    } else {
      var b' := b[..|b| - 1];
      ValAppend(a, b');
      assert (a + b)[..|a + b| - 1] == a + b';
      assert Val(a) * (10 * Pow10(|b'|)) == 10 * (Val(a) * Pow10(|b'|));
    }
  }

  lemma {:induction false} ValOfZeros(k: nat)
    ensures Val(Zeros(k)) == 0
  {
    if k > 0 {
      ValOfZeros(k - 1);
      assert Zeros(k)[..k - 1] == Zeros(k - 1);
    }
  }

  lemma {:induction false} ValBelow(s: string)
    ensures Val(s) < Pow10(|s|)
  {
    if s != "" {
      ValBelow(s[..|s| - 1]);
    }
  }

  lemma {:induction false} Pow10Add(a: nat, b: nat)
    ensures Pow10(a + b) == Pow10(a) * Pow10(b)
  {
    if b > 0 {
      Pow10Add(a, b - 1);
      assert Pow10(a) * (10 * Pow10(b - 1)) == 10 * (Pow10(a) * Pow10(b - 1));
    }
  }

  lemma Pow10Nine()
    ensures Pow10(9) == BILLION
  {
    assert Pow10(3) == 1000;
    Pow10Add(3, 3);
    Pow10Add(6, 3);
  }

  lemma MulMonotone(p: nat, a: int, b: int)
    requires a <= b
    ensures p * a <= p * b
  {
  }

  /** Euclidean division is determined by its quotient and remainder. */
  lemma DivUnique(q: int, r: nat, p: nat)
    requires r < p
    ensures (q * p + r) / p == q
  {
    var d := (q * p + r) / p;
    if d < q { MulMonotone(p, d + 1, q); } else { MulMonotone(p, q, d); }
    if d > q { MulMonotone(p, q + 1, d); }
  }

  lemma DivExact(v: nat, p: nat, q: nat, b: nat)
    requires p > 0 && p * q == b
    ensures v * b / p == v * q
  {
    calc {
      v * b;
      v * (p * q);
      (v * q) * p + 0;
    }
    DivUnique(v * q, 0, p);
  }

  lemma DivCancel(a: nat, p: nat, b: nat)
    requires p > 0 && b > 0
    ensures a * b / (b * p) == a / p
  {
    var q, r := a / p, a % p;
    assert b * p > 0 && r * b < b * p;
    assert a == q * p + r;
    assert a * b == q * (b * p) + r * b;
    DivUnique(q, r * b, b * p);
  }

  lemma ZerosScale(f: string, k: nat)
    ensures Val(f + Zeros(k)) == Val(f) * Pow10(k)
  {
    ValAppend(f, Zeros(k));
    ValOfZeros(k);
  }

  lemma FilledValue(f: string)
    requires |f| <= 9
    ensures Val(Fill9(f)) == Val(f) * Pow10(9 - |f|)
  {
    hide Val, Pow10, Zeros;
    ZerosScale(f, 9 - |f|);
  }

  lemma ShortFractionFloor(f: string)
    requires |f| <= 9
    ensures Val(Fill9(f)) == Val(f) * BILLION / Pow10(|f|)
  {
    Pow10Nine();
    Pow10Add(|f|, 9 - |f|);
    DivExact(Val(f), Pow10(|f|), Pow10(9 - |f|), BILLION);
    FilledValue(f);
  }

  lemma LongFractionFloor(f: string)
    requires |f| > 9
    ensures Val(Fill9(f)) == Val(f) * BILLION / Pow10(|f|)
  {
    var a, b := f[..9], f[9..];
    var p := Pow10(|b|);
    assert Val(f) == Val(a) * p + Val(b) by { assert f == a + b; ValAppend(a, b); }
    assert Pow10(|f|) == BILLION * p by { Pow10Nine(); Pow10Add(9, |b|); }
    ValBelow(b);
    DivUnique(Val(a), Val(b), p);
    DivCancel(Val(f), p, BILLION);
  }

  /** Filling or truncating a fraction to nine digits is exactly rounding it down to whole
      billionths. */
  lemma FractionFloor(f: string)
    ensures Val(Fill9(f)) == Val(f) * BILLION / Pow10(|f|)
  {
    if |f| <= 9 { ShortFractionFloor(f); } else { LongFractionFloor(f); }
  }

  /** The decimal fraction with digits `f`, in whole billionths, rounded down. */
  function Billionths(f: string): (n: nat)
    ensures n == Val(Fill9(f))
  {
    FractionFloor(f);
    Val(f) * BILLION / Pow10(|f|)
  }

  /** Filling undoes trimming: no digit of a nine-digit fraction is lost by printing it short. */
  lemma {:induction false} FillUndoesTrim(s: string)
    requires |s| <= 9
    ensures Fill9(TrimZeros(s)) == s + Zeros(9 - |s|)
  {
    if s != "" && s[|s| - 1] == '0' {
      FillUndoesTrim(s[..|s| - 1]);
      assert s + Zeros(9 - |s|) == s[..|s| - 1] + Zeros(10 - |s|);
    }
  }

  lemma {:induction false} TrimmedIsNonEmpty(s: string)
    requires Val(s) > 0
    ensures TrimZeros(s) != ""
  {
    if s != "" && s[|s| - 1] == '0' {
      TrimmedIsNonEmpty(s[..|s| - 1]);
    }
  }

  lemma PaddedValue(n: nat)
    requires n < BILLION
    ensures var s := PadLeft9(Dec(n)); |s| == 9 && AllAsciiDigits(s) && Val(s) == n
  {
    Pow10Nine();
    DecLength(n, 9);
    ValOfDec(n);
    var d := Dec(n);
    LeadingZeros(9 - |d|, d);
    if |d| == 9 { assert Zeros(0) + d == d; }
  }

  lemma LeadingZeros(k: nat, s: string)
    ensures Val(Zeros(k) + s) == Val(s)
  {
    ValAppend(Zeros(k), s);
    ValOfZeros(k);
  }

  /** A nanosecond count printed as a trimmed nine-digit fraction reads back as itself. */
  lemma FractionRoundTrip(n: nat)
    requires 0 < n < BILLION
    ensures var f := TrimZeros(PadLeft9(Dec(n)));
            f != "" && AllAsciiDigits(f) && AllAsciiDigits(Fill9(f)) && Val(Fill9(f)) == n
  {
    PaddedValue(n);
    var s := PadLeft9(Dec(n));
    hide PadLeft9, Dec, Val;
    TrimmedIsNonEmpty(s);
    FillUndoesTrim(s);
    assert s + Zeros(0) == s;
  }
}
