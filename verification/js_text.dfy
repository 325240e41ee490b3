/** Strings as the API server compares, pads and prints them. */
module JsText {

  datatype Option<+T> = None | Some(value: T)

  /** The `<` of two strings: lexicographic by character, here a code point. */
  predicate Before(a: string, b: string) {
    if b == [] then false
    else if a == [] then true
    else a[0] < b[0] || (a[0] == b[0] && Before(a[1..], b[1..]))
  }

  /** `Before` is a strict total order: irreflexive, and exactly one of <, ==, > holds. */
  lemma {:induction false} BeforeTrichotomy(a: string, b: string)
    ensures Before(a, b) ==> !Before(b, a) && a != b
    ensures !Before(a, b) && !Before(b, a) ==> a == b
  {
    if a == [] || b == [] || a[0] != b[0] {
    } else {
      BeforeTrichotomy(a[1..], b[1..]);
      assert a == [a[0]] + a[1..] && b == [b[0]] + b[1..];
    }
  }

  lemma {:induction false} BeforeTransitive(a: string, b: string, c: string)
    requires Before(a, b) && Before(b, c)
    ensures Before(a, c)
  {
    if a == [] || a[0] < b[0] || b[0] < c[0] {
    } else {
      BeforeTransitive(a[1..], b[1..], c[1..]);
    }
  }

  /** `haystack.includes(needle)`. */
  predicate Includes(haystack: string, needle: string) {
    exists k :: 0 <= k <= |haystack| && needle <= haystack[k..]
  }

  // ---- decimal numerals ----

  predicate IsDigit(c: char) { '0' <= c <= '9' }

  predicate AllDigits(s: string) { forall i :: 0 <= i < |s| ==> IsDigit(s[i]) }

  function DigitValue(c: char): (v: int)
    requires IsDigit(c)
    ensures 0 <= v <= 9
  {
    c as int - '0' as int
  }

  function Pow10(n: nat): (p: nat)
    ensures p >= 1
  {
    if n == 0 then 1 else 10 * Pow10(n - 1)
  }

  /** The value of a decimal numeral, `parseInt(s, 10)` on a string of digits. */
  function Numeral(s: string): (v: nat)
    requires AllDigits(s)
    ensures v < Pow10(|s|)
  {
    if s == [] then 0
    else
      assert AllDigits(s[1..]);
      DigitTimes(DigitValue(s[0]), Pow10(|s| - 1));
      DigitValue(s[0]) * Pow10(|s| - 1) + Numeral(s[1..])
  }

  lemma DigitTimes(d: int, p: nat)
    requires 0 <= d <= 9
    ensures 0 <= d * p <= 9 * p
  {
  }

  lemma LeadingDigitDecides(d: int, e: int, r: nat, p: nat)
    requires d < e && r < p
    ensures d * p + r < e * p
  {
    assert (d + 1) * p <= e * p;
  }

  /** Same-width numerals: string order is numeric order. */
  lemma {:induction false} SameWidthOrder(a: string, b: string)
    requires AllDigits(a) && AllDigits(b) && |a| == |b|
    ensures Before(a, b) <==> Numeral(a) < Numeral(b)
  {
    if a == [] {
    } else {
      var p := Pow10(|a| - 1);
      var d, e := DigitValue(a[0]), DigitValue(b[0]);
      assert AllDigits(a[1..]) && AllDigits(b[1..]);
      if d < e {
        LeadingDigitDecides(d, e, Numeral(a[1..]), p);
      } else if e < d {
        LeadingDigitDecides(e, d, Numeral(b[1..]), p);
      } else {
        SameWidthOrder(a[1..], b[1..]);
      }
    }
  }

  /** `s.padStart(width, '0')`. */
  function PadZeros(s: string, width: nat): string
    decreases width - |s|
  {
    if |s| >= width then s else PadZeros(['0'] + s, width)
  }

  lemma {:induction false} PaddingKeepsValue(s: string, width: nat)
    requires AllDigits(s) && |s| <= width
    ensures |PadZeros(s, width)| == width
    ensures AllDigits(PadZeros(s, width))
    ensures Numeral(PadZeros(s, width)) == Numeral(s)
    decreases width - |s|
  {
    if |s| < width {
      var t := ['0'] + s;
      assert t[1..] == s;
      PaddingKeepsValue(t, width);
    }
  }

  /** Numerals that fit in `width` columns: the order of the padded strings is numeric order. */
  lemma {:induction false} PaddedOrder(a: string, b: string, width: nat)
    requires AllDigits(a) && AllDigits(b) && |a| <= width && |b| <= width
    ensures Before(PadZeros(a, width), PadZeros(b, width)) <==> Numeral(a) < Numeral(b)
  {
    PaddingKeepsValue(a, width);
    PaddingKeepsValue(b, width);
    SameWidthOrder(PadZeros(a, width), PadZeros(b, width));
  }

  /** A numeral without redundant leading zeros. */
  predicate Canonical(s: string) {
    AllDigits(s) && s != [] && (|s| > 1 ==> s[0] != '0')
  }

  lemma {:induction false} CanonicalLowerBound(s: string)
    requires Canonical(s) && |s| > 1
    ensures Numeral(s) >= Pow10(|s| - 1)
  {
    var p := Pow10(|s| - 1);
    var d := DigitValue(s[0]);
    assert d >= 1;
    assert d * p >= 1 * p;
  }

  lemma {:induction false} Pow10Monotone(m: nat, n: nat)
    requires m <= n
    ensures Pow10(m) <= Pow10(n)
  {
    if m < n { Pow10Monotone(m, n - 1); }
  }

  lemma {:induction false} CanonicalLongerIsLarger(a: string, b: string)
    requires Canonical(a) && Canonical(b) && |a| < |b|
    ensures Numeral(a) < Numeral(b)
  {
    CanonicalLowerBound(b);
    Pow10Monotone(|a|, |b| - 1);
  }

  /** Distinct canonical numerals name distinct numbers. */
  lemma {:induction false} CanonicalInjective(a: string, b: string)
    requires Canonical(a) && Canonical(b) && Numeral(a) == Numeral(b)
    ensures a == b
  {
    if |a| < |b| {
      CanonicalLongerIsLarger(a, b);
    } else if |b| < |a| {
      CanonicalLongerIsLarger(b, a);
    } else {
      SameWidthOrder(a, b);
      SameWidthOrder(b, a);
      BeforeTrichotomy(a, b);
    }
  }

  // ---- printing integers ----

  function NatText(n: nat): (s: string)
    ensures s != [] && AllDigits(s)
  {
    if n < 10 then ['0' + n as char] else NatText(n / 10) + ['0' + (n % 10) as char]
  }

  /** `String(n)` of an integral number. */
  function IntText(n: int): string {
    if n < 0 then "-" + NatText(-n) else NatText(n)
  }

  lemma {:induction false} NumeralSnoc(s: string, c: char)
    requires AllDigits(s) && IsDigit(c)
    ensures AllDigits(s + [c]) && Numeral(s + [c]) == 10 * Numeral(s) + DigitValue(c)
  {
    if s == [] {
      assert (s + [c])[1..] == [];
    } else {
      assert AllDigits(s[1..]);
      assert (s + [c])[1..] == s[1..] + [c];
      NumeralSnoc(s[1..], c);
      assert DigitValue(s[0]) * Pow10(|s|) == 10 * (DigitValue(s[0]) * Pow10(|s| - 1));
    }
  }

  lemma {:induction false} NatTextReadsBack(n: nat)
    ensures Numeral(NatText(n)) == n
  {
    if n < 10 {
      assert NatText(n)[1..] == [];
    } else {
      NatTextReadsBack(n / 10);
      NumeralSnoc(NatText(n / 10), '0' + (n % 10) as char);
    }
  }

  /** Printing integers loses nothing, so comparing the texts compares the numbers. */
  lemma {:induction false} IntTextInjective(m: int, n: int)
    requires IntText(m) == IntText(n)
    ensures m == n
  {
    NatTextReadsBack(if m < 0 then -m else m);
    NatTextReadsBack(if n < 0 then -n else n);
    if m < 0 && n < 0 {
      assert IntText(m)[1..] == NatText(-m) && IntText(n)[1..] == NatText(-n);
    }
  }
}
