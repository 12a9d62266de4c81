/** String helpers with Python semantics: slicing, prefixes and zero-padded decimal numerals. */
module Text {

  /** Python's `s[:n]`: the first `n` elements, or all of `s` when it is shorter. */
  function Take<T>(s: seq<T>, n: nat): (r: seq<T>)
    ensures |r| == if |s| < n then |s| else n
    ensures r <= s
  {
    if |s| <= n then s else s[..n]
  }

  /** Truncating to a shorter length factors through any longer truncation. */
  lemma TakeNests<T>(s: seq<T>, m: nat, n: nat)
    requires m <= n
    ensures Take(Take(s, n), m) == Take(s, m)
  {
  }

  /** Python's `s.startswith(p)`. */
  predicate StartsWith(s: string, p: string)
  {
    |p| <= |s| && s[..|p|] == p
  }

  predicate IsDigits(s: string)
  {
    forall i :: 0 <= i < |s| ==> '0' <= s[i] <= '9'
  }

  function DigitChar(d: nat): (c: char)
    requires d < 10
    ensures '0' <= c <= '9' && (c as int) - ('0' as int) == d
  {
    (('0' as int) + d) as char
  }

  /** Python's `str(n)` for a natural number. */
  function Decimal(n: nat): (r: string)
    ensures |r| >= 1 && IsDigits(r)
  {
    if n < 10 then [DigitChar(n)] else Decimal(n / 10) + [DigitChar(n % 10)]
  }

  /** The number a string of decimal digits denotes. */
  function ValueOf(s: string): nat
    requires IsDigits(s)
  {
    if s == [] then 0 else ValueOf(s[..|s| - 1]) * 10 + ((s[|s| - 1] as int) - ('0' as int))
  }

  lemma {:induction false} DecimalValue(n: nat)
    ensures ValueOf(Decimal(n)) == n
  {
    if n >= 10 {
      DecimalValue(n / 10);
      var d := Decimal(n / 10) + [DigitChar(n % 10)];
      assert d[..|d| - 1] == Decimal(n / 10);
    }
  }

  function Zeros(k: nat): (r: string)
    ensures |r| == k && IsDigits(r)
    ensures forall i :: 0 <= i < k ==> r[i] == '0'
  {
    if k == 0 then [] else ['0'] + Zeros(k - 1)
  }

  /** Leading zeros do not change the value of a numeral. */
  lemma {:induction false} LeadingZerosValue(k: nat, s: string)
    requires IsDigits(s)
    ensures IsDigits(Zeros(k) + s) && ValueOf(Zeros(k) + s) == ValueOf(s)
  {
    if s == [] {
      assert Zeros(k) + s == Zeros(k);
      ZerosValue(k);
    } else {
      var init := s[..|s| - 1];
      LeadingZerosValue(k, init);
      var z := Zeros(k) + s;
      assert z[..|z| - 1] == Zeros(k) + init;
      assert z[|z| - 1] == s[|s| - 1];
    }
  }

  lemma {:induction false} ZerosValue(k: nat)
    ensures ValueOf(Zeros(k)) == 0
  {
    if k > 0 {
      var z := Zeros(k);
      var init := z[..|z| - 1];
      assert init == Zeros(k - 1) by {
        assert forall i :: 0 <= i < k - 1 ==> init[i] == '0';
      }
      ZerosValue(k - 1);
    }
  }

  function Pow10(k: nat): nat
  {
    if k == 0 then 1 else 10 * Pow10(k - 1)
  }

  /** A number below `10^k` has at most `k` digits. */
  lemma {:induction false} DecimalShort(n: nat, k: nat)
    requires k >= 1 && n < Pow10(k)
    ensures |Decimal(n)| <= k
  {
    if n >= 10 {
      DecimalShort(n / 10, k - 1);
    }
  }

  /** Python's `f"{n:>05}"`: the decimal numeral of `n`, left-padded with '0' to at least five characters. */
  function Pad5(n: nat): string
  {
    var d := Decimal(n);
    if |d| < 5 then Zeros(5 - |d|) + d else d
  }

  /** The padded numeral is all digits, at least five long, exactly five below 100000, and denotes `n`. */
  lemma Pad5Spec(n: nat)
    ensures IsDigits(Pad5(n)) && |Pad5(n)| >= 5 && ValueOf(Pad5(n)) == n
    ensures n < 100000 ==> |Pad5(n)| == 5
  {
    var d := Decimal(n);
    DecimalValue(n);
    if n < 100000 {
      assert Pow10(5) == 100000;
      DecimalShort(n, 5);
    }
    if |d| < 5 {
      LeadingZerosValue(5 - |d|, d);
    }
  }

  /** Different batch numbers give different padded numerals. */
  lemma Pad5Injective(a: nat, b: nat)
    requires Pad5(a) == Pad5(b)
    ensures a == b
  {
    Pad5Spec(a);
    Pad5Spec(b);
  }
}
