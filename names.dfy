/** Decimal formatting of non-negative integers, as Python's `str(n)` and
    the zero-padded format `f"{n:0Wd}"` produce it. Every numbered output
    name of the pipeline is built from these. */
module Names {

  predicate IsDigit(c: char) {
    '0' <= c <= '9'
  }

  predicate AllDigits(s: string) {
    forall k :: 0 <= k < |s| ==> IsDigit(s[k])
  }

  function DigitChar(d: nat): (c: char)
    requires d < 10
    ensures IsDigit(c) && c as int - '0' as int == d
  {
    (d + '0' as int) as char
  }

  /** The value of a string of decimal digits (leading zeros allowed). */
  function DigitsValue(s: string): nat
    requires AllDigits(s)
  {
    if s == [] then 0
    else DigitsValue(s[..|s| - 1]) * 10 + (s[|s| - 1] as int - '0' as int)
  }

  /** `str(n)`: the shortest decimal spelling of n. */
  function Decimal(n: nat): (s: string)
    ensures 1 <= |s|
  {
    if n < 10 then [DigitChar(n)] else Decimal(n / 10) + [DigitChar(n % 10)]
  }

  /** The spelling is made of digits, reads back as n and has no leading
      zero. */
  lemma {:induction false} DecimalSpec(n: nat)
    ensures AllDigits(Decimal(n)) && DigitsValue(Decimal(n)) == n
    ensures |Decimal(n)| > 1 ==> Decimal(n)[0] != '0'
  {
    if n >= 10 {
      DecimalSpec(n / 10);
      var front := Decimal(n / 10);
      var s := Decimal(n);
      assert s == front + [DigitChar(n % 10)];
      assert s[..|s| - 1] == front;
    }
  }

  function Zeros(k: nat): (s: string)
    ensures |s| == k && forall i :: 0 <= i < k ==> s[i] == '0'
  {
    if k == 0 then [] else Zeros(k - 1) + ['0']
  }

  /** Leading zeros do not change the value of a digit string. */
  lemma {:induction false} LeadingZerosValue(k: nat, t: string)
    requires AllDigits(t)
    ensures AllDigits(Zeros(k) + t)
    ensures DigitsValue(Zeros(k) + t) == DigitsValue(t)
  {
    var z := Zeros(k) + t;
    if t == [] {
      assert z == Zeros(k);
      ZerosValue(k);
    } else {
      var init := t[..|t| - 1];
      assert z[..|z| - 1] == Zeros(k) + init;
      LeadingZerosValue(k, init);
    }
  }

  lemma {:induction false} ZerosValue(k: nat)
    ensures AllDigits(Zeros(k)) && DigitsValue(Zeros(k)) == 0
  {
    if k > 0 {
      assert Zeros(k)[..k - 1] == Zeros(k - 1);
      ZerosValue(k - 1);
    }
  }

  /** `f"{n:0{width}d}"` for n >= 0: the decimal spelling of n, left-padded
      with '0' to at least `width` characters. Its digits read back as n, so
      two different numbers never share a padded spelling. */
  function ZeroPad(n: nat, width: nat): string {
    var d := Decimal(n);
    Zeros(if |d| < width then width - |d| else 0) + d
  }

  lemma ZeroPadSpec(n: nat, width: nat)
    ensures var s := ZeroPad(n, width);
      && AllDigits(s) && DigitsValue(s) == n
      && |s| == (if |Decimal(n)| < width then width else |Decimal(n)|)
      && (1 <= width && n < Pow10(width) ==> |s| == width)
  {
    var d := Decimal(n);
    var pad := if |d| < width then width - |d| else 0;
    DecimalSpec(n);
    LeadingZerosValue(pad, d);
    DecimalLength(n, width);
  }

  function Pow10(k: nat): (p: nat)
    ensures p >= 1
  {
    if k == 0 then 1 else 10 * Pow10(k - 1)
  }

  /** A number below 10^width needs at most `width` digits. */
  lemma {:induction false} DecimalLength(n: nat, width: nat)
    ensures 1 <= width && n < Pow10(width) ==> |Decimal(n)| <= width
  {
    if n >= 10 && 1 < width && n < Pow10(width) {
      assert n / 10 < Pow10(width - 1);
      DecimalLength(n / 10, width - 1);
    }
  }

  /** Padded numbers of the same width are equal exactly when the numbers are. */
  lemma ZeroPadInjective(a: nat, b: nat, width: nat)
    ensures ZeroPad(a, width) == ZeroPad(b, width) <==> a == b
  {
    ZeroPadSpec(a, width);
    ZeroPadSpec(b, width);
  }

  /** A common prefix and suffix cancel out of an equation between strings
      whose middles have the same length. */
  lemma ConcatCancel(p: string, a: string, b: string, s: string)
    ensures p + a + s == p + b + s <==> a == b
  {
    if p + a + s == p + b + s {
      assert |a| == |b|;
      assert a == (p + a + s)[|p|..|p| + |a|];
      assert b == (p + b + s)[|p|..|p| + |b|];
    }
  }

  /** The three parts of a concatenation are its three slices. */
  lemma ConcatSlices(a: string, b: string, c: string)
    ensures var s := a + b + c;
      && s[..|a|] == a && s[|a|..|a| + |b|] == b && s[|a| + |b|..] == c
      && s[|a|..|s| - |c|] == b
  {
  }

  /** Two names with the same extension are equal only if their fronts are. */
  lemma SuffixCancel(a: string, b: string, e: string)
    ensures a + e == b + e ==> a == b
  {
    if a + e == b + e {
      assert a == (a + e)[..|a|];
      assert b == (b + e)[..|b|];
    }
  }

  /** In a name of the form `front_digits`, the digits are what follows the
      last '_', so two such names that are equal have equal digits, whatever
      their fronts. */
  lemma SeparatedDigitsCancel(s: string, t: string, p: string, q: string)
    requires AllDigits(p) && AllDigits(q)
    ensures s + "_" + p == t + "_" + q ==> p == q
  {
    var a, b := s + "_" + p, t + "_" + q;
    if a == b {
      if |p| < |q| {
        SeparatorAt(s, p);
        DigitAt(t, q, |q| - |p| - 1);
        assert false;
      } else if |q| < |p| {
        SeparatorAt(t, q);
        DigitAt(s, p, |p| - |q| - 1);
        assert false;
      }
      assert p == a[|a| - |p|..];
      assert q == b[|b| - |q|..];
    }
  }

  lemma SeparatorAt(s: string, p: string)
    ensures (s + "_" + p)[|s|] == '_'
  {
  }

  lemma DigitAt(s: string, p: string, j: int)
    ensures AllDigits(p) && 0 <= j < |p| ==> IsDigit((s + "_" + p)[|s| + 1 + j])
  {
    if AllDigits(p) && 0 <= j < |p| {
      assert (s + "_" + p)[|s| + 1 + j] == p[j];
    }
  }
}
