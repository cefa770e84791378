/** Decimal text as the screen renders it: Kotlin's `Int.toString`, the
    `"%03d"` format, and Kotlin's integer division by 1000, which truncates
    toward zero (unlike Dafny's `/`, which is Euclidean). */
module Decimal {

  predicate IsDigit(ch: char)
  {
    '0' <= ch <= '9'
  }

  predicate AllDigits(s: string)
  {
    forall i :: 0 <= i < |s| ==> IsDigit(s[i])
  }

  function DigitValue(ch: char): (d: int)
    requires IsDigit(ch)
    ensures 0 <= d < 10
  {
    ch as int - '0' as int
  }

  function DigitChar(d: int): (ch: char)
    requires 0 <= d < 10
    ensures IsDigit(ch) && DigitValue(ch) == d
  {
    ('0' as int + d) as char
  }

  /** The canonical decimal digits of `n`: no leading zero except for zero itself. */
  function Digits(n: nat): (s: string)
    ensures 1 <= |s| && AllDigits(s)
    ensures n == 0 ==> s == "0"
    ensures n > 0 ==> s[0] != '0'
    decreases n
  {
    if n < 10 then [DigitChar(n)] else Digits(n / 10) + [DigitChar(n % 10)]
  }

  /** The number a string of decimal digits denotes (leading zeros allowed). */
  function Value(s: string): nat
    requires AllDigits(s)
  {
    if |s| == 0 then 0 else Value(s[..|s| - 1]) * 10 + DigitValue(s[|s| - 1])
  }

  /** Reading the digits of `n` gives back `n`. */
  lemma {:induction false} ValueOfDigits(n: nat)
    ensures Value(Digits(n)) == n
    decreases n
  {
    if n >= 10 {
      var s := Digits(n);
      assert s[..|s| - 1] == Digits(n / 10);
      ValueOfDigits(n / 10);
    }
  }

  /** Writing the value of a canonical digit string gives back the string. */
  lemma {:induction false} DigitsOfValue(s: string)
    requires 1 <= |s| && AllDigits(s)
    requires |s| > 1 ==> s[0] != '0'
    ensures Digits(Value(s)) == s
    decreases |s|
  {
    if |s| == 1 {
      assert Value(s) == Value(s[..0]) * 10 + DigitValue(s[0]);
      assert s[..0] == [];
    } else {
      var init := s[..|s| - 1];
      DigitsOfValue(init);
      ValueOfCanonicalIsLarge(init);
    }
  }

  /** A digit string that does not start with zero denotes a positive number. */
  lemma {:induction false} ValueOfCanonicalIsLarge(s: string)
    requires 1 <= |s| && AllDigits(s) && s[0] != '0'
    ensures Value(s) >= 1
    decreases |s|
  {
    if |s| > 1 {
      var init := s[..|s| - 1];
      ValueOfCanonicalIsLarge(init);
    } else {
      assert s[..0] == [];
    }
  }

  /** `k` zero characters. */
  function Zeros(k: nat): (s: string)
    ensures |s| == k && AllDigits(s)
    ensures forall i :: 0 <= i < k ==> s[i] == '0'
  {
    if k == 0 then [] else Zeros(k - 1) + "0"
  }

  /** Leading zeros do not change the value of a digit string. */
  lemma {:induction false} ValueIgnoresLeadingZeros(k: nat, s: string)
    requires AllDigits(s)
    ensures AllDigits(Zeros(k) + s)
    ensures Value(Zeros(k) + s) == Value(s)
    decreases k + |s|
  {
    var t := Zeros(k) + s;
    if |s| == 0 {
      assert t == Zeros(k);
      if k > 0 {
        assert t[..|t| - 1] == Zeros(k - 1) + [];
        ValueIgnoresLeadingZeros(k - 1, []);
      }
    } else {
      assert t[..|t| - 1] == Zeros(k) + s[..|s| - 1];
      ValueIgnoresLeadingZeros(k, s[..|s| - 1]);
    }
  }

  /** `s` is a decimal rendering of `i`: a minus sign exactly when `i` is
      negative, followed by one or more digits that denote the magnitude. */
  ghost predicate RendersAs(s: string, i: int)
  {
    && 1 <= |s|
    && (s[0] == '-' <==> i < 0)
    && var mag := if i < 0 then s[1..] else s;
       1 <= |mag| && AllDigits(mag) && Value(mag) == if i < 0 then -i else i
  }

  /** `s` is the shortest decimal rendering of `i`: a rendering whose digits
      carry no leading zero. */
  ghost predicate Shortest(s: string, i: int)
  {
    && RendersAs(s, i)
    && var mag := if i < 0 then s[1..] else s; |mag| > 1 ==> mag[0] != '0'
  }

  /** An integer has exactly one shortest rendering. */
  lemma {:induction false} ShortestIsUnique(s: string, t: string, i: int)
    requires Shortest(s, i) && Shortest(t, i)
    ensures s == t
  {
    var ms := if i < 0 then s[1..] else s;
    var mt := if i < 0 then t[1..] else t;
    DigitsOfValue(ms);
    DigitsOfValue(mt);
    if i < 0 {
      assert s == [s[0]] + ms && t == [t[0]] + mt;
    }
  }

  /** Kotlin's `Int.toString`: the shortest rendering, with no leading zero. */
  function IntToString(i: int): (s: string)
    ensures Shortest(s, i)
  {
    var mag := if i < 0 then -i else i;
    ValueOfDigits(mag);
    var s := if i < 0 then "-" + Digits(mag) else Digits(mag);
    assert i < 0 ==> s[1..] == Digits(mag);
    s
  }

  /** Two integers with the same `toString` are equal: the text determines
      the number. */
  lemma IntToStringInjective(i: int, j: int)
    requires IntToString(i) == IntToString(j)
    ensures i == j
  {
  }

  /** Left-pad a digit string with zeros up to `width` characters. */
  function ZeroPad(s: string, width: nat): (r: string)
    requires AllDigits(s)
    ensures AllDigits(r)
    ensures |r| == if |s| < width then width else |s|
    ensures Value(r) == Value(s)
  {
    var padded := if |s| < width then Zeros(width - |s|) + s else s;
    ValueIgnoresLeadingZeros(if |s| < width then width - |s| else 0, s);
    assert Zeros(0) + s == s;
    padded
  }

  /** `"%03d".format(n)`: a field three characters wide, zero-filled after the
      sign. */
  function Format03(n: int): (s: string)
    ensures RendersAs(s, n) && |s| >= 3
    ensures |s| > 3 ==> Shortest(s, n)
  {
    var mag := if n < 0 then -n else n;
    ValueOfDigits(mag);
    var s := if n < 0 then "-" + ZeroPad(Digits(mag), 2) else ZeroPad(Digits(mag), 3);
    assert n < 0 ==> s[1..] == ZeroPad(Digits(mag), 2);
    s
  }

  /** Every millisecond count below a second renders as exactly three digits
      that read back as that count. */
  lemma Format03IsThreeDigits(n: int)
    requires 0 <= n < 1000
    ensures |Format03(n)| == 3 && AllDigits(Format03(n))
    ensures Value(Format03(n)) == n
  {
    ValueOfDigits(n);
    DigitsAreShort(n);
  }

  /** A number below 1000 has at most three digits. */
  lemma {:induction false} DigitsAreShort(n: nat)
    requires n < 1000
    ensures |Digits(n)| <= 3
  {
    if n >= 10 {
      assert |Digits(n)| == |Digits(n / 10)| + 1;
      if n / 10 >= 10 {
        assert |Digits(n / 10)| == |Digits(n / 10 / 10)| + 1;
        assert n / 10 / 10 < 10;
      }
    }
  }

  /** Kotlin's `a / 1000` on integers: the quotient truncated toward zero. */
  function Quot1000(a: int): (q: int)
    ensures 0 <= a ==> 0 <= q * 1000 <= a < q * 1000 + 1000
    ensures a < 0 ==> q * 1000 - 1000 < a <= q * 1000 <= 0
  {
    if a >= 0 then a / 1000 else -((-a) / 1000)
  }
}
