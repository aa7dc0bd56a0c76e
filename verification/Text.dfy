/** Character strings: substring search and decimal notation. */
module Text {

  ghost predicate OccursAt(text: string, pattern: string, i: int)
  {
    0 <= i <= |text| - |pattern| && text[i..i + |pattern|] == pattern
  }

  /** `strstr(text, pattern) != NULL`. */
  ghost predicate Contains(text: string, pattern: string)
  {
    exists i :: OccursAt(text, pattern, i)
  }

  method StrStr(text: string, pattern: string) returns (found: bool)
    ensures found <==> Contains(text, pattern)
  {
    var i := 0;
    while i + |pattern| <= |text|
      invariant 0 <= i
      invariant forall j :: 0 <= j < i ==> !OccursAt(text, pattern, j)
    {
      if text[i..i + |pattern|] == pattern {
        assert OccursAt(text, pattern, i);
        return true;
      }
      i := i + 1;
    }
    return false;
  }

  /** The first position of `c`, or the length of the text. */
  function IndexOf(text: string, c: char): (k: nat)
    ensures k <= |text| && c !in text[..k] && (k < |text| ==> text[k] == c)
  {
    if text == [] || text[0] == c then 0
    else
      var k := 1 + IndexOf(text[1..], c);
      assert text[..k] == [text[0]] + text[1..][..k - 1];
      k
  }

  lemma IndexFinds(text: string, c: char)
    ensures IndexOf(text, c) < |text| <==> c in text
  {
    var k := IndexOf(text, c);
    assert text[..|text|] == text;
  }

  lemma {:induction false} IndexIs(text: string, c: char, k: nat)
    requires k <= |text| && c !in text[..k] && (k < |text| ==> text[k] == c)
    ensures IndexOf(text, c) == k
    decreases k
  {
    if k > 0 {
      assert text[0] == text[..k][0];
      assert text[1..][..k - 1] == text[..k][1..];
      IndexIs(text[1..], c, k - 1);
    }
  }

  predicate IsDigit(c: char) { '0' <= c <= '9' }

  predicate AllDigits(s: string) { forall i :: 0 <= i < |s| ==> IsDigit(s[i]) }

  /** `isspace`. */
  predicate IsSpace(c: char) { c == ' ' || '\t' <= c <= '\r' }

  function Digit(n: nat): (c: char)
    requires n < 10
    ensures IsDigit(c)
  {
    (n + '0' as int) as char
  }

  function DigitValue(c: char): (n: nat)
    requires IsDigit(c)
    ensures n < 10 && Digit(n) == c
  {
    c as int - '0' as int
  }

  /** `%u`: decimal notation without leading zeros. */
  function Decimal(n: nat): (s: string)
    ensures |s| >= 1 && forall i :: 0 <= i < |s| ==> IsDigit(s[i])
  {
    if n < 10 then [Digit(n)] else Decimal(n / 10) + [Digit(n % 10)]
  }

  /** The number a digit string denotes; leading zeros are harmless. */
  function Value(s: string): nat
    requires forall i :: 0 <= i < |s| ==> IsDigit(s[i])
  {
    if s == [] then 0 else Value(s[..|s| - 1]) * 10 + DigitValue(s[|s| - 1])
  }

  /** Printing then reading a number gives it back. */
  lemma {:induction false} ValueOfDecimal(n: nat)
    ensures Value(Decimal(n)) == n
  {
    if n < 10 {
      assert Decimal(n)[..0] == [];
    } else {
      ValueOfDecimal(n / 10);
      var s := Decimal(n);
      assert s[..|s| - 1] == Decimal(n / 10);
    }
  }

  function Power10(n: nat): (p: nat)
    ensures p >= 1
  {
    if n == 0 then 1 else 10 * Power10(n - 1)
  }

  lemma {:induction false} DecimalLength(n: nat, k: nat)
    requires k >= 1 && n < Power10(k)
    ensures |Decimal(n)| <= k
    decreases k
  {
    if n >= 10 {
      DecimalLength(n / 10, k - 1);
    }
  }

  lemma DecimalInjective(m: nat, n: nat)
    requires Decimal(m) == Decimal(n)
    ensures m == n
  {
    ValueOfDecimal(m);
    ValueOfDecimal(n);
  }

  function Zeros(n: nat): (s: string)
    ensures |s| == n && forall i :: 0 <= i < n ==> s[i] == '0'
  {
    if n == 0 then "" else Zeros(n - 1) + "0"
  }

  /** `%.*d`: at least `width` digits, padded with zeros. */
  function Padded(width: nat, n: nat): (s: string)
    ensures |s| >= width && forall i :: 0 <= i < |s| ==> IsDigit(s[i])
  {
    var d := Decimal(n);
    if |d| >= width then d else Zeros(width - |d|) + d
  }

  lemma {:induction false} ValueOfZeros(k: nat, s: string)
    requires forall i :: 0 <= i < |s| ==> IsDigit(s[i])
    ensures Value(Zeros(k) + s) == Value(s)
    decreases k + |s|
  {
    var t := Zeros(k) + s;
    if s != [] {
      assert t[..|t| - 1] == Zeros(k) + s[..|s| - 1];
      ValueOfZeros(k, s[..|s| - 1]);
    } else if k > 0 {
      assert t[..|t| - 1] == Zeros(k - 1) + s;
      ValueOfZeros(k - 1, s);
    }
  }

  lemma PaddedInjective(width: nat, m: nat, n: nat)
    requires Padded(width, m) == Padded(width, n)
    ensures m == n
  {
    ValueOfPadded(width, m);
    ValueOfPadded(width, n);
  }

  lemma ValueOfPadded(width: nat, n: nat)
    ensures Value(Padded(width, n)) == n
  {
    ValueOfDecimal(n);
    var d := Decimal(n);
    if |d| < width {
      ValueOfZeros(width - |d|, d);
    }
  }
}
