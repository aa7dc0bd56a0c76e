/**
 * What a format means: a list of plain texts, named placeholders and numbered
 * placeholders, each with its own value. `format` computes exactly that.
 */
module FormatMeaning {
  import opened Sequences
  import opened Text
  import opened DataFormat

  /**
   * A part of a format: text without '%'; a letter, with further letters that are
   * ignored; or a capture number, with leading zeros.
   */
  datatype Part = Plain(text: string) | Letter(key: char, more: string) | Number(zeros: nat, n: nat)

  const INT_MAX: nat := 0x7fff_ffff

  predicate AllLetters(s: string) { forall i :: 0 <= i < |s| ==> IsLetter(s[i]) }

  predicate PartOk(p: Part)
  {
    match p
    case Plain(text) => '%' !in text
    case Letter(key, more) => IsLetter(key) && AllLetters(more)
    case Number(_, n) => n <= INT_MAX
  }

  /** How the part is written. */
  function Written(p: Part): string
  {
    match p
    case Plain(text) => text
    case Letter(key, more) => "%" + [key] + more
    case Number(zeros, n) => "%" + Zeros(zeros) + Decimal(n)
  }

  /** What a letter stands for: its value, unless that is missing or empty. */
  function LetterValue(values: map<char, string>, key: char): string
  {
    if key in values && |values[key]| > 0 then values[key] else "-?-"
  }

  /** What a number stands for: the capture of that number, counted from 0. */
  function NumberValue(captures: seq<string>, n: nat): string
  {
    if n < |captures| then captures[n] else "-?-"
  }

  /** The part once the letters are replaced. */
  function WithLetters(values: map<char, string>, p: Part): string
  {
    if p.Letter? then LetterValue(values, p.key) else Written(p)
  }

  /** The part once everything is replaced. */
  function Meant(values: map<char, string>, captures: seq<string>, p: Part): string
  {
    if p.Number? then NumberValue(captures, p.n) else WithLetters(values, p)
  }

  function Source(parts: seq<Part>): string
  {
    if parts == [] then "" else Written(parts[0]) + Source(parts[1..])
  }

  function AllNamed(values: map<char, string>, parts: seq<Part>): string
  {
    if parts == [] then "" else WithLetters(values, parts[0]) + AllNamed(values, parts[1..])
  }

  function Meaning(values: map<char, string>, captures: seq<string>, parts: seq<Part>): string
  {
    if parts == [] then "" else Meant(values, captures, parts[0]) + Meaning(values, captures, parts[1..])
  }

  /** No letter runs into the text behind it, and no number does, before or after the letters are replaced. */
  predicate Separate(values: map<char, string>, parts: seq<Part>)
  {
    parts != [] ==>
      && PartOk(parts[0]) && Separate(values, parts[1..])
      && (parts[0].Letter? ==> Source(parts[1..]) == "" || !IsLetter(Source(parts[1..])[0]))
      && (parts[0].Number? ==> AllNamed(values, parts[1..]) == "" || !IsDigit(AllNamed(values, parts[1..])[0]))
  }

  // ---- The letters ----

  /** A run of token characters ends where the next character is none. */
  lemma {:induction false} RunIs(tok: Token, s: string, i: nat, j: nat)
    requires i <= j <= |s| && (forall k :: i <= k < j ==> tok(s[k])) && (j < |s| ==> !tok(s[j]))
    ensures RunEnd(tok, s, i) == j
    decreases j - i
  {
    if i < j {
      RunIs(tok, s, i + 1, j);
    }
  }

  /** A placeholder at the front is replaced by its value. */
  lemma PassFills(tok: Token, fill: Filler, run: string, rest: string)
    requires run != [] && (forall k :: 0 <= k < |run| ==> tok(run[k])) && (rest != [] ==> !tok(rest[0]))
    ensures OnePass(tok, fill, "%" + run + rest) == fill(run) + OnePass(tok, fill, rest)
  {
    var s, n := "%" + run + rest, 1 + |run|;
    assert forall k :: 1 <= k < n ==> s[k] == run[k - 1];
    RunIs(tok, s, 1, n);
    assert s[1..n] == run && s[n..] == rest && s[0] == '%';
    assert MatchAt(tok, s, 0);
  }

  lemma LetterPass(values: map<char, string>, key: char, more: string, rest: string)
    requires IsLetter(key) && AllLetters(more) && (rest != [] ==> !IsLetter(rest[0]))
    ensures OnePass(Letters(), MapFiller(values), "%" + [key] + more + rest) ==
            LetterValue(values, key) + OnePass(Letters(), MapFiller(values), rest)
  {
    var run := [key] + more;
    assert "%" + [key] + more + rest == "%" + run + rest;
    PassFills(Letters(), MapFiller(values), run, rest);
  }

  lemma {:induction false} DigitsCopied(tok: Token, fill: Filler, d: string, rest: string)
    requires d != [] && (forall k :: 0 <= k < |d| ==> !tok(d[k]) && d[k] != '%')
    ensures OnePass(tok, fill, "%" + d + rest) == "%" + d + OnePass(tok, fill, rest)
  {
    var a := "%" + d;
    assert forall k :: 0 <= k < |d| ==> (a + rest)[k + 1] == d[k];
    PassCopies(tok, fill, a, rest);
  }

  lemma PlainCopied(tok: Token, fill: Filler, text: string, rest: string)
    requires '%' !in text
    ensures OnePass(tok, fill, text + rest) == text + OnePass(tok, fill, rest)
  {
    assert forall k :: 0 <= k < |text| ==> (text + rest)[k] == text[k] && text[k] in text;
    PassCopies(tok, fill, text, rest);
  }

  lemma {:induction false} LettersPass(values: map<char, string>, parts: seq<Part>)
    requires Separate(values, parts)
    ensures OnePass(Letters(), MapFiller(values), Source(parts)) == AllNamed(values, parts)
  {
    if parts != [] {
      var p, rest := parts[0], Source(parts[1..]);
      LettersPass(values, parts[1..]);
      match p {
        case Plain(text) => PlainCopied(Letters(), MapFiller(values), text, rest);
        case Letter(key, more) => LetterPass(values, key, more, rest);
        case Number(zeros, n) =>
          var d := Zeros(zeros) + Decimal(n);
          Regroup("%", Zeros(zeros), Decimal(n));
          DigitsCopied(Letters(), MapFiller(values), d, rest);
      }
    }
  }

  // ---- The numbers ----

  lemma NumberFilled(captures: seq<string>, zeros: nat, n: nat)
    requires n <= INT_MAX
    ensures CapFiller(captures)(Zeros(zeros) + Decimal(n)) == NumberValue(captures, n)
  {
    ValueOfZeros(zeros, Decimal(n));
    ValueOfDecimal(n);
    RunFilled(captures, Zeros(zeros) + Decimal(n), n);
  }

  /** atoi does not cut a number that fits an int. */
  lemma AtoiSmall(run: string)
    requires AllDigits(run) && Value(run) <= INT_MAX
    ensures Atoi(run) == Value(run)
  {
  }

  lemma RunFilled(captures: seq<string>, run: string, n: nat)
    requires AllDigits(run) && Value(run) == n <= INT_MAX
    ensures CapFiller(captures)(run) == NumberValue(captures, n)
  {
    AtoiSmall(run);
  }

  ghost predicate ValuesPlain(values: map<char, string>) { forall c :: c in values ==> '%' !in values[c] }

  ghost predicate CapturesPlain(captures: seq<string>) { forall i :: 0 <= i < |captures| ==> '%' !in captures[i] }

  lemma NumberPass(captures: seq<string>, zeros: nat, n: nat, rest: string)
    requires n <= INT_MAX && (rest != [] ==> !IsDigit(rest[0]))
    ensures OnePass(Digits(), CapFiller(captures), "%" + Zeros(zeros) + Decimal(n) + rest) ==
            NumberValue(captures, n) + OnePass(Digits(), CapFiller(captures), rest)
  {
    var run := Zeros(zeros) + Decimal(n);
    Regroup("%", Zeros(zeros), Decimal(n));
    PassFills(Digits(), CapFiller(captures), run, rest);
    NumberFilled(captures, zeros, n);
  }

  lemma {:induction false} NumbersPass(values: map<char, string>, captures: seq<string>, parts: seq<Part>)
    requires Separate(values, parts) && ValuesPlain(values)
    ensures OnePass(Digits(), CapFiller(captures), AllNamed(values, parts)) == Meaning(values, captures, parts)
  {
    if parts != [] {
      var p, rest := parts[0], AllNamed(values, parts[1..]);
      NumbersPass(values, captures, parts[1..]);
      match p {
        case Number(zeros, n) => NumberPass(captures, zeros, n, rest);
        case _ => PlainCopied(Digits(), CapFiller(captures), WithLetters(values, p), rest);
      }
    }
  }

  // ---- The whole format ----

  lemma PartNoAdjacent(p: Part)
    requires PartOk(p)
    ensures NoAdjacent(Written(p)) && (Written(p) != "" ==> Written(p)[|Written(p)| - 1] != '%')
  {
    match p
    case Plain(text) => assert forall i :: 0 <= i < |text| ==> text[i] in text;
    case Letter(key, more) => assert forall i :: 1 <= i < |Written(p)| ==> Written(p)[i] == ([key] + more)[i - 1];
    case Number(zeros, n) =>
      var d := Zeros(zeros) + Decimal(n);
      assert forall i :: 1 <= i < |Written(p)| ==> Written(p)[i] == d[i - 1];
  }

  lemma {:induction false} SourceNoAdjacent(parts: seq<Part>)
    requires forall i :: 0 <= i < |parts| ==> PartOk(parts[i])
    ensures NoAdjacent(Source(parts))
  {
    if parts != [] {
      SourceNoAdjacent(parts[1..]);
      PartNoAdjacent(parts[0]);
      JoinNoAdjacent(Written(parts[0]), Source(parts[1..]));
    }
  }

  lemma JoinNoAdjacent(a: string, b: string)
    requires NoAdjacent(a) && NoAdjacent(b) && (a != "" ==> a[|a| - 1] != '%')
    ensures NoAdjacent(a + b)
  {
    var s := a + b;
    forall i | 0 <= i < |s| - 1
      ensures !(s[i] == '%' && s[i + 1] == '%')
    {
      if i + 1 < |a| {
        assert s[i] == a[i] && s[i + 1] == a[i + 1];
      } else if i < |a| {
        assert s[i] == a[|a| - 1];
      } else {
        assert s[i] == b[i - |a|] && s[i + 1] == b[i - |a| + 1];
      }
    }
  }

  lemma {:induction false} PartsOk(values: map<char, string>, parts: seq<Part>)
    requires Separate(values, parts)
    ensures forall i :: 0 <= i < |parts| ==> PartOk(parts[i])
  {
    if parts != [] {
      PartsOk(values, parts[1..]);
      assert forall i :: 1 <= i < |parts| ==> parts[i] == parts[1..][i - 1];
    }
  }

  lemma PlainIsFree(values: map<char, string>, captures: seq<string>)
    requires ValuesPlain(values) && CapturesPlain(captures)
    ensures PercentFree(MapFiller(values)) && PercentFree(CapFiller(captures))
    ensures Clean(Letters(), MapFiller(values)) && Clean(Digits(), CapFiller(captures))
  {
    FreeIsClean(Letters(), MapFiller(values));
    FreeIsClean(Digits(), CapFiller(captures));
  }

  lemma FreeIsClean(tok: Token, fill: Filler)
    requires PercentFree(fill) && !tok('%')
    ensures Clean(tok, fill)
  {
    forall run
      ensures !Placeholder(tok, fill(run))
    {
      assert '%' !in fill(run);
    }
  }

  /**
   * For values and captures without '%' both loops end, and the result is the meaning of
   * the format: every letter replaced by its value, every number by the capture of that
   * number, "-?-" for what is missing, and the text in between unchanged.
   */
  lemma FormatMeans(values: map<char, string>, captures: seq<string>, parts: seq<Part>, s: string)
    requires ValuesPlain(values) && CapturesPlain(captures) && Separate(values, parts)
    ensures BothEnd(MapFiller(values), CapFiller(captures), Source(parts))
    ensures Formatted(MapFiller(values), CapFiller(captures), Source(parts), s) ==> s == Meaning(values, captures, parts)
  {
    PlainIsFree(values, captures);
    CleanFormats(MapFiller(values), CapFiller(captures), Source(parts));
    PartsOk(values, parts);
    SourceNoAdjacent(parts);
    PlainFormats(MapFiller(values), CapFiller(captures), Source(parts));
    if Formatted(MapFiller(values), CapFiller(captures), Source(parts), s) {
      FormattedInTwoPasses(MapFiller(values), CapFiller(captures), Source(parts), s);
      LettersPass(values, parts);
      NumbersPass(values, captures, parts);
    }
  }

  /** The object's own `format`, on a format made of such parts. */
  method FormatParts(f: Format, parts: seq<Part>, cap: seq<string>, more: map<char, string>) returns (s: string)
    requires f.source == Source(parts)
    requires var values, captures := if more == map[] then f.values else more, if cap == [] then f.captures else cap;
             ValuesPlain(values) && CapturesPlain(captures) && Separate(values, parts)
    modifies f
    ensures s == Meaning(if more == map[] then old(f.values) else more, if cap == [] then old(f.captures) else cap, parts)
  {
    ghost var values, captures := if more == map[] then f.values else more, if cap == [] then f.captures else cap;
    FormatMeans(values, captures, parts, "");
    s := f.DoFormat(cap, more);
    FormatMeans(values, captures, parts, s);
  }
}
