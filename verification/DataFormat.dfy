/**
 * The data fields of an event: %<letters> and %<digits> in a format string are
 * replaced by named values and by captures, in two rewriting loops.
 */
module DataFormat {
  import opened Text
  import opened Sequences

  /** The characters a placeholder is made of. */
  type Token = char -> bool

  /** The replacement of a placeholder, given the characters behind its '%'. */
  type Filler = string -> string

  const MISSING := "-?-"

  /** The expression %([tok]+) matches at `i`. */
  predicate MatchAt(tok: Token, s: string, i: int)
  {
    0 <= i && i + 1 < |s| && s[i] == '%' && tok(s[i + 1])
  }

  /** The leftmost match from `i` on. */
  function FirstMatch(tok: Token, s: string, i: nat): (r: Option<nat>)
    requires i <= |s|
    ensures r.Some? ==> i <= r.value && MatchAt(tok, s, r.value)
    ensures forall k :: i <= k < (if r.Some? then r.value else |s|) ==> !MatchAt(tok, s, k)
    decreases |s| - i
  {
    if i == |s| then None else if MatchAt(tok, s, i) then Some(i) else FirstMatch(tok, s, i + 1)
  }

  /** The end of the longest run of token characters from `i` on. */
  function RunEnd(tok: Token, s: string, i: nat): (j: nat)
    requires i <= |s|
    ensures i <= j <= |s| && (j < |s| ==> !tok(s[j]))
    ensures i < |s| && tok(s[i]) ==> i < j
    decreases |s| - i
  {
    if i == |s| || !tok(s[i]) then i else RunEnd(tok, s, i + 1)
  }

  function Percents(s: string): nat
  {
    if s == [] then 0 else Percents(s[..|s| - 1]) + (if s[|s| - 1] == '%' then 1 else 0)
  }

  ghost predicate Placeholder(tok: Token, s: string) { exists i :: MatchAt(tok, s, i) }

  /** How many placeholders there are. */
  function Matches(tok: Token, s: string): nat
  {
    if s == [] then 0 else (if MatchAt(tok, s, 0) then 1 else 0) + Matches(tok, s[1..])
  }

  /** A placeholder that starts with the last character of `a` and goes on in `b`. */
  predicate Joint(tok: Token, a: string, b: string)
  {
    a != [] && b != [] && a[|a| - 1] == '%' && tok(b[0])
  }

  lemma {:induction false} MatchesSplit(tok: Token, a: string, b: string)
    ensures Matches(tok, a + b) == Matches(tok, a) + Matches(tok, b) + if Joint(tok, a, b) then 1 else 0
  {
    if a == [] {
      assert a + b == b;
    } else {
      var s := a + b;
      MatchesSplit(tok, a[1..], b);
      assert s[1..] == a[1..] + b && s[0] == a[0];
      assert |a| == 1 && b != [] ==> s[1] == b[0];
      assert |a| > 1 ==> s[1] == a[1];
    }
  }

  lemma {:induction false} NoMatches(tok: Token, s: string)
    requires forall i :: !MatchAt(tok, s, i)
    ensures Matches(tok, s) == 0
  {
    if s != [] {
      forall i
        ensures !MatchAt(tok, s[1..], i)
      {
        assert !MatchAt(tok, s, i + 1);
      }
      NoMatches(tok, s[1..]);
    }
  }

  /** Replacements bring in no placeholder of their own. */
  ghost predicate Clean(tok: Token, fill: Filler)
  {
    !tok('%') && forall run :: !Placeholder(tok, fill(run))
  }

  /** The placeholder at `i` is the leftmost one. */
  ghost predicate IsLeftmost(tok: Token, s: string, i: nat)
  {
    MatchAt(tok, s, i) && forall k :: 0 <= k < i ==> !MatchAt(tok, s, k)
  }

  /** One round of the loop: the leftmost placeholder replaced. */
  function Replaced(tok: Token, fill: Filler, s: string, i: nat): string
    requires MatchAt(tok, s, i)
  {
    var j := RunEnd(tok, s, i + 1);
    s[..i] + fill(s[i + 1..j]) + s[j..]
  }

  /** The placeholder at `i` follows a '%' that its replacement turns into a new placeholder. */
  ghost predicate Rematches(tok: Token, fill: Filler, s: string, i: nat)
    requires MatchAt(tok, s, i)
  {
    Joint(tok, s[..i], fill(s[i + 1..RunEnd(tok, s, i + 1)]))
  }

  lemma FrontHasNone(tok: Token, s: string, i: nat)
    requires IsLeftmost(tok, s, i)
    ensures Matches(tok, s[..i]) == 0
  {
    forall k
      ensures !MatchAt(tok, s[..i], k)
    {
      assert 0 <= k < i ==> !MatchAt(tok, s, k);
    }
    NoMatches(tok, s[..i]);
  }

  /** A run of token characters holds no placeholder and starts none. */
  lemma {:induction false} RunHasNone(tok: Token, s: string, i: nat, j: nat)
    requires !tok('%') && i <= j <= |s| && forall k :: i <= k < j ==> tok(s[k])
    ensures Matches(tok, s[i..j]) == 0
    decreases j - i
  {
    if i < j {
      RunHasNone(tok, s, i + 1, j);
      assert s[i..j][1..] == s[i + 1..j];
    }
  }

  lemma {:induction false} RunIsToken(tok: Token, s: string, i: nat, k: nat)
    requires i <= |s| && i <= k < RunEnd(tok, s, i)
    ensures tok(s[k])
    decreases k - i
  {
    if i < k {
      RunIsToken(tok, s, i + 1, k);
    }
  }

  lemma CutAt(s: string, i: nat, j: nat)
    requires i < j <= |s|
    ensures s == s[..i] + ([s[i]] + (s[i + 1..j] + s[j..]))
  {
  }

  /** A placeholder counts one, and those behind it. */
  lemma MatchesOfRun(tok: Token, run: string, c: string)
    requires !tok('%') && run != [] && (forall k :: 0 <= k < |run| ==> tok(run[k])) && Matches(tok, run) == 0
    ensures Matches(tok, "%" + (run + c)) == 1 + Matches(tok, c)
  {
    MatchesSplit(tok, "%", run + c);
    MatchesSplit(tok, run, c);
    NoMatches(tok, "%");
  }

  /** The leftmost placeholder counts one, the others are behind it. */
  lemma MatchesBehind(tok: Token, s: string, i: nat)
    requires !tok('%') && IsLeftmost(tok, s, i)
    ensures Matches(tok, s) == 1 + Matches(tok, s[RunEnd(tok, s, i + 1)..])
  {
    var j := RunEnd(tok, s, i + 1);
    var a, run, c := s[..i], s[i + 1..j], s[j..];
    FrontHasNone(tok, s, i);
    forall k | i + 1 <= k < j
      ensures tok(s[k])
    {
      RunIsToken(tok, s, i + 1, k);
    }
    RunHasNone(tok, s, i + 1, j);
    CutAt(s, i, j);
    MatchesOfRun(tok, run, c);
    MatchesSplit(tok, a, [s[i]] + (run + c));
  }

  /** After a round: those behind, and one more if the replacement completes a new one. */
  lemma MatchesAfter(tok: Token, fill: Filler, s: string, i: nat)
    requires Clean(tok, fill) && IsLeftmost(tok, s, i)
    ensures Matches(tok, Replaced(tok, fill, s, i)) ==
            Matches(tok, s[RunEnd(tok, s, i + 1)..]) + if Rematches(tok, fill, s, i) then 1 else 0
  {
    var j := RunEnd(tok, s, i + 1);
    var a, c, v := s[..i], s[j..], fill(s[i + 1..j]);
    FrontHasNone(tok, s, i);
    assert !Placeholder(tok, v);
    NoMatches(tok, v);
    assert a + v + c == a + (v + c);
    MatchesSplit(tok, a, v + c);
    MatchesSplit(tok, v, c);
  }

  /** The '%' before the leftmost placeholder. */
  function Lead(tok: Token, s: string): nat
  {
    var m := FirstMatch(tok, s, 0);
    if m.None? then 0 else Percents(s[..m.value])
  }

  /** Where the new placeholder is. */
  lemma RematchIsLeftmost(tok: Token, fill: Filler, s: string, i: nat)
    requires IsLeftmost(tok, s, i) && Rematches(tok, fill, s, i)
    ensures IsLeftmost(tok, Replaced(tok, fill, s, i), i - 1)
    ensures Replaced(tok, fill, s, i)[..i - 1] == s[..i - 1] && s[i - 1] == '%'
  {
    var s', v := Replaced(tok, fill, s, i), fill(s[i + 1..RunEnd(tok, s, i + 1)]);
    assert s[..i][i - 1] == s[i - 1];
    assert forall k :: 0 <= k < i ==> s'[k] == s[k];
    assert s'[i] == v[0];
    assert forall k :: 0 <= k < i - 1 ==> MatchAt(tok, s', k) == MatchAt(tok, s, k);
  }

  /** Every round leaves fewer placeholders, or as many with fewer '%' before the first. */
  lemma RoundShrinks(tok: Token, fill: Filler, s: string, i: nat)
    requires Clean(tok, fill) && FirstMatch(tok, s, 0) == Some(i)
    ensures var s' := Replaced(tok, fill, s, i);
            Matches(tok, s') < Matches(tok, s) || (Matches(tok, s') == Matches(tok, s) && Lead(tok, s') < Lead(tok, s))
  {
    MatchesBehind(tok, s, i);
    MatchesAfter(tok, fill, s, i);
    if Rematches(tok, fill, s, i) {
      RematchIsLeftmost(tok, fill, s, i);
      var s' := Replaced(tok, fill, s, i);
      assert FirstMatch(tok, s', 0) == Some(i - 1);
      assert s[..i][..i - 1] == s[..i - 1];
    }
  }

  // ---- The loop, round by round ----

  /** The text after at most `n` rounds; without a placeholder there is nothing left to do. */
  function Rounds(tok: Token, fill: Filler, s: string, n: nat): string
    decreases n
  {
    var m := FirstMatch(tok, s, 0);
    if n == 0 || m.None? then s else Rounds(tok, fill, Replaced(tok, fill, s, m.value), n - 1)
  }

  /** The loop ends, with this result. */
  ghost predicate Ended(tok: Token, fill: Filler, s: string, r: string)
  {
    FirstMatch(tok, r, 0).None? && exists n: nat :: r == Rounds(tok, fill, s, n)
  }

  ghost predicate Ends(tok: Token, fill: Filler, s: string) { exists r :: Ended(tok, fill, s, r) }

  /** The loop will be at `goal`, where it ends, after at most `n` more rounds. */
  ghost predicate Nears(tok: Token, fill: Filler, s: string, n: nat, goal: string)
  {
    FirstMatch(tok, goal, 0).None? && Rounds(tok, fill, s, n) == goal
  }

  lemma Begin(tok: Token, fill: Filler, s: string) returns (n: nat, goal: string)
    requires Ends(tok, fill, s)
    ensures Ended(tok, fill, s, goal) && Nears(tok, fill, s, n, goal)
  {
    goal :| Ended(tok, fill, s, goal);
    n :| goal == Rounds(tok, fill, s, n);
  }

  lemma RoundNears(tok: Token, fill: Filler, s: string, n: nat, goal: string, i: nat)
    requires Nears(tok, fill, s, n, goal) && FirstMatch(tok, s, 0) == Some(i)
    ensures n > 0 && Nears(tok, fill, Replaced(tok, fill, s, i), n - 1, goal)
  {
  }

  lemma AtGoal(tok: Token, fill: Filler, s: string, n: nat, goal: string)
    requires Nears(tok, fill, s, n, goal) && FirstMatch(tok, s, 0).None?
    ensures s == goal
  {
  }

  lemma {:induction false} RoundsMeet(tok: Token, fill: Filler, s: string, m: nat, n: nat)
    requires FirstMatch(tok, Rounds(tok, fill, s, m), 0).None? && FirstMatch(tok, Rounds(tok, fill, s, n), 0).None?
    ensures Rounds(tok, fill, s, m) == Rounds(tok, fill, s, n)
    decreases m
  {
    var first := FirstMatch(tok, s, 0);
    if first.Some? {
      RoundsMeet(tok, fill, Replaced(tok, fill, s, first.value), m - 1, n - 1);
    }
  }

  /** The result is determined by the text and the values. */
  lemma EndedUnique(tok: Token, fill: Filler, s: string, r: string, r': string)
    requires Ended(tok, fill, s, r) && Ended(tok, fill, s, r')
    ensures r == r'
  {
    var m: nat :| r == Rounds(tok, fill, s, m);
    var n: nat :| r' == Rounds(tok, fill, s, n);
    RoundsMeet(tok, fill, s, m, n);
  }

  /** With values that hold no placeholder the loop always ends. */
  lemma {:induction false} CleanEnds(tok: Token, fill: Filler, s: string) returns (n: nat)
    requires Clean(tok, fill)
    ensures Rounds(tok, fill, s, n) == Rewritten(tok, fill, s)
    ensures Ended(tok, fill, s, Rewritten(tok, fill, s))
    decreases Matches(tok, s), Lead(tok, s)
  {
    var m := FirstMatch(tok, s, 0);
    if m.None? {
      n := 0;
    } else {
      RoundShrinks(tok, fill, s, m.value);
      var n' := CleanEnds(tok, fill, Replaced(tok, fill, s, m.value));
      n := n' + 1;
      assert Rounds(tok, fill, s, n) == Rewritten(tok, fill, s);
    }
  }

  /** What the loop computes for such values: placeholders are replaced until none is left. */
  function Rewritten(tok: Token, fill: Filler, s: string): string
    requires Clean(tok, fill)
    decreases Matches(tok, s), Lead(tok, s)
  {
    var m := FirstMatch(tok, s, 0);
    if m.None? then s
    else
      RoundShrinks(tok, fill, s, m.value);
      Rewritten(tok, fill, Replaced(tok, fill, s, m.value))
  }

  /** The reference: a single pass from left to right, that never looks at what it has written. */
  function OnePass(tok: Token, fill: Filler, s: string): string
    decreases |s|
  {
    if s == [] then []
    else if MatchAt(tok, s, 0) then
      var j := RunEnd(tok, s, 1);
      fill(s[1..j]) + OnePass(tok, fill, s[j..])
    else [s[0]] + OnePass(tok, fill, s[1..])
  }

  /** Text in which no match starts is copied. */
  lemma {:induction false} PassCopies(tok: Token, fill: Filler, a: string, t: string)
    requires forall k :: 0 <= k < |a| ==> !MatchAt(tok, a + t, k)
    ensures OnePass(tok, fill, a + t) == a + OnePass(tok, fill, t)
    decreases |a|
  {
    if a == [] {
      assert a + t == t;
    } else {
      var s := a + t;
      assert s[1..] == a[1..] + t;
      assert forall k :: 0 <= k < |a[1..]| ==> MatchAt(tok, s[1..], k) == MatchAt(tok, s, k + 1);
      PassCopies(tok, fill, a[1..], t);
      assert !MatchAt(tok, s, 0);
    }
  }

  lemma {:induction false} RunEndShift(tok: Token, s: string, n: nat, i: nat)
    requires n + i <= |s|
    ensures RunEnd(tok, s, n + i) == n + RunEnd(tok, s[n..], i)
    decreases |s| - n - i
  {
    if n + i < |s| && tok(s[n + i]) {
      RunEndShift(tok, s, n, i + 1);
    }
  }

  /** A single pass copies what precedes the leftmost placeholder and fills that one. */
  lemma PassSplits(tok: Token, fill: Filler, s: string, i: nat)
    requires IsLeftmost(tok, s, i)
    ensures var j := RunEnd(tok, s, i + 1);
            OnePass(tok, fill, s) == s[..i] + (fill(s[i + 1..j]) + OnePass(tok, fill, s[j..]))
  {
    assert s == s[..i] + s[i..];
    PassCopies(tok, fill, s[..i], s[i..]);
    PassTakes(tok, fill, s, i);
  }

  /** A round of the loop does not change the outcome of a single pass, unless it makes a new placeholder. */
  lemma RoundKeepsPass(tok: Token, fill: Filler, s: string, i: nat)
    requires Clean(tok, fill) && IsLeftmost(tok, s, i) && !Rematches(tok, fill, s, i)
    ensures OnePass(tok, fill, Replaced(tok, fill, s, i)) == OnePass(tok, fill, s)
  {
    var j := RunEnd(tok, s, i + 1);
    var a, c, v := s[..i], s[j..], fill(s[i + 1..j]);
    PassSplits(tok, fill, s, i);
    FrontStays(tok, fill, s, i);
    var front := a + v;
    assert Replaced(tok, fill, s, i) == front + c && |front| == i + |v|;
    PassCopies(tok, fill, front, c);
    Regroup(a, v, OnePass(tok, fill, c));
  }

  lemma Regroup(a: string, b: string, c: string)
    ensures (a + b) + c == a + (b + c)
  {
  }

  /** Without a new placeholder, none starts in what is left of the remaining text. */
  lemma FrontStays(tok: Token, fill: Filler, s: string, i: nat)
    requires Clean(tok, fill) && IsLeftmost(tok, s, i) && !Rematches(tok, fill, s, i)
    ensures var v := fill(s[i + 1..RunEnd(tok, s, i + 1)]);
            forall k :: 0 <= k < i + |v| ==> !MatchAt(tok, Replaced(tok, fill, s, i), k)
  {
    var j := RunEnd(tok, s, i + 1);
    var c, v, s' := s[j..], fill(s[i + 1..j]), Replaced(tok, fill, s, i);
    assert !Placeholder(tok, v);
    forall k | 0 <= k < i + |v|
      ensures !MatchAt(tok, s', k)
    {
      if k < i {
        assert s'[k] == s[k] && !MatchAt(tok, s, k);
        assert k + 1 < i ==> s'[k + 1] == s[k + 1];
        assert k + 1 == i && v != [] ==> s'[k + 1] == v[0];
        assert k + 1 == i && v == [] && c != [] ==> s'[k + 1] == s[j];
      } else {
        assert s'[k] == v[k - i] && !MatchAt(tok, v, k - i);
        assert k + 1 < i + |v| ==> s'[k + 1] == v[k + 1 - i];
        assert k + 1 == i + |v| && c != [] ==> s'[k + 1] == s[j];
      }
    }
  }

  /** If it does make one, the single pass leaves that placeholder in its result. */
  lemma RematchShows(tok: Token, fill: Filler, s: string, i: nat)
    requires IsLeftmost(tok, s, i) && Rematches(tok, fill, s, i)
    ensures MatchAt(tok, OnePass(tok, fill, s), i - 1)
  {
    PassSplits(tok, fill, s, i);
    var v := fill(s[i + 1..RunEnd(tok, s, i + 1)]);
    var r := OnePass(tok, fill, s);
    assert s[..i][i - 1] == s[i - 1];
    assert r[i - 1] == s[i - 1] && r[i] == v[0];
  }

  /** When the loop ends no placeholder is left. */
  lemma {:induction false} NoneLeft(tok: Token, fill: Filler, s: string)
    requires Clean(tok, fill)
    ensures !Placeholder(tok, Rewritten(tok, fill, s))
    decreases Matches(tok, s), Lead(tok, s)
  {
    var m := FirstMatch(tok, s, 0);
    if m.Some? {
      RoundShrinks(tok, fill, s, m.value);
      NoneLeft(tok, fill, Replaced(tok, fill, s, m.value));
    }
  }

  /**
   * The rewriting loop is a single left-to-right substitution exactly when that
   * substitution leaves no placeholder in its result.
   */
  lemma {:induction false} OnePassExactly(tok: Token, fill: Filler, s: string)
    requires Clean(tok, fill)
    ensures Rewritten(tok, fill, s) == OnePass(tok, fill, s) <==> !Placeholder(tok, OnePass(tok, fill, s))
    decreases Matches(tok, s), Lead(tok, s)
  {
    var m := FirstMatch(tok, s, 0);
    if m.None? {
      assert s + [] == s;
      PassCopies(tok, fill, s, []);
    } else if Rematches(tok, fill, s, m.value) {
      RematchShows(tok, fill, s, m.value);
      NoneLeft(tok, fill, s);
    } else {
      RoundShrinks(tok, fill, s, m.value);
      RoundKeepsPass(tok, fill, s, m.value);
      OnePassExactly(tok, fill, Replaced(tok, fill, s, m.value));
    }
  }

  /**
   * Reading from left to right, some placeholder directly follows an emitted '%' and its
   * value starts with a token character; `after` says whether a '%' was emitted last.
   */
  predicate Collides(tok: Token, fill: Filler, s: string, after: bool)
    decreases |s|
  {
    if s == [] then false
    else if MatchAt(tok, s, 0) then
      var j := RunEnd(tok, s, 1);
      var v := fill(s[1..j]);
      (after && v != [] && tok(v[0])) || Collides(tok, fill, s[j..], if v == [] then after else v[|v| - 1] == '%')
    else Collides(tok, fill, s[1..], s[0] == '%')
  }

  function Emitted(after: bool): string { if after then "%" else "" }

  lemma MatchesOfEmitted(tok: Token, after: bool)
    ensures Matches(tok, Emitted(after)) == 0
  {
    NoMatches(tok, Emitted(after));
  }

  /** Emitting `v` behind what was emitted before: the placeholders in it, and what counts for the rest. */
  lemma EmitCounts(tok: Token, after: bool, v: string, rest: string)
    ensures var next := if v == [] then after else v[|v| - 1] == '%';
            Matches(tok, Emitted(after) + (v + rest)) ==
            Matches(tok, v) + (if Joint(tok, Emitted(after), v) then 1 else 0) + Matches(tok, Emitted(next) + rest)
  {
    var x, next := Emitted(after), if v == [] then after else v[|v| - 1] == '%';
    Regroup(x, v, rest);
    MatchesSplit(tok, x + v, rest);
    MatchesSplit(tok, x, v);
    MatchesSplit(tok, Emitted(next), rest);
    MatchesOfEmitted(tok, after);
    MatchesOfEmitted(tok, next);
    assert v != [] ==> (x + v)[|x + v| - 1] == v[|v| - 1];
    assert v == [] ==> x + v == x;
  }

  lemma {:induction false} CollidesCounts(tok: Token, fill: Filler, s: string, after: bool)
    requires Clean(tok, fill) && (after ==> s == [] || !tok(s[0]))
    ensures Matches(tok, Emitted(after) + OnePass(tok, fill, s)) > 0 <==> Collides(tok, fill, s, after)
    decreases |s|
  {
    if s == [] {
      assert Emitted(after) + [] == Emitted(after);
      MatchesOfEmitted(tok, after);
    } else if MatchAt(tok, s, 0) {
      var j := RunEnd(tok, s, 1);
      var v := fill(s[1..j]);
      var next := if v == [] then after else v[|v| - 1] == '%';
      assert !Placeholder(tok, v);
      NoMatches(tok, v);
      CollidesCounts(tok, fill, s[j..], next);
      EmitCounts(tok, after, v, OnePass(tok, fill, s[j..]));
    } else {
      CollidesCounts(tok, fill, s[1..], s[0] == '%');
      EmitCounts(tok, after, [s[0]], OnePass(tok, fill, s[1..]));
      NoMatches(tok, [s[0]]);
    }
  }

  lemma {:induction false} SomeMatch(tok: Token, s: string, i: nat)
    requires MatchAt(tok, s, i)
    ensures Matches(tok, s) > 0
  {
    if i > 0 {
      SomeMatch(tok, s[1..], i - 1);
    }
  }

  lemma PlaceholderCounts(tok: Token, s: string)
    ensures Placeholder(tok, s) <==> Matches(tok, s) > 0
  {
    if Placeholder(tok, s) {
      var i :| MatchAt(tok, s, i);
      SomeMatch(tok, s, i);
    } else {
      NoMatches(tok, s);
    }
  }

  /** So the loop is a single substitution exactly when no placeholder collides, which a caller can check. */
  lemma LoopIsPassExactly(tok: Token, fill: Filler, s: string)
    requires Clean(tok, fill)
    ensures Rewritten(tok, fill, s) == OnePass(tok, fill, s) <==> !Collides(tok, fill, s, false)
  {
    OnePassExactly(tok, fill, s);
    CollidesCounts(tok, fill, s, false);
    PlaceholderCounts(tok, OnePass(tok, fill, s));
    assert Emitted(false) + OnePass(tok, fill, s) == OnePass(tok, fill, s);
  }

  lemma PassTakes(tok: Token, fill: Filler, s: string, i: nat)
    requires MatchAt(tok, s, i)
    ensures var j := RunEnd(tok, s, i + 1);
            OnePass(tok, fill, s[i..]) == fill(s[i + 1..j]) + OnePass(tok, fill, s[j..])
  {
    var t, j := s[i..], RunEnd(tok, s, i + 1);
    RunEndShift(tok, s, i, 1);
    assert MatchAt(tok, t, 0);
    assert t[1..j - i] == s[i + 1..j] && t[j - i..] == s[j..];
  }

  /** No placeholder directly follows a '%'. */
  ghost predicate Apart(tok: Token, s: string)
  {
    forall i :: 0 < i && MatchAt(tok, s, i) ==> s[i - 1] != '%'
  }

  /** No replacement ends with '%'. */
  ghost predicate NoTrailing(fill: Filler)
  {
    forall run :: fill(run) == [] || fill(run)[|fill(run)| - 1] != '%'
  }

  /** A round that makes no new placeholder keeps the remaining ones apart from any '%'. */
  lemma ApartStays(tok: Token, fill: Filler, s: string, i: nat)
    requires Clean(tok, fill) && NoTrailing(fill) && Apart(tok, s) && IsLeftmost(tok, s, i)
    ensures !Rematches(tok, fill, s, i) && Apart(tok, Replaced(tok, fill, s, i))
  {
    var j := RunEnd(tok, s, i + 1);
    var run := s[i + 1..j];
    var v, s' := fill(run), Replaced(tok, fill, s, i);
    assert i > 0 ==> s[..i][i - 1] == s[i - 1];
    FrontStays(tok, fill, s, i);
    forall k | 0 < k && MatchAt(tok, s', k)
      ensures s'[k - 1] != '%'
    {
      assert k >= i + |v|;
      var k' := k - i - |v| + j;
      assert s'[k] == s[k'] && s'[k + 1] == s[k' + 1];
      assert MatchAt(tok, s, k');
      if k' > j {
        assert s'[k - 1] == s[k' - 1];
      } else if v != [] {
        assert s'[k - 1] == v[|v| - 1];
      } else {
        assert s'[k - 1] == s[i - 1];
      }
    }
  }

  /** So a text without such a '%' is rewritten in a single left-to-right substitution. */
  lemma {:induction false} RewritingIsOnePass(tok: Token, fill: Filler, s: string)
    requires Clean(tok, fill) && NoTrailing(fill) && Apart(tok, s)
    ensures Rewritten(tok, fill, s) == OnePass(tok, fill, s)
    decreases Matches(tok, s), Lead(tok, s)
  {
    var m := FirstMatch(tok, s, 0);
    if m.None? {
      assert s + [] == s;
      PassCopies(tok, fill, s, []);
    } else {
      RoundShrinks(tok, fill, s, m.value);
      ApartStays(tok, fill, s, m.value);
      RoundKeepsPass(tok, fill, s, m.value);
      RewritingIsOnePass(tok, fill, Replaced(tok, fill, s, m.value));
    }
  }

  // ---- Values without any '%' ----

  /** No '%' directly follows another. */
  ghost predicate NoAdjacent(s: string)
  {
    forall i :: 0 <= i < |s| - 1 ==> !(s[i] == '%' && s[i + 1] == '%')
  }

  ghost predicate PercentFree(fill: Filler) { forall run :: '%' !in fill(run) }

  lemma StaysApart(s: string, i: nat, j: nat, v: string)
    requires NoAdjacent(s) && i < j <= |s| && s[i] == '%' && '%' !in v
    ensures NoAdjacent(s[..i] + v + s[j..])
  {
    var s' := s[..i] + v + s[j..];
    var n := |v|;
    forall k | 0 <= k < |s'| - 1
      ensures !(s'[k] == '%' && s'[k + 1] == '%')
    {
      if k + 1 < i {
        assert s'[k] == s[k] && s'[k + 1] == s[k + 1];
      } else if k < i {
        assert s'[k] == s[k] && s[k + 1] == '%';
      } else if k < i + n {
        assert s'[k] == v[k - i];
      } else {
        assert s'[k] == s[k - i - n + j] && s'[k + 1] == s[k + 1 - i - n + j];
      }
    }
  }

  /** Rewriting with such values creates no adjacent '%'. */
  lemma {:induction false} NoAdjacentStays(tok: Token, fill: Filler, s: string)
    requires Clean(tok, fill) && PercentFree(fill) && NoAdjacent(s)
    ensures NoAdjacent(Rewritten(tok, fill, s))
    decreases Matches(tok, s), Lead(tok, s)
  {
    var m := FirstMatch(tok, s, 0);
    if m.Some? {
      var j := RunEnd(tok, s, m.value + 1);
      RoundShrinks(tok, fill, s, m.value);
      StaysApart(s, m.value, j, fill(s[m.value + 1..j]));
      NoAdjacentStays(tok, fill, Replaced(tok, fill, s, m.value));
    }
  }

  lemma NoAdjacentIsApart(tok: Token, s: string)
    requires NoAdjacent(s)
    ensures Apart(tok, s)
  {
    forall i | 0 < i && MatchAt(tok, s, i)
      ensures s[i - 1] != '%'
    {
      var k := i - 1;
      assert s[k + 1] == '%';
    }
  }

  // ---- The two kinds of placeholders ----

  predicate IsLetter(c: char) { 'a' <= c <= 'z' || 'A' <= c <= 'Z' }

  function Letters(): Token { IsLetter }

  function Digits(): Token { IsDigit }

  function Named(values: map<char, string>, c: char): string
  {
    if c in values && values[c] != "" then values[c] else MISSING
  }

  /** %<letters>: the value of the first letter. */
  function MapFiller(values: map<char, string>): Filler
  {
    (run: string) => if run == [] then MISSING else Named(values, run[0])
  }

  const LONG_MAX := 0x7fff_ffff_ffff_ffff
  const INT_RANGE := 0x1_0000_0000

  /** `atoi` of a digit string: saturated as a long, then cut to an int. */
  function Atoi(run: string): int
    requires forall i :: 0 <= i < |run| ==> IsDigit(run[i])
  {
    var n := Min(Value(run), LONG_MAX) % INT_RANGE;
    if n >= INT_RANGE / 2 then n - INT_RANGE else n
  }

  /** %<digits>: the capture of that number. */
  function CapFiller(captures: seq<string>): Filler
  {
    (run: string) =>
      if AllDigits(run) && 0 <= Atoi(run) < |captures| then captures[Atoi(run)] else MISSING
  }

  ghost predicate CleanValues(values: map<char, string>)
  {
    forall c :: c in values ==> !Placeholder(Letters(), values[c])
  }

  ghost predicate CleanCaptures(captures: seq<string>)
  {
    forall i :: 0 <= i < |captures| ==> !Placeholder(Digits(), captures[i])
  }

  lemma FillersClean(values: map<char, string>, captures: seq<string>)
    ensures CleanValues(values) ==> Clean(Letters(), MapFiller(values))
    ensures CleanCaptures(captures) ==> Clean(Digits(), CapFiller(captures))
  {
    assert !Placeholder(Letters(), MISSING) && !Placeholder(Digits(), MISSING);
  }

  /** A format string with the values it is filled from. */
  class Format {
    const source: string
    var captures: seq<string>
    var values: map<char, string>

    constructor (source: string)
      ensures this.source == source && captures == [] && values == map[]
    {
      this.source, captures, values := source, [], map[];
    }

    /** The value of a key; asking for a missing one leaves an empty entry behind. */
    method ValueOf(key: char) returns (value: string)
      modifies this`values
      ensures value == Named(old(values), key)
      ensures forall c :: Named(values, c) == Named(old(values), c)
    {
      if key !in values {
        values := values[key := ""];
      }
      value := if values[key] != "" then values[key] else MISSING;
    }

    /** One round of `formatMap`; `first` is the map it started with. */
    method MapRound(s: string, i: nat, ghost first: map<char, string>) returns (s': string)
      requires MatchAt(Letters(), s, i) && forall c :: Named(values, c) == Named(first, c)
      modifies this`values
      ensures s' == Replaced(Letters(), MapFiller(first), s, i)
      ensures forall c :: Named(values, c) == Named(first, c)
    {
      var j := RunEnd(Letters(), s, i + 1);
      var value := ValueOf(s[i + 1]);
      assert MapFiller(first)(s[i + 1..j]) == value;
      s' := s[..i] + value + s[j..];
    }

    method MapStep(s: string, i: nat, ghost first: map<char, string>, ghost n: nat, ghost goal: string) returns (s': string)
      requires FirstMatch(Letters(), s, 0) == Some(i) && Nears(Letters(), MapFiller(first), s, n, goal)
      requires forall c :: Named(values, c) == Named(first, c)
      modifies this`values
      ensures n > 0 && Nears(Letters(), MapFiller(first), s', n - 1, goal)
      ensures forall c :: Named(values, c) == Named(first, c)
    {
      RoundNears(Letters(), MapFiller(first), s, n, goal, i);
      s' := MapRound(s, i, first);
    }

    /** `formatMap`, whenever its loop ends: looking up a missing key leaves an empty entry in the map. */
    method FormatMap(str: string) returns (s: string)
      requires Ends(Letters(), MapFiller(values), str)
      modifies this`values
      ensures Ended(Letters(), MapFiller(old(values)), str, s)
      ensures forall c :: Named(values, c) == Named(old(values), c)
    {
      ghost var fill := MapFiller(values);
      ghost var n, goal := Begin(Letters(), fill, str);
      s := str;
      var m := FirstMatch(Letters(), s, 0);
      while m.Some?
        invariant m == FirstMatch(Letters(), s, 0)
        invariant Nears(Letters(), fill, s, n, goal)
        invariant forall c :: Named(values, c) == Named(old(values), c)
        decreases n
      {
        s := MapStep(s, m.value, old(values), n, goal);
        n := n - 1;
        m := FirstMatch(Letters(), s, 0);
      }
      AtGoal(Letters(), fill, s, n, goal);
    }

    /** `formatCap`, whenever its loop ends. */
    method FormatCap(str: string) returns (s: string)
      requires Ends(Digits(), CapFiller(captures), str)
      ensures Ended(Digits(), CapFiller(captures), str, s)
    {
      s := Rewrite(Digits(), CapFiller(captures), str);
    }

    /** The rewriting loop, for replacements that are looked up without changing anything. */
    static method Rewrite(tok: Token, fill: Filler, str: string) returns (s: string)
      requires Ends(tok, fill, str)
      ensures Ended(tok, fill, str, s)
    {
      ghost var n, goal := Begin(tok, fill, str);
      s := str;
      var m := FirstMatch(tok, s, 0);
      while m.Some?
        invariant m == FirstMatch(tok, s, 0)
        invariant Nears(tok, fill, s, n, goal)
        decreases n
      {
        var i := m.value;
        var j := RunEnd(tok, s, i + 1);
        RoundNears(tok, fill, s, n, goal, i);
        s := s[..i] + fill(s[i + 1..j]) + s[j..];
        n := n - 1;
        m := FirstMatch(tok, s, 0);
      }
      AtGoal(tok, fill, s, n, goal);
    }

    /** `format`, whenever both loops end: empty arguments leave the stored captures and values in place. */
    method DoFormat(cap: seq<string>, more: map<char, string>) returns (s: string)
      requires BothEnd(MapFiller(if more == map[] then values else more), CapFiller(if cap == [] then captures else cap), source)
      modifies this
      ensures captures == if cap == [] then old(captures) else cap
      ensures Formatted(MapFiller(if more == map[] then old(values) else more), CapFiller(captures), source, s)
      ensures forall c :: Named(values, c) == Named(if more == map[] then old(values) else more, c)
    {
      if cap != [] {
        captures := cap;
      }
      if more != map[] {
        values := more;
      }
      var mapped := FormatMap(source);
      s := FormatCap(mapped);
    }
  }

  /** Both loops end, one after the other. */
  ghost predicate BothEnd(named: Filler, numbered: Filler, source: string)
  {
    && Ends(Letters(), named, source)
    && forall mapped :: Ended(Letters(), named, source, mapped) ==> Ends(Digits(), numbered, mapped)
  }

  /** The result of both loops. */
  ghost predicate Formatted(named: Filler, numbered: Filler, source: string, s: string)
  {
    exists mapped :: Ended(Letters(), named, source, mapped) && Ended(Digits(), numbered, mapped, s)
  }

  /** Values without placeholders of their own kind make both loops end, with this result. */
  lemma CleanFormats(named: Filler, numbered: Filler, source: string)
    requires Clean(Letters(), named) && Clean(Digits(), numbered)
    ensures BothEnd(named, numbered, source)
    ensures forall s :: Formatted(named, numbered, source, s) ==>
              s == Rewritten(Digits(), numbered, Rewritten(Letters(), named, source))
  {
    var mapped := Rewritten(Letters(), named, source);
    var _ := CleanEnds(Letters(), named, source);
    forall r | Ended(Letters(), named, source, r)
      ensures r == mapped && Ends(Digits(), numbered, r)
    {
      EndedUnique(Letters(), named, source, r, mapped);
      var _ := CleanEnds(Digits(), numbered, r);
    }
    forall s | Formatted(named, numbered, source, s)
      ensures s == Rewritten(Digits(), numbered, mapped)
    {
      var r :| Ended(Letters(), named, source, r) && Ended(Digits(), numbered, r, s);
      var _ := CleanEnds(Digits(), numbered, mapped);
      EndedUnique(Digits(), numbered, mapped, s, Rewritten(Digits(), numbered, mapped));
    }
  }

  /** Under the condition below the result is that of two single substitutions. */
  lemma FormattedInTwoPasses(named: Filler, numbered: Filler, source: string, s: string)
    requires Clean(Letters(), named) && Clean(Digits(), numbered) && SinglePass(named, numbered, source)
    requires Formatted(named, numbered, source, s)
    ensures s == OnePass(Digits(), numbered, OnePass(Letters(), named, source))
  {
    CleanFormats(named, numbered, source);
    TwoPasses(named, numbered, source);
  }

  /** What a caller can check: no value ends with '%', and no placeholder follows a '%' in either pass. */
  ghost predicate SinglePass(named: Filler, numbered: Filler, source: string)
  {
    && NoTrailing(named) && NoTrailing(numbered)
    && Apart(Letters(), source) && Apart(Digits(), OnePass(Letters(), named, source))
  }

  lemma TwoPasses(named: Filler, numbered: Filler, source: string)
    requires Clean(Letters(), named) && Clean(Digits(), numbered) && SinglePass(named, numbered, source)
    ensures Rewritten(Digits(), numbered, Rewritten(Letters(), named, source)) ==
            OnePass(Digits(), numbered, OnePass(Letters(), named, source))
  {
    RewritingIsOnePass(Letters(), named, source);
    RewritingIsOnePass(Digits(), numbered, OnePass(Letters(), named, source));
  }

  /** Values without '%' and a format without adjacent '%' are enough. */
  lemma PlainFormats(named: Filler, numbered: Filler, source: string)
    requires Clean(Letters(), named) && PercentFree(named) && PercentFree(numbered) && NoAdjacent(source)
    ensures SinglePass(named, numbered, source)
  {
    NoTrailingPercent(named);
    NoTrailingPercent(numbered);
    NoAdjacentIsApart(Letters(), source);
    RewritingIsOnePass(Letters(), named, source);
    NoAdjacentStays(Letters(), named, source);
    NoAdjacentIsApart(Digits(), Rewritten(Letters(), named, source));
  }

  lemma NoTrailingPercent(fill: Filler)
    requires PercentFree(fill)
    ensures NoTrailing(fill)
  {
    forall run
      ensures fill(run) == [] || fill(run)[|fill(run)| - 1] != '%'
    {
      assert '%' !in fill(run);
    }
  }

  /**
   * Why values must not hold a placeholder: one that spells its own makes a round
   * reproduce its input, so the loop never ends.
   */
  lemma SelfReference(tok: Token, fill: Filler, s: string, i: nat)
    requires IsLeftmost(tok, s, i)
    requires var run := s[i + 1..RunEnd(tok, s, i + 1)]; fill(run) == "%" + run
    ensures Replaced(tok, fill, s, i) == s
  {
    var j := RunEnd(tok, s, i + 1);
    assert s == s[..i] + [s[i]] + s[i + 1..j] + s[j..];
  }

  /** However many rounds it makes. */
  lemma {:induction false} LoopsForever(tok: Token, fill: Filler, s: string, i: nat, n: nat)
    requires FirstMatch(tok, s, 0) == Some(i)
    requires var run := s[i + 1..RunEnd(tok, s, i + 1)]; fill(run) == "%" + run
    ensures Rounds(tok, fill, s, n) == s
  {
    if n > 0 {
      SelfReference(tok, fill, s, i);
      LoopsForever(tok, fill, s, i, n - 1);
    }
  }

  /** A log line that captures the text %0 as its first capture keeps formatCap busy for ever. */
  lemma CaptureLoops()
    ensures !Ends(Digits(), CapFiller(["%0"]), "%0")
  {
    var fill := CapFiller(["%0"]);
    assert RunEnd(Digits(), "%0", 1) == 2 && "%0"[1..2] == "0";
    assert "0"[..0] == "" && Value("0") == 0;
    assert fill("0") == "%0" == "%" + "0";
    assert FirstMatch(Digits(), "%0", 0) == Some(0);
    if Ends(Digits(), fill, "%0") {
      var r :| Ended(Digits(), fill, "%0", r);
      var n: nat :| r == Rounds(Digits(), fill, "%0", n);
      LoopsForever(Digits(), fill, "%0", 0, n);
      assert false;
    }
  }

  /** With "%%" the loop can go on with what it has just written: it is not a single pass. */
  lemma AdjacentDiffers()
    ensures var fill := MapFiller(map['a' := "b"]);
            && Clean(Letters(), fill)
            && OnePass(Letters(), fill, "%%a") == "%b"
            && Rewritten(Letters(), fill, "%%a") != "%b"
  {
    var values := map['a' := "b"];
    var fill := MapFiller(values);
    assert !Placeholder(Letters(), "b");
    FillersClean(values, []);
    assert OnePass(Letters(), fill, "%a") == "b" by {
      assert RunEnd(Letters(), "%a", 1) == 2 && "%a"[1..2] == "a" && fill("a") == "b";
      assert OnePass(Letters(), fill, "") == "";
    }
    assert "%%a"[1..] == "%a";
    assert MatchAt(Letters(), "%b", 0);
    OnePassExactly(Letters(), fill, "%%a");
  }
}
