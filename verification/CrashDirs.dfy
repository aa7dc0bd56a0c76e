/**
 * The crash directory allocator: a persistent round-robin index, and eviction of
 * the directory that used the index before by substring match on its name.
 */
module CrashDirs {
  import opened Sequences
  import opened Text

  // ---- The persistent index ----

  function SkipSpaces(s: string): string
  {
    if s != [] && IsSpace(s[0]) then SkipSpaces(s[1..]) else s
  }

  /** The longest run of digits at the front of `s`, up to `n` of them. */
  function LeadingDigits(s: string, n: nat): (d: string)
    ensures forall i :: 0 <= i < |d| ==> IsDigit(d[i])
  {
    if n > 0 && s != [] && IsDigit(s[0]) then [s[0]] + LeadingDigits(s[1..], n - 1) else []
  }

  /** `fscanf("%4u")`, with 0 when there is no number to read. */
  function Scan(s: string): nat
  {
    Value(LeadingDigits(SkipSpaces(s), 4))
  }

  function Blanks(n: nat): (s: string)
    ensures |s| == n && forall i :: 0 <= i < n ==> s[i] == ' '
  {
    if n == 0 then "" else Blanks(n - 1) + " "
  }

  /** `fprintf("%4u")`. */
  function Print(n: nat): string
  {
    var d := Decimal(n);
    if |d| >= 4 then d else Blanks(4 - |d|) + d
  }

  lemma {:induction false} SkipBlanks(k: nat, s: string)
    requires s == [] || !IsSpace(s[0])
    ensures SkipSpaces(Blanks(k) + s) == s
  {
    if k == 0 {
      assert Blanks(0) + s == s;
    } else {
      SkipBlanks(k - 1, s);
      assert (Blanks(k) + s)[1..] == Blanks(k - 1) + s;
    }
  }

  lemma {:induction false} LeadingAll(d: string, n: nat)
    requires |d| <= n && forall i :: 0 <= i < |d| ==> IsDigit(d[i])
    ensures LeadingDigits(d, n) == d
  {
    if d != [] {
      LeadingAll(d[1..], n - 1);
      assert d == [d[0]] + d[1..];
    }
  }

  /** An index below 10000 survives the file; the file then holds exactly four characters. */
  lemma ScanOfPrint(n: nat)
    requires n < 10000
    ensures |Print(n)| == 4 && Scan(Print(n)) == n
  {
    assert Power10(4) == 10000;
    DecimalLength(n, 4);
    var d := Decimal(n);
    SkipBlanks(4 - |d|, d);
    LeadingAll(d, 4);
    ValueOfDecimal(n);
    assert |d| >= 4 ==> SkipSpaces(d) == d;
  }

  /** Any text: blanks, then at most four digits count; without a digit the index is 0. */
  lemma ScanIs(k: nat, d: string, rest: string)
    requires AllDigits(d) && |d| <= 4 && (|d| < 4 && rest != [] ==> !IsDigit(rest[0]))
    requires d == [] && rest != [] ==> !IsSpace(rest[0])
    ensures Scan(Blanks(k) + (d + rest)) == Value(d)
  {
    SkipBlanks(k, d + rest);
    LeadingIs(d, rest, 4);
  }

  lemma {:induction false} LeadingIs(d: string, rest: string, n: nat)
    requires AllDigits(d) && |d| <= n && (|d| < n && rest != [] ==> !IsDigit(rest[0]))
    ensures LeadingDigits(d + rest, n) == d
  {
    if d == [] {
      assert d + rest == rest;
    } else {
      LeadingIs(d[1..], rest, n - 1);
      assert (d + rest)[1..] == d[1..] + rest && (d + rest)[0] == d[0];
      assert d == [d[0]] + d[1..];
    }
  }

  /** Printed in four columns, to the right. */
  lemma PrintExample()
    ensures Print(7) == "   7"
  {
    assert Decimal(7) == "7";
    assert Blanks(1) == " " && Blanks(2) == "  " && Blanks(3) == "   ";
  }

  lemma {:induction false} ValueBound(d: string, n: nat, bound: nat)
    requires |d| <= n && (forall i :: 0 <= i < |d| ==> IsDigit(d[i])) && bound == Power10(n)
    ensures Value(d) < bound
  {
    if d != [] {
      ValueBound(d[..|d| - 1], n - 1, Power10(n - 1));
    }
  }

  lemma {:induction false} LeadingAtMost(s: string, n: nat)
    ensures |LeadingDigits(s, n)| <= n
  {
    if n > 0 && s != [] && IsDigit(s[0]) {
      LeadingAtMost(s[1..], n - 1);
    }
  }

  /** Those are the only ones: the width of the format cuts longer numbers. */
  lemma ScanSurvives(n: nat)
    ensures Scan(Print(n)) == n <==> n < 10000
  {
    if n < 10000 {
      ScanOfPrint(n);
    } else {
      var d := LeadingDigits(SkipSpaces(Print(n)), 4);
      LeadingAtMost(SkipSpaces(Print(n)), 4);
      assert Power10(4) == 10000;
      ValueBound(d, 4, 10000);
    }
  }

  /** For instance, 10000 is read back as 1000. */
  lemma ScanCutsLongIndex()
    ensures Scan(Print(10000)) == 1000
  {
    var d := Decimal(10000);
    assert d == "10000" by {
      assert Decimal(1) == "1";
      assert Decimal(10) == "10";
      assert Decimal(100) == "100";
      assert Decimal(1000) == "1000";
    }
    assert SkipSpaces(d) == d;
    var d4 := LeadingDigits(d, 4);
    assert d4 == "1000" by {
      assert d[1..] == "0000" && d[1..][1..] == "000" && d[1..][1..][1..] == "00" && d[1..][1..][1..][1..] == "0";
      assert LeadingDigits("0", 0) == [];
      assert LeadingDigits("00", 1) == "0";
      assert LeadingDigits("000", 2) == "00";
      assert LeadingDigits("0000", 3) == "000";
    }
    assert Decimal(1000) == "1000" by {
      assert Decimal(1) == "1";
      assert Decimal(10) == "10";
      assert Decimal(100) == "100";
    }
    ValueOfDecimal(1000);
  }

  // ---- Names ----

  predicate IsHex(c: char) { IsDigit(c) || 'a' <= c <= 'f' }

  /** Event keys: printed with %02x. */
  predicate IsKey(key: string) { forall i :: 0 <= i < |key| ==> IsHex(key[i]) }

  /** "crashlog", "stats", "aplogs", "bz": no digit, and some letter no key can hold. */
  ghost predicate IsPrefix(prefix: string)
  {
    && (forall i :: 0 <= i < |prefix| ==> !IsDigit(prefix[i]))
    && (exists i :: 0 <= i < |prefix| && !IsHex(prefix[i]) && prefix[i] != '_')
  }

  function Pattern(prefix: string, index: nat): string { prefix + Decimal(index) + "_" }

  function DirName(prefix: string, index: nat, key: string): string { Pattern(prefix, index) + key }

  lemma NameExample()
    ensures DirName("crashlog", 12, "0ab3") == "crashlog12_0ab3"
  {
    assert Decimal(12) == Decimal(1) + [Digit(2)] == "12";
  }

  lemma OccurrenceIsAtFront(prefix: string, d: string, e: string, key: string, p: int)
    requires IsPrefix(prefix) && AllDigits(d) && AllDigits(e) && d != [] && e != [] && IsKey(key)
    requires OccursAt(prefix + e + "_" + key, prefix + d + "_", p)
    ensures p == 0
  {
    var name, pat, n := prefix + e + "_" + key, prefix + d + "_", |prefix|;
    assert forall k :: 0 <= k < |pat| ==> name[p + k] == name[p..p + |pat|][k] == pat[k];
    // a later occurrence inside the prefix would put a letter where the number starts,
    // one behind the prefix would put the prefix's odd letter into the number or the key
    assert IsDigit(name[n]);
    assert forall i :: n <= i < |name| ==> IsHex(name[i]) || name[i] == '_';
    var k :| 0 <= k < n && !IsHex(prefix[k]) && prefix[k] != '_';
    assert pat[k] == prefix[k];
  }

  lemma FrontOccurrenceIsExact(prefix: string, d: string, e: string, key: string)
    requires AllDigits(d) && AllDigits(e)
    requires OccursAt(prefix + e + "_" + key, prefix + d + "_", 0)
    ensures d == e
  {
    var name, pat, n := prefix + e + "_" + key, prefix + d + "_", |prefix|;
    assert forall k :: 0 <= k < |pat| ==> name[k] == name[..|pat|][k] == pat[k];
    assert pat[n + |d|] == '_' && name[n + |e|] == '_';
    assert forall k :: 0 <= k < |d| ==> d[k] == pat[n + k];
    assert forall k :: 0 <= k < |e| ==> e[k] == name[n + k];
    assert forall k :: 0 <= k < |d| && k < |e| ==> d[k] == e[k];
  }

  /** The substring match on `prefix<index>_` hits exactly the directories with that index. */
  lemma MatchIsExact(prefix: string, i: nat, j: nat, key: string)
    requires IsPrefix(prefix) && IsKey(key)
    ensures Contains(DirName(prefix, j, key), Pattern(prefix, i)) <==> i == j
  {
    var d, e := Decimal(i), Decimal(j);
    assert DirName(prefix, j, key) == prefix + e + "_" + key;
    if Contains(DirName(prefix, j, key), Pattern(prefix, i)) {
      var p :| OccursAt(DirName(prefix, j, key), Pattern(prefix, i), p);
      OccurrenceIsAtFront(prefix, d, e, key, p);
      FrontOccurrenceIsExact(prefix, d, e, key);
      DecimalInjective(i, j);
    }
    if i == j {
      assert OccursAt(DirName(prefix, j, key), Pattern(prefix, i), 0);
    }
  }

  // ---- The allocator ----

  /** The index of reservation `i` when the first one used index `first`. */
  function Slot(first: nat, max: nat, i: nat): (c: nat)
    requires first < max
    ensures c < max
  {
    if i == 0 then first else Advance(Slot(first, max, i - 1), max)
  }

  /** Indices advance by one and wrap around. */
  lemma {:induction false} SlotAhead(first: nat, max: nat, i: nat, t: nat)
    requires first < max && t <= max
    ensures var c := Slot(first, max, i); Slot(first, max, i + t) == if c + t < max then c + t else c + t - max
  {
    if t > 0 {
      SlotAhead(first, max, i, t - 1);
    }
  }

  /** Two reservations at most `max` apart share an index exactly when they are `max` apart. */
  lemma SameSlot(first: nat, max: nat, i: nat, j: nat)
    requires first < max && i < j <= i + max
    ensures Slot(first, max, i) == Slot(first, max, j) <==> j == i + max
  {
    SlotAhead(first, max, i, j - i);
  }

  /** The directories of the reservations from `lo` on, the first of all having used index `first`. */
  ghost function Live(prefix: string, max: nat, first: nat, keys: seq<string>, lo: nat): set<string>
    requires first < max
  {
    set i | lo <= i < |keys| :: DirName(prefix, Slot(first, max, i), keys[i])
  }

  /** The oldest reservation whose directory is still there. */
  function Oldest(n: nat, max: nat): nat { if n <= max then 0 else n - max }

  /** Evicting the next index removes exactly the reservation that is `max` back. */
  lemma EvictsOldest(prefix: string, max: nat, first: nat, keys: seq<string>, names: set<string>)
    requires first < max && IsPrefix(prefix) && forall i :: 0 <= i < |keys| ==> IsKey(keys[i])
    requires names == Live(prefix, max, first, keys, Oldest(|keys|, max))
    ensures (set x | x in names && !Contains(x, Pattern(prefix, Slot(first, max, |keys|)))) ==
            Live(prefix, max, first, keys, Oldest(|keys| + 1, max))
  {
    var n, lo, lo' := |keys|, Oldest(|keys|, max), Oldest(|keys| + 1, max);
    forall i | lo <= i < n
      ensures Contains(DirName(prefix, Slot(first, max, i), keys[i]), Pattern(prefix, Slot(first, max, n))) <==> i < lo'
    {
      MatchIsExact(prefix, Slot(first, max, n), Slot(first, max, i), keys[i]);
      SameSlot(first, max, i, n);
    }
    var kept := set x | x in names && !Contains(x, Pattern(prefix, Slot(first, max, n)));
    var live := Live(prefix, max, first, keys, lo');
    forall x | x in live
      ensures x in kept
    {
      var i :| lo' <= i < n && x == DirName(prefix, Slot(first, max, i), keys[i]);
    }
    forall x | x in kept
      ensures x in live
    {
      var i :| lo <= i < n && x == DirName(prefix, Slot(first, max, i), keys[i]);
    }
  }

  lemma LiveGrows(prefix: string, max: nat, first: nat, keys: seq<string>, key: string, lo: nat)
    requires first < max && lo <= |keys|
    ensures Live(prefix, max, first, keys + [key], lo) ==
            Live(prefix, max, first, keys, lo) + {DirName(prefix, Slot(first, max, |keys|), key)}
  {
    var keys' := keys + [key];
    forall x | x in Live(prefix, max, first, keys, lo)
      ensures x in Live(prefix, max, first, keys', lo)
    {
      var i :| lo <= i < |keys| && x == DirName(prefix, Slot(first, max, i), keys[i]);
      assert keys'[i] == keys[i];
    }
    assert keys'[|keys|] == key;
  }

  lemma DirNameInjective(prefix: string, i: nat, j: nat, k: string, l: string)
    requires IsPrefix(prefix) && IsKey(k) && IsKey(l)
    requires DirName(prefix, i, k) == DirName(prefix, j, l)
    ensures i == j && k == l
  {
    MatchIsExact(prefix, i, i, k);
    MatchIsExact(prefix, i, j, l);
    var n := |Pattern(prefix, i)|;
    assert DirName(prefix, i, k)[n..] == k && DirName(prefix, j, l)[n..] == l;
  }

  lemma LiveSplit(prefix: string, max: nat, first: nat, keys: seq<string>, lo: nat)
    requires first < max && lo < |keys|
    ensures Live(prefix, max, first, keys, lo) ==
            {DirName(prefix, Slot(first, max, lo), keys[lo])} + Live(prefix, max, first, keys, lo + 1)
  {
  }

  /** Reservations less than a round apart have different directories. */
  lemma LiveApart(prefix: string, max: nat, first: nat, keys: seq<string>, lo: nat)
    requires first < max && IsPrefix(prefix) && forall i :: 0 <= i < |keys| ==> IsKey(keys[i])
    requires |keys| - max <= lo < |keys|
    ensures DirName(prefix, Slot(first, max, lo), keys[lo]) !in Live(prefix, max, first, keys, lo + 1)
  {
    forall i | lo + 1 <= i < |keys|
      ensures DirName(prefix, Slot(first, max, i), keys[i]) != DirName(prefix, Slot(first, max, lo), keys[lo])
    {
      SameSlot(first, max, lo, i);
      if DirName(prefix, Slot(first, max, i), keys[i]) == DirName(prefix, Slot(first, max, lo), keys[lo]) {
        DirNameInjective(prefix, Slot(first, max, i), Slot(first, max, lo), keys[i], keys[lo]);
      }
    }
  }

  /** Exactly one directory per live reservation: at most `max` in all. */
  lemma {:induction false} LiveCount(prefix: string, max: nat, first: nat, keys: seq<string>, lo: nat)
    requires first < max && IsPrefix(prefix) && forall i :: 0 <= i < |keys| ==> IsKey(keys[i])
    requires |keys| - max <= lo <= |keys|
    ensures |Live(prefix, max, first, keys, lo)| == |keys| - lo
    decreases |keys| - lo
  {
    if lo == |keys| {
      assert Live(prefix, max, first, keys, lo) == {};
    } else {
      LiveCount(prefix, max, first, keys, lo + 1);
      LiveSplit(prefix, max, first, keys, lo);
      LiveApart(prefix, max, first, keys, lo);
    }
  }

  /** One reservation, on the whole directory: unrelated names stay. */
  lemma ReservationStep(prefix: string, max: nat, first: nat, keys: seq<string>, key: string,
                        others: set<string>, before: set<string>)
    requires first < max && IsPrefix(prefix) && forall i :: 0 <= i < |keys| ==> IsKey(keys[i])
    requires forall o, i: nat :: o in others ==> !Contains(o, Pattern(prefix, i))
    requires before == Live(prefix, max, first, keys, Oldest(|keys|, max)) + others
    ensures Replaced(prefix, Slot(first, max, |keys|), key, before) ==
            Live(prefix, max, first, keys + [key], Oldest(|keys| + 1, max)) + others
  {
    var live, pattern := Live(prefix, max, first, keys, Oldest(|keys|, max)), Pattern(prefix, Slot(first, max, |keys|));
    EvictsOldest(prefix, max, first, keys, live);
    var after := set x | x in before && !Contains(x, pattern);
    assert after == (set x | x in live && !Contains(x, pattern)) + others;
    LiveGrows(prefix, max, first, keys, key, Oldest(|keys| + 1, max));
  }

  // ---- What a reservation does ----

  /** The file with the next index, if it exists, and the names in the root directory. */
  datatype Store = Store(counter: Option<string>, dirs: set<string>)

  /** The index `read_file` hands out. */
  function Current(counter: Option<string>): nat
  {
    if counter.None? then 0 else Scan(counter.value)
  }

  /** The index stored for the next call; one beyond the limit is brought back into range. */
  function Successor(current: nat, max: nat): nat
    requires max > 0
  {
    (current + 1) % max
  }

  /** What `update_file` leaves: the successor, written over the old text without cutting it off. */
  function Updated(counter: Option<string>, max: nat): string
    requires max > 0
  {
    var was := if counter.None? then Print(0) else counter.value;
    Over(Print(Successor(Current(counter), max)), was)
  }

  function Over(text: string, was: string): string
  {
    if |text| <= |was| then text + was[|text|..] else text
  }

  /** The root directory after a reservation: the names with this index are gone, the new one is there. */
  ghost function Replaced(prefix: string, index: nat, key: string, dirs: set<string>): set<string>
  {
    (set x | x in dirs && !Contains(x, Pattern(prefix, index))) + {DirName(prefix, index, key)}
  }

  ghost function Generate(prefix: string, max: nat, s: Store, key: string): Store
    requires max > 0
  {
    Store(Some(Updated(s.counter, max)), Replaced(prefix, Current(s.counter), key, s.dirs))
  }

  /** The store after any number of reservations, across restarts of the daemon: nothing is kept in memory. */
  ghost function GenerateAll(prefix: string, max: nat, s: Store, keys: seq<string>): Store
    requires max > 0
  {
    if keys == [] then s
    else Generate(prefix, max, GenerateAll(prefix, max, s, keys[..|keys| - 1]), keys[|keys| - 1])
  }

  /** The names made by these reservations, in order. */
  ghost function Made(prefix: string, max: nat, s: Store, keys: seq<string>): seq<string>
    requires max > 0
  {
    if keys == [] then []
    else
      var n := |keys| - 1;
      Made(prefix, max, s, keys[..n]) + [DirName(prefix, Current(GenerateAll(prefix, max, s, keys[..n]).counter), keys[n])]
  }

  class Allocator {
    const prefix: string
    const maxFiles: nat
    var counter: Option<string>
    var dirs: set<string>

    ghost function State(): Store reads this { Store(counter, dirs) }

    constructor (prefix: string, maxFiles: nat, counter: Option<string>, dirs: set<string>)
      ensures this.prefix == prefix && this.maxFiles == maxFiles && State() == Store(counter, dirs)
    {
      this.prefix, this.maxFiles, this.counter, this.dirs := prefix, maxFiles, counter, dirs;
    }

    /** `read_file` then `update_file`: hands out the index and stores its successor. */
    method ReserveFolder() returns (current: nat)
      requires maxFiles > 0
      modifies this`counter
      ensures current == Current(old(counter)) && counter == Some(Updated(old(counter), maxFiles))
    {
      current := 0;
      if counter.None? {
        counter := Some(Print(0));
      } else {
        current := Scan(counter.value);
      }
      var text := Print(Successor(current, maxFiles));
      counter := Some(Over(text, counter.value));
    }

    /** `rmfr_match`: removes every entry whose name contains the pattern. */
    method RemoveMatching(pattern: string)
      modifies this`dirs
      ensures dirs == set x | x in old(dirs) && !Contains(x, pattern)
    {
      var todo := dirs;
      while todo != {}
        invariant todo <= old(dirs)
        invariant dirs == (set x | x in old(dirs) && (x in todo || !Contains(x, pattern)))
        decreases todo
      {
        var name :| name in todo;
        var hit := StrStr(name, pattern);
        if hit {
          dirs := dirs - {name};
        }
        todo := todo - {name};
      }
    }

    /** `generate_crashlog_dir`: the new directory replaces the one that used its index before. */
    method GenerateDir(key: string) returns (path: string)
      requires maxFiles > 0
      modifies this`counter, this`dirs
      ensures State() == Generate(prefix, maxFiles, old(State()), key)
      ensures path == DirName(prefix, Current(old(counter)), key)
    {
      var current := ReserveFolder();
      RemoveMatching(Pattern(prefix, current));
      path := Pattern(prefix, current) + key;
      dirs := dirs + {path};
    }
  }

  // ---- Every run with a limit the file can hold ----

  /** A store before its first reservation: no name of the allocator's own, and an index within the limit. */
  ghost predicate IsFresh(prefix: string, max: nat, s: Store)
  {
    && (forall o, i: nat :: o in s.dirs ==> !Contains(o, Pattern(prefix, i)))
    && (s.counter.Some? ==> |s.counter.value| == 4 && Scan(s.counter.value) < max)
  }

  ghost predicate AreKeys(keys: seq<string>) { forall i :: 0 <= i < |keys| ==> IsKey(keys[i]) }

  /** What the counter holds after `n` reservations. */
  ghost predicate CountsTo(counter: Option<string>, first: nat, max: nat, n: nat)
    requires first < max
  {
    (n > 0 ==> counter.Some?) && (counter.Some? ==> |counter.value| == 4) && Current(counter) == Slot(first, max, n)
  }

  lemma CounterStep(counter: Option<string>, first: nat, max: nat, n: nat)
    requires first < max <= 10000 && CountsTo(counter, first, max, n)
    ensures CountsTo(Some(Updated(counter, max)), first, max, n + 1)
  {
    var current := Current(counter);
    var next := Successor(current, max);
    NextSlot(current, max);
    ScanOfPrint(0);
    ScanOfPrint(next);
    var was := if counter.None? then Print(0) else counter.value;
    assert Print(next) + was[4..] == Print(next);
  }

  lemma NextSlot(current: nat, max: nat)
    requires current < max
    ensures Successor(current, max) == Advance(current, max)
  {
    if current + 1 < max {
      SmallMod(current + 1, max);
    }
  }

  lemma SmallMod(a: nat, b: nat)
    requires a < b
    ensures a % b == a
  {
  }

  /** The store `t` after these reservations on `s`: the counter and the directories left. */
  ghost predicate Kept(prefix: string, max: nat, s: Store, keys: seq<string>, t: Store)
  {
    var first, n := Current(s.counter), |keys|;
    && first < max && CountsTo(t.counter, first, max, n)
    && t.dirs == Live(prefix, max, first, keys, Oldest(n, max)) + s.dirs
  }

  lemma KeptStep(prefix: string, max: nat, s: Store, keys: seq<string>, key: string, t: Store)
    requires 0 < max <= 10000 && IsPrefix(prefix) && IsFresh(prefix, max, s) && AreKeys(keys)
    requires Kept(prefix, max, s, keys, t)
    ensures Kept(prefix, max, s, keys + [key], Generate(prefix, max, t, key))
  {
    var first, n := Current(s.counter), |keys|;
    CounterStep(t.counter, first, max, n);
    ReservationStep(prefix, max, first, keys, key, s.dirs, t.dirs);
  }

  lemma SplitLast<T>(s: seq<T>)
    requires s != []
    ensures s[..|s| - 1] + [s[|s| - 1]] == s
  {
  }

  lemma {:induction false} RunKeepsLast(prefix: string, max: nat, s: Store, keys: seq<string>)
    requires 0 < max <= 10000 && IsPrefix(prefix) && IsFresh(prefix, max, s) && AreKeys(keys)
    ensures Kept(prefix, max, s, keys, GenerateAll(prefix, max, s, keys))
  {
    if keys == [] {
      assert Live(prefix, max, Current(s.counter), keys, 0) == {};
    } else {
      var n := |keys| - 1;
      RunKeepsLast(prefix, max, s, keys[..n]);
      KeptStep(prefix, max, s, keys[..n], keys[n], GenerateAll(prefix, max, s, keys[..n]));
      SplitLast(keys);
    }
  }

  /** The names made by reservations that start at index `first`. */
  ghost predicate AreNames(prefix: string, max: nat, first: nat, keys: seq<string>, made: seq<string>)
    requires first < max
  {
    |made| == |keys| && forall i :: 0 <= i < |keys| ==> made[i] == DirName(prefix, Slot(first, max, i), keys[i])
  }

  lemma NamesStep(prefix: string, max: nat, first: nat, keys: seq<string>, made: seq<string>, key: string)
    requires first < max && AreNames(prefix, max, first, keys, made)
    ensures AreNames(prefix, max, first, keys + [key], made + [DirName(prefix, Slot(first, max, |keys|), key)])
  {
  }

  lemma {:induction false} MadeNames(prefix: string, max: nat, s: Store, keys: seq<string>)
    requires 0 < max <= 10000 && IsPrefix(prefix) && IsFresh(prefix, max, s) && AreKeys(keys)
    ensures Current(s.counter) < max
    ensures AreNames(prefix, max, Current(s.counter), keys, Made(prefix, max, s, keys))
  {
    if keys != [] {
      var n := |keys| - 1;
      var front, key := keys[..n], keys[n];
      MadeNames(prefix, max, s, front);
      RunKeepsLast(prefix, max, s, front);
      MadeStep(prefix, max, s, front, key);
      SplitLast(keys);
    }
  }

  lemma MadeStep(prefix: string, max: nat, s: Store, keys: seq<string>, key: string)
    requires max > 0 && Kept(prefix, max, s, keys, GenerateAll(prefix, max, s, keys))
    requires AreNames(prefix, max, Current(s.counter), keys, Made(prefix, max, s, keys))
    ensures AreNames(prefix, max, Current(s.counter), keys + [key], Made(prefix, max, s, keys + [key]))
  {
    MadeNext(prefix, max, s, keys, key);
    NamesStep(prefix, max, Current(s.counter), keys, Made(prefix, max, s, keys), key);
  }

  lemma MadeNext(prefix: string, max: nat, s: Store, keys: seq<string>, key: string)
    requires max > 0 && Kept(prefix, max, s, keys, GenerateAll(prefix, max, s, keys))
    ensures Made(prefix, max, s, keys + [key]) ==
            Made(prefix, max, s, keys) + [DirName(prefix, Slot(Current(s.counter), max, |keys|), key)]
  {
    assert (keys + [key])[..|keys|] == keys;
  }

  /** The directories are exactly those of the last `max` reservations, next to what was there before. */
  ghost predicate KeepsLast(prefix: string, max: nat, s: Store, keys: seq<string>)
    requires max > 0
  {
    GenerateAll(prefix, max, s, keys).dirs == s.dirs + (set x | x in Last(Made(prefix, max, s, keys), max))
  }

  /** The allocator's directories are those of the last reservations, one each, at most `max`. */
  lemma RoundRobin(prefix: string, max: nat, s: Store, keys: seq<string>)
    requires 0 < max <= 10000 && IsPrefix(prefix) && IsFresh(prefix, max, s) && AreKeys(keys)
    ensures KeepsLast(prefix, max, s, keys)
    ensures |GenerateAll(prefix, max, s, keys).dirs - s.dirs| == Min(|keys|, max)
  {
    var first, lo := Current(s.counter), Oldest(|keys|, max);
    RunKeepsLast(prefix, max, s, keys);
    var live := Live(prefix, max, first, keys, lo);
    MadeNames(prefix, max, s, keys);
    LiveIsLast(prefix, max, first, keys, Made(prefix, max, s, keys));
    LiveCount(prefix, max, first, keys, lo);
    LiveUnrelated(prefix, max, s, keys, lo);
    assert live + s.dirs - s.dirs == live;
  }

  lemma LiveIsLast(prefix: string, max: nat, first: nat, keys: seq<string>, made: seq<string>)
    requires first < max && AreNames(prefix, max, first, keys, made)
    ensures Live(prefix, max, first, keys, Oldest(|keys|, max)) == set x | x in Last(made, max)
  {
    var lo := Oldest(|keys|, max);
    LiveNames(prefix, max, first, keys, made, lo);
    SuffixSet(made, lo);
    assert Last(made, max) == made[lo..];
  }

  ghost function NamesFrom<T>(made: seq<T>, lo: nat): set<T> { set i | lo <= i < |made| :: made[i] }

  lemma LiveNames(prefix: string, max: nat, first: nat, keys: seq<string>, made: seq<string>, lo: nat)
    requires first < max && AreNames(prefix, max, first, keys, made)
    ensures Live(prefix, max, first, keys, lo) == NamesFrom(made, lo)
  {
    var live := Live(prefix, max, first, keys, lo);
    forall i | lo <= i < |made|
      ensures made[i] in live
    {
      assert made[i] == DirName(prefix, Slot(first, max, i), keys[i]);
    }
    forall x | x in live
      ensures x in NamesFrom(made, lo)
    {
      var i :| lo <= i < |keys| && x == DirName(prefix, Slot(first, max, i), keys[i]);
      assert x == made[i];
    }
  }

  lemma SuffixSet<T>(made: seq<T>, lo: nat)
    requires lo <= |made|
    ensures NamesFrom(made, lo) == set x | x in made[lo..]
  {
    var last := made[lo..];
    forall x | x in last
      ensures x in NamesFrom(made, lo)
    {
      var i :| 0 <= i < |last| && last[i] == x;
      assert x == made[lo + i];
    }
    forall x | x in NamesFrom(made, lo)
      ensures x in last
    {
      var i :| lo <= i < |made| && x == made[i];
      assert x == last[i - lo];
    }
  }

  lemma LiveUnrelated(prefix: string, max: nat, s: Store, keys: seq<string>, lo: nat)
    requires IsPrefix(prefix) && IsFresh(prefix, max, s) && AreKeys(keys) && Current(s.counter) < max
    ensures Live(prefix, max, Current(s.counter), keys, lo) !! s.dirs
  {
    var first := Current(s.counter);
    forall x | x in Live(prefix, max, first, keys, lo)
      ensures x !in s.dirs
    {
      var i :| lo <= i < |keys| && x == DirName(prefix, Slot(first, max, i), keys[i]);
      MatchIsExact(prefix, Slot(first, max, i), Slot(first, max, i), keys[i]);
    }
  }

  // ---- Larger limits ----

  /** The first `n` reservations of a new store, all with the same key. */
  function Plain(n: nat): (keys: seq<string>)
    ensures |keys| == n && forall i :: 0 <= i < n ==> keys[i] == ""
  {
    if n == 0 then [] else Plain(n - 1) + [""]
  }

  function Empty(): Store { Store(None, {}) }

  /** Up to index 10000 the counter is what it should be. */
  lemma {:induction false} ClimbsTo(prefix: string, max: nat, n: nat)
    requires max > 10000 && n <= 10000
    ensures var s := GenerateAll(prefix, max, Empty(), Plain(n));
            if n == 0 then s.counter.None? else s.counter == Some(Print(n))
  {
    if n > 0 {
      ClimbsTo(prefix, max, n - 1);
      var counter := GenerateAll(prefix, max, Empty(), Plain(n - 1)).counter;
      PlainNext(n);
      ScanOfPrint(n - 1);
      SmallMod(n, max);
      PrintOver(n);
    }
  }

  lemma PlainNext(n: nat)
    requires n > 0
    ensures Plain(n)[..n - 1] == Plain(n - 1) && Plain(n)[n - 1] == ""
  {
  }

  lemma PrintOver(n: nat)
    requires 0 < n <= 10000
    ensures Over(Print(n), Print(n - 1)) == Print(n)
  {
    ScanOfPrint(n - 1);
    if n < 10000 {
      ScanOfPrint(n);
    } else {
      PrintedLong();
    }
  }

  lemma PrintedLong()
    ensures |Print(10000)| == 5
  {
    assert Decimal(10) == Decimal(1) + [Digit(0)];
    assert Decimal(100) == Decimal(10) + [Digit(0)];
    assert Decimal(1000) == Decimal(100) + [Digit(0)];
    assert Decimal(10000) == Decimal(1000) + [Digit(0)];
  }

  lemma {:induction false} ClimbMakes(prefix: string, max: nat, n: nat, i: nat)
    requires max > 10000 && i < n <= 10000
    ensures |Made(prefix, max, Empty(), Plain(n))| == n && Made(prefix, max, Empty(), Plain(n))[i] == DirName(prefix, i, "")
    decreases n
  {
    PlainNext(n);
    if i < n - 1 {
      ClimbMakes(prefix, max, n - 1, i);
    } else {
      if n > 1 {
        ClimbMakes(prefix, max, n - 1, n - 2);
      }
      ClimbsTo(prefix, max, n - 1);
      ScanOfPrint(n - 1);
    }
  }

  /** With more places the reservation after index 9999 evicts index 1000, although there is room. */
  lemma EvictsTooEarly(prefix: string, max: nat) returns (keys: seq<string>)
    requires max > 10000 && IsPrefix(prefix)
    ensures AreKeys(keys) && IsFresh(prefix, max, Empty()) && |keys| <= max && !KeepsLast(prefix, max, Empty(), keys)
  {
    var plain := Plain(10000);
    keys := plain + ["a"];
    assert keys[..10000] == plain;
    var before := GenerateAll(prefix, max, Empty(), plain);
    ClimbsTo(prefix, max, 10000);
    ScanCutsLongIndex();
    ClimbMakes(prefix, max, 10000, 1000);
    EvictedName(prefix, 1000, before.dirs);
    var made := Made(prefix, max, Empty(), keys);
    assert made[1000] == DirName(prefix, 1000, "");
    assert Last(made, max) == made;
    assert DirName(prefix, 1000, "") in (set x | x in Last(made, max));
  }

  lemma EvictedName(prefix: string, index: nat, dirs: set<string>)
    requires IsPrefix(prefix)
    ensures DirName(prefix, index, "") !in Replaced(prefix, index, "a", dirs)
  {
    MatchIsExact(prefix, index, index, "");
    assert |DirName(prefix, index, "a")| == |DirName(prefix, index, "")| + 1;
  }

  /** In every run the directories are those of the last `max` reservations, exactly for limits up to 10000. */
  lemma RoundRobinExactly(prefix: string, max: nat)
    requires max > 0 && IsPrefix(prefix)
    ensures (forall s, keys :: IsFresh(prefix, max, s) && AreKeys(keys) ==> KeepsLast(prefix, max, s, keys)) <==> max <= 10000
  {
    if max <= 10000 {
      forall s, keys | IsFresh(prefix, max, s) && AreKeys(keys)
        ensures KeepsLast(prefix, max, s, keys)
      {
        RoundRobin(prefix, max, s, keys);
      }
    } else {
      var keys := EvictsTooEarly(prefix, max);
    }
  }

  /** An index beyond the limit, left by a larger limit, is used once and then brought back into range. */
  lemma BackInRange(counter: string, max: nat)
    requires 0 < max <= 10000 && |counter| == 4
    ensures |Updated(Some(counter), max)| == 4
    ensures Scan(Updated(Some(counter), max)) == Successor(Scan(counter), max) < max
  {
    var next := Successor(Scan(counter), max);
    ScanOfPrint(next);
    assert Print(next) + counter[4..] == Print(next);
  }
}
