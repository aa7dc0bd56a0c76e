/**
 * Memory error counters: an event is raised whenever a counter has grown since it
 * was last reported, also across restarts of the daemon, thanks to a backup file
 * that is printed as text and parsed back.
 */
module EccCounters {
  import opened Sequences
  import opened Text
  import opened Fgets

  // ---- Reading a counter ----

  /** What sysfs shows for a counter. */
  function SysfsText(n: nat): string { Decimal(n) + "\n" }

  /** Decimal digits up to the first other character, which must be an end of line. */
  function ReadFrom(text: string, i: nat, code: nat): nat
    requires i <= |text|
    decreases |text| - i
  {
    if i == |text| then code
    else if IsDigit(text[i]) then ReadFrom(text, i + 1, code * 10 + DigitValue(text[i]))
    else if text[i] != '\n' && text[i] != '\r' then 0
    else code
  }

  const INT_MAX: nat := 0x7fff_ffff

  /** The size of the read buffer. */
  const BUFFER: nat := 64

  function Front(text: string, n: nat): string { if |text| <= n then text else text[..n] }

  /** `check_ecc_error`: -1 without a file, else the number at the start of its first 64 characters. */
  method CheckEccError(file: Option<string>) returns (code: int)
    ensures file.None? ==> code == -1
    ensures file.Some? ==> code == ReadFrom(Front(file.value, BUFFER), 0, 0)
  {
    if file.None? {
      return -1;
    }
    var text := Front(file.value, BUFFER);
    var count := ReadCode(text);
    return count;
  }

  method ReadCode(text: string) returns (code: nat)
    ensures code == ReadFrom(text, 0, 0)
  {
    code := 0;
    var i := 0;
    while i < |text|
      invariant 0 <= i <= |text|
      invariant ReadFrom(text, i, code) == ReadFrom(text, 0, 0)
    {
      if IsDigit(text[i]) {
        code := code * 10 + DigitValue(text[i]);
      } else {
        if text[i] != '\n' && text[i] != '\r' {
          code := 0;
        }
        break;
      }
      i := i + 1;
    }
  }

  lemma {:induction false} ReadDigits(text: string, i: nat, d: string)
    requires i + |d| <= |text| && text[i..i + |d|] == d && forall k :: 0 <= k < |d| ==> IsDigit(d[k])
    ensures ReadFrom(text, i, 0) == ReadFrom(text, i + |d|, Value(d))
  {
    if d != [] {
      var n := |d| - 1;
      assert text[i..i + n] == d[..n] && text[i + n] == text[i..i + |d|][n] == d[n];
      ReadDigits(text, i, d[..n]);
    }
  }

  /** Any text: the leading digits count if they end the text or a line, anything else behind them makes it 0. */
  lemma ReadIs(d: string, rest: string)
    requires AllDigits(d) && (rest != [] ==> !IsDigit(rest[0]))
    ensures ReadFrom(d + rest, 0, 0) == if rest == [] || rest[0] == '\n' || rest[0] == '\r' then Value(d) else 0
  {
    var text := d + rest;
    assert text[0..|d|] == d;
    ReadDigits(text, 0, d);
    assert rest != [] ==> text[|d|] == rest[0];
  }

  /** Reading what sysfs shows gives the counter. */
  lemma CounterRoundTrip(n: nat)
    requires n <= INT_MAX
    ensures ReadFrom(Front(SysfsText(n), BUFFER), 0, 0) == n
  {
    var d, text := Decimal(n), SysfsText(n);
    ShortCount(n);
    assert text[0..|d|] == d;
    ReadDigits(text, 0, d);
    ValueOfDecimal(n);
  }

  lemma ShortCount(n: nat)
    requires n <= INT_MAX
    ensures |Decimal(n)| <= 10
  {
    assert Power10(5) == 100000;
    assert Power10(10) == 10_000_000_000 by {
      assert Power10(6) == 1000000 && Power10(7) == 10000000 && Power10(8) == 100000000;
      assert Power10(9) == 1000000000;
    }
    DecimalLength(n, 10);
  }

  // ---- The backup file ----

  /** One line of the backup file. */
  function BackupLine(path: string, count: nat): string { path + ":" + Decimal(count) + "\r\n" }

  /** The first position of `c` from `i` on, or the end of the text. */
  function FindFrom(text: string, c: char, i: nat): (k: nat)
    requires i <= |text|
    ensures i <= k <= |text| && (k < |text| ==> text[k] == c) && c !in text[i..k]
    decreases |text| - i
  {
    if i == |text| || text[i] == c then i
    else
      var k := FindFrom(text, c, i + 1);
      assert text[i..k] == [text[i]] + text[i + 1..k];
      k
  }

  predicate EndsCount(c: char) { c == '\0' || c == ';' || c == '\r' || c == '\n' }

  /** Where the digits of a count stop. */
  function CountEnd(text: string, i: nat): (k: nat)
    requires i <= |text|
    ensures i <= k <= |text| && forall j :: i <= j < k ==> IsDigit(text[j])
    ensures k < |text| ==> !IsDigit(text[k])
    decreases |text| - i
  {
    if i == |text| || !IsDigit(text[i]) then i else CountEnd(text, i + 1)
  }

  /** `strncmp(name, filename, n) == 0` for the `n` characters of `name`. */
  predicate NamesFile(name: string, filename: string)
  {
    |name| <= |filename| && filename[..|name|] == name
  }

  /** What the text up to the next ';' says about a file. */
  datatype Group = Nothing | Found(count: nat) | Skip(next: nat)

  function FirstGroup(line: string, i: nat, filename: string): (g: Group)
    requires i <= |line|
    ensures g.Skip? ==> i < g.next <= |line|
  {
    var colon := FindFrom(line, ':', i);
    if colon == |line| then Nothing
    else
      var named := NamesFile(line[i..colon], filename);
      var stop := if named then CountEnd(line, colon + 1) else colon;
      if named && (stop == |line| || EndsCount(line[stop])) then Found(Value(line[colon + 1..stop]))
      else
        var semi := FindFrom(line, ';', stop);
        if semi == |line| then Nothing else Skip(semi + 1)
  }

  /** The count a line gives for `filename`, looking from position `i`. */
  function LineCount(line: string, i: nat, filename: string): Option<nat>
    requires i <= |line|
    decreases |line| - i
  {
    match FirstGroup(line, i, filename)
    case Nothing => None
    case Found(n) => Some(n)
    case Skip(next) => LineCount(line, next, filename)
  }

  /** The backed-up count of `filename`: from the first line that gives one, else 0. */
  function BackupCount(file: seq<string>, filename: string): nat
  {
    if file == [] then 0
    else
      var c := LineCount(file[0], 0, filename);
      if c.Some? then c.value else BackupCount(file[1..], filename)
  }

  /** The backed-up counts of several files. */
  function BackupCounts(backup: string, names: seq<string>): (counts: seq<nat>)
    ensures |counts| == |names| && forall i :: 0 <= i < |names| ==> counts[i] == CountIn(backup, names[i])
  {
    if names == [] then [] else BackupCounts(backup, names[..|names| - 1]) + [CountIn(backup, names[|names| - 1])]
  }

  /** The digit loop of `get_backup_count`, behind the colon. */
  method ScanCount(line: string, colon: nat) returns (n: nat, ptr: nat, ignore: bool)
    requires colon < |line|
    ensures ptr == CountEnd(line, colon + 1) && n == Value(line[colon + 1..ptr])
    ensures ignore <==> ptr < |line| && !EndsCount(line[ptr])
  {
    ignore, n := false, 0;
    ptr := colon + 1;
    while ptr < |line| && !EndsCount(line[ptr]) && !ignore
      invariant colon < ptr <= |line|
      invariant forall j :: colon < j < ptr ==> IsDigit(line[j])
      invariant n == Value(line[colon + 1..ptr])
      invariant CountEnd(line, ptr) == CountEnd(line, colon + 1)
      invariant ignore ==> ptr < |line| && !IsDigit(line[ptr]) && !EndsCount(line[ptr])
      decreases |line| - ptr, !ignore
    {
      if IsDigit(line[ptr]) {
        assert line[colon + 1..ptr + 1][..ptr - colon - 1] == line[colon + 1..ptr];
        n := n * 10 + DigitValue(line[ptr]);
        ptr := ptr + 1;
      } else {
        ignore := true;
      }
    }
  }

  method ParseGroup(line: string, str: nat, filename: string) returns (g: Group)
    requires str <= |line|
    ensures g == FirstGroup(line, str, filename)
  {
    var ptr := FindFrom(line, ':', str);
    if ptr == |line| {
      return Nothing;
    }
    var ignore, n := true, 0;
    if NamesFile(line[str..ptr], filename) {
      n, ptr, ignore := ScanCount(line, ptr);
    }
    if !ignore {
      return Found(n);
    }
    var semi := FindFrom(line, ';', ptr);
    return if semi == |line| then Nothing else Skip(semi + 1);
  }

  /** The line loop of `get_backup_count`. */
  method GetLineCount(line: string, filename: string) returns (count: Option<nat>)
    ensures count == LineCount(line, 0, filename)
  {
    var str := 0;
    while true
      invariant 0 <= str <= |line|
      invariant LineCount(line, str, filename) == LineCount(line, 0, filename)
      decreases |line| - str
    {
      var g := ParseGroup(line, str, filename);
      match g
      case Nothing => return None;
      case Found(n) => return Some(n);
      case Skip(next) => str := next;
    }
  }

  /** The longest piece of the file that fits the buffer of PATHMAX + 1 + 10 characters. */
  const PIECE: nat := 522

  /** The backed-up count of a file, given the text of the backup file. */
  function CountIn(backup: string, filename: string): nat { BackupCount(Chunks(backup, PIECE), filename) }

  /** `get_backup_count`: -1 without a backup file. */
  method GetBackupCount(file: Option<string>, filename: string) returns (count: int)
    ensures file.None? ==> count == -1
    ensures file.Some? ==> count == CountIn(file.value, filename)
  {
    if file.None? {
      return -1;
    }
    var rest := file.value;
    while rest != []
      invariant CountIn(rest, filename) == CountIn(file.value, filename)
      decreases |rest|
    {
      var n := ChunkLength(rest, PIECE);
      assert Chunks(rest, PIECE)[1..] == Chunks(rest[n..], PIECE);
      var c := GetLineCount(rest[..n], filename);
      if c.Some? {
        return c.value;
      }
      rest := rest[n..];
    }
    return 0;
  }

  const MAX_PATH: nat := 256

  /** Paths as the handler builds them: no separator of the backup format, and short enough for its buffers. */
  predicate IsPath(p: string) { ':' !in p && ';' !in p && '\n' !in p && |p| < MAX_PATH }

  /** How a written line is taken apart. */
  lemma LineParts(path: string, d: string, line: string)
    requires IsPath(path) && (forall k :: 0 <= k < |d| ==> IsDigit(d[k])) && line == path + ":" + d + "\r\n"
    ensures var n := |path|;
            && n < |line| && FindFrom(line, ':', 0) == n && line[0..n] == path
            && n + 1 + |d| < |line| && CountEnd(line, n + 1) == n + 1 + |d|
            && line[n + 1..n + 1 + |d|] == d && line[n + 1 + |d|] == '\r'
            && FindFrom(line, ';', n) == |line|
  {
    var n := |path|;
    assert line[0..n] == path && line[n] == ':';
    FirstIndex(line, ':', 0, n);
    assert line[n + 1..n + 1 + |d|] == d;
    assert forall k :: n + 1 <= k < n + 1 + |d| ==> line[k] == d[k - n - 1];
    CountEndIs(line, n + 1, n + 1 + |d|);
    assert forall k :: n <= k < |line| ==> line[k] != ';';
    FirstIndex(line, ';', n, |line|);
  }

  /** A group `path:digits` that is for this file and ends well gives its count. */
  lemma GroupFound(line: string, i: nat, path: string, d: string, filename: string)
    requires i + |path| + 1 + |d| <= |line| && line[i..i + |path|] == path && ':' !in path && line[i + |path|] == ':'
    requires line[i + |path| + 1..i + |path| + 1 + |d|] == d && AllDigits(d) && NamesFile(path, filename)
    requires var k := i + |path| + 1 + |d|; k < |line| ==> line[k] in {'\0', ';', '\r', '\n'}
    ensures LineCount(line, i, filename) == Some(Value(d))
  {
    var n := i + |path|;
    FirstIndex(line, ':', i, n);
    assert forall j :: n + 1 <= j < n + 1 + |d| ==> line[j] == d[j - n - 1];
    CountEndIs(line, n + 1, n + 1 + |d|);
  }

  /** A group for another file is passed over, up to and including its ';'. */
  lemma GroupSkipped(line: string, i: nat, path: string, semi: nat, filename: string)
    requires i + |path| < semi < |line| && line[i..i + |path|] == path && ':' !in path && line[i + |path|] == ':'
    requires line[semi] == ';' && ';' !in line[i + |path|..semi] && !NamesFile(path, filename)
    ensures LineCount(line, i, filename) == LineCount(line, semi + 1, filename)
  {
    FirstIndex(line, ':', i, i + |path|);
    FirstIndex(line, ';', i + |path|, semi);
  }

  lemma {:induction false} CountEndIs(text: string, i: nat, k: nat)
    requires i <= k <= |text| && (k < |text| ==> !IsDigit(text[k])) && forall j :: i <= j < k ==> IsDigit(text[j])
    ensures CountEnd(text, i) == k
    decreases k - i
  {
    if i < k {
      CountEndIs(text, i + 1, k);
    }
  }

  /** A written line gives its count to the paths it is a prefix of, and nothing to the others. */
  lemma LineRoundTrip(path: string, count: nat, filename: string)
    requires IsPath(path)
    ensures LineCount(BackupLine(path, count), 0, filename) ==
            if NamesFile(path, filename) then Some(count) else None
  {
    var d := Decimal(count);
    ValueOfDecimal(count);
    LineParts(path, d, BackupLine(path, count));
  }

  /** A line also serves the files whose path it is only a prefix of. */
  lemma PrefixServes(path: string, more: string, count: nat)
    requires IsPath(path)
    ensures LineCount(BackupLine(path, count), 0, path + more) == Some(count)
  {
    LineRoundTrip(path, count, path + more);
  }

  lemma {:induction false} FirstIndex(text: string, c: char, i: nat, k: nat)
    requires i <= k <= |text| && c !in text[i..k] && (k < |text| ==> text[k] == c)
    ensures FindFrom(text, c, i) == k
    decreases k - i
  {
    if i < k {
      assert text[i..k][0] == text[i];
      assert text[i + 1..k] == text[i..k][1..];
      FirstIndex(text, c, i + 1, k);
    }
  }

  // ---- Whole files ----

  /** Usable paths, none of which is a prefix of another. */
  ghost predicate PrefixFree(paths: seq<string>)
  {
    && (forall i :: 0 <= i < |paths| ==> IsPath(paths[i]))
    && (forall i, j :: 0 <= i < |paths| && 0 <= j < |paths| && i != j ==> !NamesFile(paths[i], paths[j]))
  }

  lemma PrefixFreeFront(paths: seq<string>, n: nat)
    requires PrefixFree(paths) && n == |paths| - 1
    ensures PrefixFree(paths[..n])
    ensures forall j :: 0 <= j < n ==> IsPath(paths[..n][j]) && !NamesFile(paths[..n][j], paths[n])
  {
  }

  /** The counter files of a DIMM directory. */
  predicate IsCounterFile(name: string) { name == "dimm_ce_count" || name == "dimm_ue_count" }

  /**
   * The paths the handler watches are prefix-free: one can only be a prefix of another
   * if they are the same, unless a directory on the way is itself named like a counter.
   */
  lemma CounterPathsApart(dir: string, name: string, dir': string, name': string)
    requires IsCounterFile(name) && IsCounterFile(name') && !Contains(dir', "/" + name)
    requires NamesFile(dir + "/" + name, dir' + "/" + name')
    ensures dir == dir' && name == name'
  {
    SplitAtSlash(dir, name, dir', name');
  }

  /** A path that is a prefix of a directory hides its last part there. */
  lemma HiddenName(dir: string, name: string, dir': string, name': string)
    requires NamesFile(dir + "/" + name, dir' + "/" + name') && |dir'| > |dir| + |name|
    ensures Contains(dir', "/" + name)
  {
    var a, b, n := dir + "/" + name, dir' + "/" + name', |dir|;
    assert b[..|a|] == dir'[..|a|];
    assert dir'[n..|a|] == dir'[..|a|][n..] == a[n..] == "/" + name;
    assert OccursAt(dir', "/" + name, n);
  }

  /** A path is a prefix of another of the same form only by hiding its last part in a directory name. */
  lemma SplitAtSlash(dir: string, name: string, dir': string, name': string)
    requires |name| == |name'| && '/' !in name && NamesFile(dir + "/" + name, dir' + "/" + name')
    requires !Contains(dir', "/" + name)
    ensures dir == dir' && name == name'
  {
    var a, b, n := dir + "/" + name, dir' + "/" + name', |dir|;
    assert |dir'| < |a| by {
      if |dir'| >= |a| {
        HiddenName(dir, name, dir', name');
        assert false;
      }
    }
    assert b[|dir'|] == '/' && a[n + 1..] == name;
    assert n == |dir'|;
    assert dir == a[..n] && dir' == b[..n] && a == b[..|a|] == b;
    assert name' == b[n + 1..];
  }

  /** The stream written by one pass: a line for every counter that is, or was, not zero. */
  function Listing(paths: seq<string>, now: seq<nat>, before: seq<nat>): seq<string>
    requires |paths| == |now| == |before|
  {
    if paths == [] then []
    else
      var n := |paths| - 1;
      Listing(paths[..n], now[..n], before[..n]) +
      if now[n] > 0 || before[n] > 0 then [BackupLine(paths[n], now[n])] else []
  }

  /** What the last counter adds to a listing. */
  function LastLine(paths: seq<string>, now: seq<nat>, before: seq<nat>): seq<string>
    requires |paths| == |now| == |before| > 0
  {
    var n := |paths| - 1;
    if now[n] > 0 || before[n] > 0 then [BackupLine(paths[n], now[n])] else []
  }

  lemma ListingSplit(paths: seq<string>, now: seq<nat>, before: seq<nat>, rest: seq<string>)
    requires |paths| == |now| == |before| > 0
    ensures var n := |paths| - 1;
            Listing(paths, now, before) + rest ==
            Listing(paths[..n], now[..n], before[..n]) + (LastLine(paths, now, before) + rest)
  {
  }

  /** That line settles the search for its own path only. */
  lemma LastLineCount(paths: seq<string>, now: seq<nat>, before: seq<nat>, rest: seq<string>, f: string)
    requires |paths| == |now| == |before| > 0 && IsPath(paths[|paths| - 1])
    ensures var n := |paths| - 1;
            var line := LastLine(paths, now, before);
            BackupCount(line + rest, f) ==
            if line != [] && NamesFile(paths[n], f) then now[n] else BackupCount(rest, f)
  {
    var n, line := |paths| - 1, LastLine(paths, now, before);
    if line == [] {
      assert line + rest == rest;
    } else {
      LineRoundTrip(paths[n], now[n], f);
      assert (line + rest)[1..] == rest;
    }
  }

  /** Lines of other paths are passed over. */
  lemma {:induction false} ListingSkipped(paths: seq<string>, now: seq<nat>, before: seq<nat>, rest: seq<string>, f: string)
    requires |paths| == |now| == |before|
    requires forall i :: 0 <= i < |paths| ==> IsPath(paths[i]) && !NamesFile(paths[i], f)
    ensures BackupCount(Listing(paths, now, before) + rest, f) == BackupCount(rest, f)
  {
    if paths == [] {
      assert Listing(paths, now, before) + rest == rest;
    } else {
      var n := |paths| - 1;
      ListingSplit(paths, now, before, rest);
      LastLineCount(paths, now, before, rest, f);
      ListingSkipped(paths[..n], now[..n], before[..n], LastLine(paths, now, before) + rest, f);
    }
  }

  /** Parsing back what a pass wrote gives every counter its value. */
  lemma {:induction false} ListingRoundTrip(paths: seq<string>, now: seq<nat>, before: seq<nat>, rest: seq<string>, i: nat)
    requires |paths| == |now| == |before| && PrefixFree(paths) && i < |paths|
    requires BackupCount(rest, paths[i]) == 0
    ensures BackupCount(Listing(paths, now, before) + rest, paths[i]) == now[i]
  {
    var n := |paths| - 1;
    var tail := LastLine(paths, now, before) + rest;
    ListingSplit(paths, now, before, rest);
    LastLineCount(paths, now, before, rest, paths[i]);
    PrefixFreeFront(paths, n);
    if i == n {
      ListingSkipped(paths[..n], now[..n], before[..n], tail, paths[i]);
    } else {
      ListingRoundTrip(paths[..n], now[..n], before[..n], tail, i);
    }
  }

  /** The line of a counter that is, or was, not zero. */
  ghost predicate IsListed(paths: seq<string>, now: seq<nat>, before: seq<nat>, line: string, i: int)
    requires |paths| == |now| == |before|
  {
    0 <= i < |paths| && (now[i] > 0 || before[i] > 0) && line == paths[i] + ":" + Decimal(now[i]) + "\r\n"
  }

  /** Exactly the counters that are, or were, not zero are listed, with their values. */
  lemma {:induction false} ListedExactly(paths: seq<string>, now: seq<nat>, before: seq<nat>, line: string)
    requires |paths| == |now| == |before|
    ensures line in Listing(paths, now, before) <==> exists i :: IsListed(paths, now, before, line, i)
  {
    if paths != [] {
      var n := |paths| - 1;
      ListedExactly(paths[..n], now[..n], before[..n], line);
      forall i | 0 <= i < n
        ensures IsListed(paths[..n], now[..n], before[..n], line, i) == IsListed(paths, now, before, line, i)
      {
      }
      assert IsListed(paths, now, before, line, n) <==>
             line in (if now[n] > 0 || before[n] > 0 then [BackupLine(paths[n], now[n])] else []);
      if exists i :: IsListed(paths[..n], now[..n], before[..n], line, i) {
        var i :| IsListed(paths[..n], now[..n], before[..n], line, i);
        assert IsListed(paths, now, before, line, i);
      }
    }
  }

  lemma {:induction false} EmptyListing(paths: seq<string>, now: seq<nat>, before: seq<nat>, i: nat)
    requires |paths| == |now| == |before| && i < |paths| && Listing(paths, now, before) == []
    ensures now[i] == 0 && before[i] == 0
  {
    var n := |paths| - 1;
    if i < n {
      EmptyListing(paths[..n], now[..n], before[..n], i);
    }
  }

  ghost predicate AreCounts(now: seq<nat>) { forall i :: 0 <= i < |now| ==> now[i] <= INT_MAX }

  lemma BackupLineFits(path: string, count: nat)
    requires IsPath(path) && count <= INT_MAX
    ensures IsFileLine(BackupLine(path, count), PIECE)
  {
    ShortCount(count);
    var line := BackupLine(path, count);
    assert line[..|line| - 1] == path + ":" + Decimal(count) + "\r";
  }

  lemma {:induction false} ListingFits(paths: seq<string>, now: seq<nat>, before: seq<nat>)
    requires |paths| == |now| == |before| && AreCounts(now) && forall i :: 0 <= i < |paths| ==> IsPath(paths[i])
    ensures forall k :: 0 <= k < |Listing(paths, now, before)| ==> IsFileLine(Listing(paths, now, before)[k], PIECE)
  {
    if paths != [] {
      var n := |paths| - 1;
      ListingFits(paths[..n], now[..n], before[..n]);
      BackupLineFits(paths[n], now[n]);
    }
  }

  /** Parsing back the file a pass wrote gives every counter its value. */
  lemma StreamRoundTrip(paths: seq<string>, now: seq<nat>, before: seq<nat>, i: nat)
    requires |paths| == |now| == |before| && PrefixFree(paths) && AreCounts(now) && i < |paths|
    ensures CountIn(Concat(Listing(paths, now, before)), paths[i]) == now[i]
  {
    var lines := Listing(paths, now, before);
    ListingFits(paths, now, before);
    LinesReadBack(lines, PIECE);
    ListingRoundTrip(paths, now, before, [], i);
    assert lines + [] == lines;
  }

  // ---- Reports ----

  datatype Report = Report(path: string, count: nat)

  /** The events of one pass: the counters that have grown, with their values. */
  function Raised(paths: seq<string>, before: seq<nat>, now: seq<nat>): seq<Report>
    requires |paths| == |before| == |now|
  {
    if paths == [] then []
    else
      var n := |paths| - 1;
      Raised(paths[..n], before[..n], now[..n]) + if now[n] > before[n] then [Report(paths[n], now[n])] else []
  }

  /** The values reported for one path, in order. */
  function Values(events: seq<Report>, path: string): seq<nat>
  {
    if events == [] then []
    else
      var n := |events| - 1;
      Values(events[..n], path) + if events[n].path == path then [events[n].count] else []
  }

  lemma {:induction false} ValuesSplit(a: seq<Report>, b: seq<Report>, path: string)
    ensures Values(a + b, path) == Values(a, path) + Values(b, path)
    decreases |b|
  {
    if b == [] {
      assert a + b == a;
    } else {
      var n := |b| - 1;
      ValuesSplit(a, b[..n], path);
      assert (a + b)[..|a + b| - 1] == a + b[..n];
    }
  }

  lemma {:induction false} NoneRaised(paths: seq<string>, before: seq<nat>, now: seq<nat>, path: string)
    requires |paths| == |before| == |now| && path !in paths
    ensures Values(Raised(paths, before, now), path) == []
  {
    if paths != [] {
      var n := |paths| - 1;
      NoneRaised(paths[..n], before[..n], now[..n], path);
      ValuesSplit(Raised(paths[..n], before[..n], now[..n]),
                  if now[n] > before[n] then [Report(paths[n], now[n])] else [], path);
    }
  }

  /** The last counter of a pass, whose path occurs nowhere before. */
  lemma LastRaised(paths: seq<string>, before: seq<nat>, now: seq<nat>, n: nat)
    requires |paths| == |before| == |now| == n + 1 && paths[n] !in paths[..n]
    ensures Values(Raised(paths, before, now), paths[n]) == if now[n] > before[n] then [now[n]] else []
  {
    NoneRaised(paths[..n], before[..n], now[..n], paths[n]);
    ValuesSplit(Raised(paths[..n], before[..n], now[..n]),
                if now[n] > before[n] then [Report(paths[n], now[n])] else [], paths[n]);
  }

  /** The last counter of a pass says nothing about other paths. */
  lemma OthersRaised(paths: seq<string>, before: seq<nat>, now: seq<nat>, n: nat, path: string)
    requires |paths| == |before| == |now| == n + 1 && paths[n] != path
    ensures Values(Raised(paths, before, now), path) == Values(Raised(paths[..n], before[..n], now[..n]), path)
  {
    ValuesSplit(Raised(paths[..n], before[..n], now[..n]),
                if now[n] > before[n] then [Report(paths[n], now[n])] else [], path);
  }

  lemma PathsDiffer(paths: seq<string>, i: nat, j: nat)
    requires PrefixFree(paths) && i < |paths| && j < |paths| && i != j
    ensures paths[i] != paths[j]
  {
    assert !NamesFile(paths[i], paths[j]);
  }

  /** A pass reports each counter at most once, exactly when it has grown. */
  lemma {:induction false} RaisedOnce(paths: seq<string>, before: seq<nat>, now: seq<nat>, i: nat)
    requires |paths| == |before| == |now| && PrefixFree(paths) && i < |paths|
    ensures Values(Raised(paths, before, now), paths[i]) == if now[i] > before[i] then [now[i]] else []
  {
    var n := |paths| - 1;
    if i == n {
      forall j | 0 <= j < n
        ensures paths[j] != paths[n]
      {
        PathsDiffer(paths, j, n);
      }
      LastRaised(paths, before, now, n);
    } else {
      PathsDiffer(paths, n, i);
      OthersRaised(paths, before, now, n, paths[i]);
      RaisedOnce(paths[..n], before[..n], now[..n], i);
    }
  }

  /** The value last reported for a path, 0 if there was none. */
  function Newest(values: seq<nat>): nat { if values == [] then 0 else values[|values| - 1] }

  ghost predicate Increasing(values: seq<nat>)
  {
    forall i, j :: 0 <= i < j < |values| ==> values[i] < values[j]
  }

  /** The backup file tells, for every path, what was reported last; no value was reported twice. */
  ghost predicate Told(paths: seq<string>, backup: string, events: seq<Report>)
  {
    forall i :: 0 <= i < |paths| ==>
      && CountIn(backup, paths[i]) == Newest(Values(events, paths[i]))
      && Increasing(Values(events, paths[i]))
  }

  /** The counters have not gone back since they were last reported. */
  ghost predicate NotDecreased(paths: seq<string>, now: seq<nat>, events: seq<Report>)
  {
    && |now| == |paths|
    && forall i :: 0 <= i < |paths| ==> now[i] >= Newest(Values(events, paths[i]))
  }

  /** What a pass does to the values reported for one path. */
  lemma PassValues(paths: seq<string>, before: seq<nat>, now: seq<nat>, events: seq<Report>, i: nat)
    requires |paths| == |before| == |now| && PrefixFree(paths) && i < |paths|
    requires Increasing(Values(events, paths[i])) && before[i] == Newest(Values(events, paths[i])) <= now[i]
    ensures var values := Values(events + Raised(paths, before, now), paths[i]);
            && values == Values(events, paths[i]) + (if now[i] > before[i] then [now[i]] else [])
            && Increasing(values) && Newest(values) == now[i]
  {
    ValuesSplit(events, Raised(paths, before, now), paths[i]);
    RaisedOnce(paths, before, now, i);
    IncreasingPush(Values(events, paths[i]), now[i]);
  }

  lemma IncreasingPush(values: seq<nat>, x: nat)
    requires Increasing(values) && Newest(values) <= x
    ensures var more := values + (if x > Newest(values) then [x] else []); Increasing(more) && Newest(more) == x
  {
    assert forall k :: 0 <= k < |values| ==> values[k] <= Newest(values);
  }

  /** The watch list of one daemon run, its backup file, and the events raised so far. */
  class EccHandler {
    const paths: seq<string>
    /** The count of each entry of the list. */
    var counts: seq<nat>
    /** The text of the backup file. */
    var backup: string
    var events: seq<Report>

    /** In memory, on file and in the reports every counter has the same value. */
    ghost predicate Valid()
      reads this
    {
      && PrefixFree(paths)
      && Told(paths, backup, events)
      && |counts| == |paths|
      && forall i :: 0 <= i < |paths| ==> counts[i] == Newest(Values(events, paths[i]))
    }

    /** `init_ecc_handler`: the list with the counts read from sysfs. */
    constructor (paths: seq<string>, backup: string, events: seq<Report>, now: seq<nat>)
      requires |now| == |paths| && AreCounts(now)
      ensures this.paths == paths && this.backup == backup && this.events == events && counts == now
    {
      this.paths, this.backup, this.events := paths, backup, events;
      var read: seq<nat> := [];
      for i := 0 to |paths|
        invariant read == now[..i]
      {
        CounterRoundTrip(now[i]);
        var code := CheckEccError(Some(SysfsText(now[i])));
        read := read + [code];
      }
      counts := read;
    }

    /** One entry of `restore_count`. */
    method RestoreOne(i: nat, stream: string) returns (stream': string)
      requires i < |paths| == |counts|
      modifies this`events
      ensures var b := CountIn(backup, paths[i]);
              && stream' == stream + (if counts[i] > 0 || b > 0 then BackupLine(paths[i], counts[i]) else "")
              && events == old(events) + (if counts[i] > b then [Report(paths[i], counts[i])] else [])
    {
      stream' := stream;
      var count := GetBackupCount(Some(backup), paths[i]);
      if counts[i] > 0 || count > 0 {
        stream' := stream + BackupLine(paths[i], counts[i]);
        if count < counts[i] {
          events := events + [Report(paths[i], counts[i])];
        }
      }
    }

    /** What the loop of `restore_count` has done when it reaches entry `i`. */
    ghost predicate Restored(i: nat, before: seq<nat>, stream: string, raised: seq<Report>)
      reads this
      requires i <= |paths| == |before| == |counts|
    {
      && stream == Concat(Listing(paths[..i], counts[..i], before[..i]))
      && raised == Raised(paths[..i], before[..i], counts[..i])
    }

    method RestoreNext(i: nat, stream: string, ghost before: seq<nat>, ghost raised: seq<Report>)
      returns (stream': string, ghost raised': seq<Report>)
      requires i < |paths| == |counts| && before == BackupCounts(backup, paths) && Restored(i, before, stream, raised)
      modifies this`events
      ensures Restored(i + 1, before, stream', raised')
      ensures |raised'| >= |raised| && raised'[..|raised|] == raised && events == old(events) + raised'[|raised|..]
    {
      ListOne(paths, counts, before, i);
      RaiseOne(paths, counts, before, i);
      stream' := RestoreOne(i, stream);
      raised' := raised + if counts[i] > before[i] then [Report(paths[i], counts[i])] else [];
    }

    /** `restore_count`. */
    method RestoreCount()
      requires |counts| == |paths|
      modifies this`backup, this`events
      ensures events == old(events) + Raised(paths, BackupCounts(old(backup), paths), counts)
      ensures var lines := Listing(paths, counts, BackupCounts(old(backup), paths));
              backup == if lines == [] then old(backup) else Concat(lines)
    {
      ghost var before, raised: seq<Report> := BackupCounts(backup, paths), [];
      var stream := "";
      for i := 0 to |paths|
        invariant backup == old(backup)
        invariant Restored(i, before, stream, raised)
        invariant events == old(events) + raised
      {
        stream, raised := RestoreNext(i, stream, before, raised);
      }
      TakeAll(paths, counts, before);
      SomethingListed(paths, counts, before);
      if stream != "" {
        backup := stream;
      }
    }

    /** One entry of `ecc_count_handle`, whose counter stands at `n`. */
    method HandleOne(i: nat, n: nat, stream: string) returns (stream': string, raised: bool)
      requires i < |paths| == |counts| && n <= INT_MAX
      modifies this`events, this`counts
      ensures raised <==> n > old(counts)[i]
      ensures stream' == stream + (if n > 0 then BackupLine(paths[i], n) else "")
      ensures events == old(events) + (if raised then [Report(paths[i], n)] else [])
      ensures counts == if raised then old(counts)[i := n] else old(counts)
    {
      stream', raised := stream, false;
      CounterRoundTrip(n);
      var errorCount := CheckEccError(Some(SysfsText(n)));
      if errorCount > 0 {
        stream' := stream + BackupLine(paths[i], errorCount);
        if errorCount > counts[i] {
          counts := counts[i := errorCount];
          events := events + [Report(paths[i], errorCount)];
          raised := true;
        }
      }
    }

    /** What the loop of `ecc_count_handle` has done when it reaches entry `i`. */
    ghost predicate Handled(i: nat, before: seq<nat>, now: seq<nat>, stream: string, raised: seq<Report>)
      reads this
      requires i <= |paths| == |before| == |now|
    {
      && |counts| == |paths|
      && stream == Concat(Listing(paths[..i], now[..i], now[..i]))
      && raised == Raised(paths[..i], before[..i], now[..i])
      && (raised != [] ==> stream != "")
      && forall k :: 0 <= k < |paths| ==> counts[k] == if k < i && now[k] > before[k] then now[k] else before[k]
    }

    /** One round of the loop. */
    method HandleNext(i: nat, n: nat, stream: string, ghost before: seq<nat>, ghost now: seq<nat>, ghost raised: seq<Report>)
      returns (stream': string, hit: bool)
      requires i < |paths| == |before| == |now| && n == now[i] <= INT_MAX && Handled(i, before, now, stream, raised)
      modifies this`events, this`counts
      ensures Handled(i + 1, before, now, stream', raised + if hit then [Report(paths[i], n)] else [])
      ensures events == old(events) + if hit then [Report(paths[i], n)] else []
    {
      ListOne(paths, now, now, i);
      RaiseOne(paths, now, before, i);
      stream', hit := HandleOne(i, n, stream);
    }

    /** The loop over all entries. */
    method HandleAll(now: seq<nat>) returns (stream: string, update: bool)
      requires |counts| == |paths| == |now| && AreCounts(now)
      modifies this`events, this`counts
      ensures Handled(|paths|, old(counts), now, stream, Raised(paths, old(counts), now))
      ensures events == old(events) + Raised(paths, old(counts), now)
      ensures update <==> Raised(paths, old(counts), now) != []
    {
      ghost var before, raised: seq<Report> := counts, [];
      stream, update := "", false;
      for i := 0 to |paths|
        invariant Handled(i, before, now, stream, raised)
        invariant events == old(events) + raised
        invariant update <==> raised != []
      {
        var hit;
        stream, hit := HandleNext(i, now[i], stream, before, now, raised);
        raised := raised + if hit then [Report(paths[i], now[i])] else [];
        update := update || hit;
      }
      TakeAll(paths, now, before);
    }

    /** `ecc_count_handle`. */
    method CountHandle(now: seq<nat>)
      requires |counts| == |paths| == |now| && AreCounts(now)
      modifies this`backup, this`events, this`counts
      ensures events == old(events) + Raised(paths, old(counts), now)
      ensures |counts| == |paths|
      ensures forall i :: 0 <= i < |paths| ==> counts[i] == if now[i] > old(counts[i]) then now[i] else old(counts[i])
      ensures backup == if Raised(paths, old(counts), now) == [] then old(backup) else Concat(Listing(paths, now, now))
    {
      ghost var before := counts;
      var stream, update := HandleAll(now);
      TakeAll(paths, now, before);
      if update && stream != "" {
        backup := stream;
      }
    }
  }

  /** The stream grows by the line of one more counter. */
  lemma ListOne(paths: seq<string>, now: seq<nat>, before: seq<nat>, i: nat)
    requires |paths| == |now| == |before| && i < |paths|
    ensures Concat(Listing(paths[..i + 1], now[..i + 1], before[..i + 1])) ==
            Concat(Listing(paths[..i], now[..i], before[..i])) +
            if now[i] > 0 || before[i] > 0 then BackupLine(paths[i], now[i]) else ""
  {
    assert paths[..i + 1][..i] == paths[..i] && now[..i + 1][..i] == now[..i] && before[..i + 1][..i] == before[..i];
    var lines, line := Listing(paths[..i], now[..i], before[..i]), BackupLine(paths[i], now[i]);
    if now[i] > 0 || before[i] > 0 {
      ConcatAppend(lines, line);
    } else {
      assert lines + [] == lines && Concat(lines) + "" == Concat(lines);
    }
  }

  lemma RaiseOne(paths: seq<string>, now: seq<nat>, before: seq<nat>, i: nat)
    requires |paths| == |now| == |before| && i < |paths|
    ensures Raised(paths[..i + 1], before[..i + 1], now[..i + 1]) ==
            Raised(paths[..i], before[..i], now[..i]) + if now[i] > before[i] then [Report(paths[i], now[i])] else []
  {
    assert paths[..i + 1][..i] == paths[..i] && now[..i + 1][..i] == now[..i] && before[..i + 1][..i] == before[..i];
  }

  lemma TakeAll(paths: seq<string>, now: seq<nat>, before: seq<nat>)
    requires |paths| == |now| == |before|
    ensures paths[..|paths|] == paths && now[..|paths|] == now && before[..|paths|] == before
  {
  }

  /** The stream is empty exactly when no counter is listed. */
  lemma SomethingListed(paths: seq<string>, now: seq<nat>, before: seq<nat>)
    requires |paths| == |now| == |before|
    ensures Concat(Listing(paths, now, before)) == "" <==> Listing(paths, now, before) == []
  {
    LastNotEmpty(paths, now, before);
  }

  lemma {:induction false} LastNotEmpty(paths: seq<string>, now: seq<nat>, before: seq<nat>)
    requires |paths| == |now| == |before|
    ensures var lines := Listing(paths, now, before); lines == [] || lines[|lines| - 1] != ""
  {
    if paths != [] {
      var n := |paths| - 1;
      LastNotEmpty(paths[..n], now[..n], before[..n]);
      assert BackupLine(paths[n], now[n])[|paths[n]|] == ':';
    }
  }

  /**
   * A daemon start, after any number of earlier runs: every counter that has grown
   * since it was last reported raises one event with its value, no other does, and
   * the file then parses back to the counts in memory.
   */
  method StartDaemon(paths: seq<string>, backup: string, events: seq<Report>, now: seq<nat>)
    returns (h: EccHandler)
    requires PrefixFree(paths) && Told(paths, backup, events) && NotDecreased(paths, now, events) && AreCounts(now)
    ensures fresh(h) && h.Valid() && h.paths == paths && h.counts == now
    ensures forall i :: 0 <= i < |paths| ==>
              Values(h.events, paths[i]) ==
              Values(events, paths[i]) + if now[i] > Newest(Values(events, paths[i])) then [now[i]] else []
  {
    h := new EccHandler(paths, backup, events, now);
    ghost var before := BackupCounts(h.backup, paths);
    h.RestoreCount();
    forall i | 0 <= i < |paths|
      ensures CountIn(h.backup, paths[i]) == now[i]
    {
      if Listing(paths, now, before) == [] {
        EmptyListing(paths, now, before, i);
      } else {
        StreamRoundTrip(paths, now, before, i);
      }
    }
    forall i | 0 <= i < |paths|
      ensures var values := Values(h.events, paths[i]);
              && values == Values(events, paths[i]) + (if now[i] > Newest(Values(events, paths[i])) then [now[i]] else [])
              && Increasing(values) && Newest(values) == now[i]
    {
      PassValues(paths, before, now, events, i);
    }
  }

  /** A later pass of the running daemon keeps the same promise. */
  method Pass(h: EccHandler, now: seq<nat>)
    requires h.Valid() && NotDecreased(h.paths, now, h.events) && AreCounts(now)
    modifies h
    ensures h.Valid() && h.counts == now
    ensures forall i :: 0 <= i < |h.paths| ==>
              Values(h.events, h.paths[i]) ==
              old(Values(h.events, h.paths[i])) + if now[i] > old(Newest(Values(h.events, h.paths[i]))) then [now[i]] else []
  {
    ghost var before, file, reported := h.counts, h.backup, h.events;
    h.CountHandle(now);
    assert h.counts == now;
    forall i | 0 <= i < |h.paths|
      ensures CountIn(h.backup, h.paths[i]) == now[i]
    {
      if Raised(h.paths, before, now) == [] {
        RaisedOnce(h.paths, before, now, i);
      } else {
        StreamRoundTrip(h.paths, now, now, i);
      }
    }
    forall i | 0 <= i < |h.paths|
      ensures var values := Values(h.events, h.paths[i]);
              && values == Values(reported, h.paths[i]) + (if now[i] > before[i] then [now[i]] else [])
              && Increasing(values) && Newest(values) == now[i]
    {
      PassValues(h.paths, before, now, reported, i);
    }
  }

  // ---- Any number of runs ----

  /** The readings of a counter that are larger than the one before; the first is compared with `last`. */
  function Rises(last: nat, readings: seq<seq<nat>>, i: nat): seq<nat>
    requires forall k :: 0 <= k < |readings| ==> i < |readings[k]|
  {
    if readings == [] then []
    else
      var n := |readings| - 1;
      Rises(last, readings[..n], i) + if readings[n][i] > Latest(last, readings[..n], i) then [readings[n][i]] else []
  }

  function Latest(last: nat, readings: seq<seq<nat>>, i: nat): nat
    requires forall k :: 0 <= k < |readings| ==> i < |readings[k]|
  {
    if readings == [] then last else readings[|readings| - 1][i]
  }

  /** Counter `i` has not gone back with reading `k`. */
  ghost predicate NotBack(readings: seq<seq<nat>>, last: nat, k: nat, i: nat)
    requires k < |readings| && forall j :: 0 <= j <= k ==> i < |readings[j]|
  {
    readings[k][i] >= if k == 0 then last else readings[k - 1][i]
  }

  /** Every reading covers all counters, and no counter ever goes back. */
  ghost predicate Climbing(paths: seq<string>, readings: seq<seq<nat>>, events: seq<Report>)
  {
    && (forall k :: 0 <= k < |readings| ==> AreCounts(readings[k]) && |readings[k]| == |paths|)
    && (forall k, i :: 0 <= k < |readings| && 0 <= i < |paths| ==>
          NotBack(readings, Newest(Values(events, paths[i])), k, i))
  }

  /** Of counter `i` exactly the rises were reported, on top of what was there before. */
  ghost predicate RisesTold(path: string, events: seq<Report>, readings: seq<seq<nat>>, now: seq<Report>, i: nat)
    requires forall k :: 0 <= k < |readings| ==> i < |readings[k]|
  {
    var last := Newest(Values(events, path));
    && Values(now, path) == Values(events, path) + Rises(last, readings, i)
    && Newest(Values(now, path)) == Latest(last, readings, i)
  }

  ghost predicate Reported(paths: seq<string>, events: seq<Report>, readings: seq<seq<nat>>, now: seq<Report>)
    requires forall k :: 0 <= k < |readings| ==> |readings[k]| == |paths|
  {
    forall i :: 0 <= i < |paths| ==> RisesTold(paths[i], events, readings, now, i)
  }

  /** One more reading of counter `i`. */
  lemma RisesNext(path: string, events: seq<Report>, readings: seq<seq<nat>>, now: seq<Report>, i: nat,
                  next: seq<nat>, now': seq<Report>)
    requires i < |next| && forall k :: 0 <= k < |readings| ==> i < |readings[k]|
    requires RisesTold(path, events, readings, now, i)
    requires Values(now', path) == Values(now, path) + (if next[i] > Newest(Values(now, path)) then [next[i]] else [])
    requires Newest(Values(now', path)) == next[i]
    ensures RisesTold(path, events, readings + [next], now', i)
  {
    var more := readings + [next];
    assert more[..|more| - 1] == readings;
  }

  lemma ReportedNext(paths: seq<string>, events: seq<Report>, readings: seq<seq<nat>>, now: seq<Report>,
                     next: seq<nat>, now': seq<Report>)
    requires forall k :: 0 <= k < |readings| ==> |readings[k]| == |paths|
    requires |next| == |paths| && Reported(paths, events, readings, now)
    requires forall i :: 0 <= i < |paths| ==>
               && Values(now', paths[i]) ==
                  Values(now, paths[i]) + (if next[i] > Newest(Values(now, paths[i])) then [next[i]] else [])
               && Newest(Values(now', paths[i])) == next[i]
    ensures Reported(paths, events, readings + [next], now')
  {
    forall i | 0 <= i < |paths|
      ensures RisesTold(paths[i], events, readings + [next], now', i)
    {
      RisesNext(paths[i], events, readings, now, i, next, now');
    }
  }

  /** The next reading is no smaller than what was reported last. */
  lemma ClimbingNext(paths: seq<string>, events: seq<Report>, readings: seq<seq<nat>>, k: nat, now: seq<Report>)
    requires Climbing(paths, readings, events) && k < |readings| && Reported(paths, events, readings[..k], now)
    ensures NotDecreased(paths, readings[k], now)
  {
    forall i | 0 <= i < |paths|
      ensures readings[k][i] >= Newest(Values(now, paths[i]))
    {
      assert RisesTold(paths[i], events, readings[..k], now, i);
      assert NotBack(readings, Newest(Values(events, paths[i])), k, i);
    }
  }

  /** Every value reported is new and larger than all before it. */
  lemma {:induction false} RisesIncrease(last: nat, readings: seq<seq<nat>>, i: nat)
    requires forall k :: 0 <= k < |readings| ==> i < |readings[k]|
    requires forall k :: 0 <= k < |readings| ==> NotBack(readings, last, k, i)
    ensures Increasing(Rises(last, readings, i)) && last <= Latest(last, readings, i)
    ensures forall x :: x in Rises(last, readings, i) ==> last < x <= Latest(last, readings, i)
  {
    if readings != [] {
      var n := |readings| - 1;
      var front := readings[..n];
      forall k | 0 <= k < n
        ensures NotBack(front, last, k, i)
      {
        assert NotBack(readings, last, k, i);
      }
      RisesIncrease(last, front, i);
      assert NotBack(readings, last, n, i);
      RisePushed(Rises(last, front, i), last, Latest(last, front, i), readings[n][i]);
    }
  }

  predicate Seen(rises: seq<nat>, last: nat, x: nat) { x == last || x in rises }

  /** Every new value that a counter was seen at is reported. */
  lemma {:induction false} RisesComplete(last: nat, readings: seq<seq<nat>>, i: nat, k: nat)
    requires k < |readings| && forall j :: 0 <= j < |readings| ==> i < |readings[j]|
    requires forall j :: 0 <= j < |readings| ==> NotBack(readings, last, j, i)
    ensures Seen(Rises(last, readings, i), last, readings[k][i])
  {
    var n := |readings| - 1;
    var front := readings[..n];
    forall j | 0 <= j < n
      ensures NotBack(front, last, j, i)
    {
      assert NotBack(readings, last, j, i);
    }
    if k < n {
      RisesComplete(last, front, i, k);
    } else {
      assert NotBack(readings, last, n, i);
      if n > 0 {
        RisesComplete(last, front, i, n - 1);
      }
    }
  }

  lemma RisePushed(rises: seq<nat>, last: nat, latest: nat, x: nat)
    requires Increasing(rises) && x >= latest >= last && forall y :: y in rises ==> last < y <= latest
    ensures var more := rises + (if x > latest then [x] else []);
            Increasing(more) && forall y :: y in more ==> last < y <= x
  {
    assert forall k :: 0 <= k < |rises| ==> rises[k] in rises;
  }

  /** One more reading, by the running daemon or by a new one on the same backup file. */
  method NextReading(h: EccHandler, warm: bool, paths: seq<string>, backup: string, events: seq<Report>, now: seq<nat>)
    returns (h': EccHandler)
    requires PrefixFree(paths) && Told(paths, backup, events) && NotDecreased(paths, now, events) && AreCounts(now)
    requires warm ==> h.Valid() && h.paths == paths && h.events == events
    modifies h
    ensures (h' == h || fresh(h')) && h'.Valid() && h'.paths == paths && h'.counts == now
    ensures forall i :: 0 <= i < |paths| ==>
              && Values(h'.events, paths[i]) ==
                 Values(events, paths[i]) + (if now[i] > Newest(Values(events, paths[i])) then [now[i]] else [])
              && Newest(Values(h'.events, paths[i])) == now[i]
  {
    if warm {
      h' := h;
      Pass(h, now);
    } else {
      h' := StartDaemon(paths, backup, events, now);
    }
  }

  /**
   * Any number of daemon runs, each starting on the backup file the last one left. The
   * readings are taken one after the other; `starts` says which of them follow a
   * restart. Whatever the restarts, exactly the rises are reported, each once.
   */
  method RunDaemons(paths: seq<string>, backup: string, events: seq<Report>, readings: seq<seq<nat>>, starts: set<nat>)
    returns (backup': string, events': seq<Report>)
    requires PrefixFree(paths) && Told(paths, backup, events) && Climbing(paths, readings, events)
    ensures Told(paths, backup', events') && Reported(paths, events, readings, events')
  {
    backup', events' := backup, events;
    var k, running := 0, false;
    var h := new EccHandler([], "", [], []);
    while k < |readings|
      invariant k <= |readings| && Told(paths, backup', events') && Reported(paths, events, readings[..k], events')
      invariant fresh(h) && (running ==> h.Valid() && h.paths == paths && h.events == events')
    {
      ClimbingNext(paths, events, readings, k, events');
      ghost var before := events';
      h := NextReading(h, running && k !in starts, paths, backup', events', readings[k]);
      running, backup', events' := true, h.backup, h.events;
      ReportedNext(paths, events, readings[..k], before, readings[k], events');
      assert readings[..k + 1] == readings[..k] + [readings[k]];
      k := k + 1;
    }
    assert readings[..|readings|] == readings;
  }
}
