/**
 * The history store: a circular buffer in memory, kept in agreement with a file
 * that is appended to and occasionally trimmed to the buffer's contents.
 */
module History {
  import opened Sequences
  import opened CacheFile
  import opened Text

  const MAX_RECORDS: nat := 5000
  const MAX_RECORDS_HIST_FILE: nat := MAX_RECORDS + 1000
  const HIST_FILE_HEADER_SIZE: nat := 2
  const HISTORY_BLANK_LINE2 := "#EVENT  ID                    DATE                 TYPE\n"

  // ---- Recording, seen from the file ----

  /** The entries of the file after recording one more line. */
  function Recorded(entries: seq<string>, line: string): seq<string>
  {
    if |entries| + 1 < MAX_RECORDS_HIST_FILE then entries + [line] else Last(entries + [line], MAX_RECORDS)
  }

  function RecordedAll(entries: seq<string>, lines: seq<string>): seq<string>
    decreases |lines|
  {
    if lines == [] then entries
    else Recorded(RecordedAll(entries, lines[..|lines| - 1]), lines[|lines| - 1])
  }

  /** How many of these updates rewrote the whole file. */
  function Rewrites(entries: seq<string>, lines: seq<string>): nat
    decreases |lines|
  {
    if lines == [] then 0
    else
      var before := RecordedAll(entries, lines[..|lines| - 1]);
      Rewrites(entries, lines[..|lines| - 1]) + if |before| + 1 < MAX_RECORDS_HIST_FILE then 0 else 1
  }

  lemma SuffixGrows<T>(s: seq<T>, t: seq<T>, x: T, n: nat)
    requires IsSuffix(s, t)
    ensures IsSuffix(s + [x], t + [x]) && IsSuffix(Last(s + [x], n), t + [x])
  {
    assert (t + [x])[|t| - |s|..] == t[|t| - |s|..] + [x];
    var l := Last(s + [x], n);
    assert (t + [x])[|t| + 1 - |l|..] == l;
  }

  /** The length of the file after `total` recordings: it saws between the two limits. */
  function FileLength(total: nat): nat
  {
    if total < 6000 then total else 5000 + (total - 5000) % 1000
  }

  function RewritesOf(total: nat): nat
  {
    if total < 6000 then 0 else (total - 5000) / 1000
  }

  lemma SawStep(total: nat)
    ensures FileLength(total) < 6000
    ensures if FileLength(total) + 1 < 6000
            then FileLength(total + 1) == FileLength(total) + 1 && RewritesOf(total + 1) == RewritesOf(total)
            else FileLength(total + 1) == 5000 && RewritesOf(total + 1) == RewritesOf(total) + 1
  {
  }

  /** For every run of recording the file holds a suffix of everything ever recorded. */
  lemma {:induction false} RecordingKeepsSuffix(entries: seq<string>, lines: seq<string>)
    ensures IsSuffix(RecordedAll(entries, lines), entries + lines)
  {
    if lines == [] {
      assert entries + lines == entries;
    } else {
      var before, line := lines[..|lines| - 1], lines[|lines| - 1];
      RecordingKeepsSuffix(entries, before);
      SuffixGrows(RecordedAll(entries, before), entries + before, line, MAX_RECORDS);
      assert entries + lines == entries + before + [line];
    }
  }

  lemma RecordedLength(entries: seq<string>, line: string)
    requires |entries| < MAX_RECORDS_HIST_FILE
    ensures |Recorded(entries, line)| == if |entries| + 1 < 6000 then |entries| + 1 else 5000
  {
  }

  /** The length of the file and the number of full rewrites depend on the total only. */
  lemma {:induction false} RecordingLength(entries: seq<string>, lines: seq<string>)
    requires |entries| < MAX_RECORDS_HIST_FILE
    ensures |RecordedAll(entries, lines)| == FileLength(|entries| + |lines|)
    ensures Rewrites(entries, lines) == RewritesOf(|entries| + |lines|)
  {
    if lines == [] {
    } else {
      var before := lines[..|lines| - 1];
      RecordingLength(entries, before);
      SawStep(|entries| + |before|);
      RecordedLength(RecordedAll(entries, before), lines[|lines| - 1]);
    }
  }

  /** Hence the bounds, and at most one rewrite per MAX_RECORDS_HIST_FILE - MAX_RECORDS updates. */
  lemma RecordingBounds(entries: seq<string>, lines: seq<string>)
    requires |entries| < MAX_RECORDS_HIST_FILE
    ensures var total := |entries| + |lines|;
            && Min(total, MAX_RECORDS) <= |RecordedAll(entries, lines)| < MAX_RECORDS_HIST_FILE
            && Rewrites(entries, lines) * (MAX_RECORDS_HIST_FILE - MAX_RECORDS) <= |lines| + (MAX_RECORDS_HIST_FILE - MAX_RECORDS) - 1
  {
    RecordingLength(entries, lines);
    SawStep(|entries| + |lines|);
  }

  // ---- The ring, unrolled ----

  function Lines(slots: seq<Slot>): seq<string>
  {
    if slots == [] then []
    else Lines(slots[..|slots| - 1]) + if slots[|slots| - 1].Some? then [slots[|slots| - 1].value] else []
  }

  lemma {:induction false} LinesOfEmpty(n: nat, lines: seq<string>)
    ensures Lines(Empty(n) + Filled(lines)) == lines
    decreases n + |lines|
  {
    var s := Empty(n) + Filled(lines);
    if lines != [] {
      LinesOfEmpty(n, lines[..|lines| - 1]);
      assert s[..|s| - 1] == Empty(n) + Filled(lines[..|lines| - 1]);
      assert lines == lines[..|lines| - 1] + [lines[|lines| - 1]];
    } else if n > 0 {
      LinesOfEmpty(n - 1, lines);
      assert s[..|s| - 1] == Empty(n - 1) + Filled(lines);
    }
  }

  /** Reading a ring from its write position gives the newest lines, oldest first. */
  lemma RingUnrolls(ring: seq<Slot>, cur: nat, lines: seq<string>)
    requires RingHolds(ring, cur, lines)
    ensures Lines(Rotated(ring, cur)) == Last(lines, |ring|)
  {
    var newest := Last(lines, |ring|);
    LinesOfEmpty(|ring| - |newest|, newest);
    assert Rotated(ring, cur) == Empty(|ring| - |newest|) + Filled(newest);
  }

  /** Forgetting lines that the ring no longer holds. */
  lemma RingForgets(ring: seq<Slot>, cur: nat, lines: seq<string>)
    requires RingHolds(ring, cur, lines) && |lines| >= |ring|
    ensures RingHolds(ring, cur, Last(lines, |ring|))
  {
  }

  // ---- The store ----

  class HistoryStore {
    const cache: array<Slot>
    var nextline: int
    var fileentries: nat
    /** The history file, as lines, if it exists. */
    var file: Option<seq<string>>
    /** The entries the ring stands for. */
    ghost var known: seq<string>

    ghost predicate Loaded() reads this { nextline >= 0 }

    ghost predicate Valid()
      reads this, cache
    {
      && cache.Length == MAX_RECORDS
      && (file.Some? ==> |file.value| >= HIST_FILE_HEADER_SIZE)
      && if nextline < 0 then cache[..] == Empty(MAX_RECORDS)
         else
           && RingHolds(cache[..], nextline, known)
           && fileentries == |known|
           && (file.Some? ==> known == file.value[HIST_FILE_HEADER_SIZE..])
    }

    /** The entries of the history: those of the file, none when there is no file. */
    function Entries(): seq<string>
      reads this
      requires file.Some? ==> |file.value| >= HIST_FILE_HEADER_SIZE
    {
      if file.None? then [] else file.value[HIST_FILE_HEADER_SIZE..]
    }

    /** The ring read from nextline on. */
    ghost function Unrolled(): seq<string>
      reads this, cache
      requires Valid() && Loaded()
    {
      Lines(Rotated(cache[..], nextline))
    }

    /** A daemon start: nothing is cached yet. */
    constructor (file: Option<seq<string>>)
      requires file.Some? ==> |file.value| >= HIST_FILE_HEADER_SIZE
      ensures Valid() && !Loaded() && this.file == file
      ensures fresh(cache)
    {
      cache := new Slot[MAX_RECORDS](_ => None);
      nextline, fileentries := -1, 0;
      this.file, known := file, [];
    }

    /** `cache_history_file`, on an empty cache. */
    method CacheHistoryFile(firstline: string)
      requires cache.Length == MAX_RECORDS && cache[..] == Empty(MAX_RECORDS)
      requires file.Some? ==> |file.value| >= HIST_FILE_HEADER_SIZE
      modifies this`nextline, this`fileentries, this`file, this`known, cache
      ensures Valid() && Loaded() && file.Some?
      ensures Entries() == old(Entries())
      ensures old(file).Some? ==> file == old(file)
    {
      known := Entries();
      if file.None? {
        file := Some([firstline, HISTORY_BLANK_LINE2]);
        nextline, fileentries := 0, 0;
        NothingCached(cache[..]);
        return;
      }
      var lines := file.value;
      if |lines| > HIST_FILE_HEADER_SIZE {
        fileentries := |lines| - HIST_FILE_HEADER_SIZE;
        nextline := CacheTailOf(lines);
      } else {
        nextline, fileentries := 0, 0;
        NothingCached(cache[..]);
      }
    }

    /** Reads the tail of the file into the ring. */
    method CacheTailOf(lines: seq<string>) returns (next: nat)
      requires cache.Length == MAX_RECORDS && |lines| > HIST_FILE_HEADER_SIZE
      modifies cache
      ensures RingHolds(cache[..], next, lines[HIST_FILE_HEADER_SIZE..])
    {
      var offset := HIST_FILE_HEADER_SIZE;
      if |lines| > HIST_FILE_HEADER_SIZE + MAX_RECORDS {
        offset := |lines| - MAX_RECORDS;
      }
      var res := CacheTail(lines, cache, offset);
      next := res % MAX_RECORDS;
      TailCached(cache[..], lines, offset, res, next);
    }

    method FreeAll()
      requires cache.Length == MAX_RECORDS
      modifies cache
      ensures cache[..] == Empty(MAX_RECORDS)
    {
      for idx := 0 to MAX_RECORDS
        invariant forall k :: 0 <= k < idx ==> cache[k] == None
      {
        cache[idx] := None;
      }
    }

    /** `reset_history_cache`: empties the ring and loads it again. */
    method ResetHistoryCache(firstline: string)
      requires Valid()
      modifies this`nextline, this`fileentries, this`file, this`known, cache
      ensures Valid() && Loaded() && file.Some?
      ensures Entries() == old(Entries())
      ensures old(file).Some? ==> file == old(file)
    {
      if nextline > 0 || cache[0] != None {
        FreeAll();
      }
      assert cache[..] == Empty(MAX_RECORDS) by {
        if old(nextline) == 0 && old(cache[0]) == None {
          EmptyRing(old(cache[..]), known);
        }
      }
      CacheHistoryFile(firstline);
    }

    /** The first steps of `update_history_file`: there is a file, and it is cached. */
    method EnsureLoaded(firstline: string)
      requires Valid()
      modifies this`nextline, this`fileentries, this`file, this`known, cache
      ensures Valid() && Loaded() && file.Some?
      ensures Entries() == old(Entries())
    {
      if file.None? {
        ResetHistoryCache(firstline);
      } else if nextline < 0 {
        CacheHistoryFile(firstline);
      }
    }

    /** Puts the line in the ring, over the oldest one when the ring is full. */
    method StoreEntry(line: string)
      requires cache.Length == MAX_RECORDS && nextline >= 0 && RingHolds(cache[..], nextline, known)
      modifies this`nextline, this`known, cache
      ensures nextline >= 0 && RingHolds(cache[..], nextline, known) && known == old(known) + [line]
    {
      RingStore(cache[..], nextline, known, line);
      cache[nextline] := Some(line);
      nextline := NextIndex(nextline, MAX_RECORDS);
      known := known + [line];
    }

    /** Rewrites the file from the ring. */
    method Trim(firstline: string)
      requires cache.Length == MAX_RECORDS && nextline >= 0 && RingHolds(cache[..], nextline, known)
      requires |known| >= MAX_RECORDS
      modifies this`fileentries, this`file, this`known
      ensures known == Last(old(known), MAX_RECORDS) && RingHolds(cache[..], nextline, known)
      ensures fileentries == |known| && file == Some([firstline, HISTORY_BLANK_LINE2] + known)
    {
      var kept := ReadRing();
      file := Some([firstline, HISTORY_BLANK_LINE2] + kept);
      RingForgets(cache[..], nextline, known);
      known := Last(known, MAX_RECORDS);
      fileentries := MAX_RECORDS;
    }

    /** `update_history_file`, given the line built for the entry. */
    method UpdateHistoryFile(line: string, firstline: string)
      requires Valid()
      modifies this`nextline, this`fileentries, this`file, this`known, cache
      ensures Valid() && Loaded() && file.Some?
      ensures Entries() == Recorded(old(Entries()), line)
    {
      EnsureLoaded(firstline);
      StoreEntry(line);
      fileentries := fileentries + 1;
      Save(line, firstline);
    }

    /** Appends the line just stored to the file, or rewrites the file when it has grown too long. */
    method Save(line: string, firstline: string)
      requires cache.Length == MAX_RECORDS && nextline >= 0 && RingHolds(cache[..], nextline, known)
      requires file.Some? && |file.value| >= HIST_FILE_HEADER_SIZE
      requires known == Entries() + [line] && fileentries == |known|
      modifies this`fileentries, this`file, this`known
      ensures Valid() && Loaded() && file.Some?
      ensures Entries() == Recorded(old(Entries()), line)
    {
      if fileentries < MAX_RECORDS_HIST_FILE {
        file := Some(file.value + [line]);
      } else {
        Trim(firstline);
      }
    }

    /** The two copy loops of the rewrite: from nextline to the end, then from 0 to nextline. */
    method ReadRing() returns (lines: seq<string>)
      requires cache.Length == MAX_RECORDS && nextline >= 0
      requires RingHolds(cache[..], nextline, known) && |known| >= MAX_RECORDS
      ensures lines == Last(known, MAX_RECORDS)
    {
      RingIsFull(cache[..], nextline, known);
      var older := ReadRange(nextline, MAX_RECORDS);
      var newer := ReadRange(0, nextline);
      lines := older + newer;
      FilledSplit(older, newer);
      FilledInjective(lines, Last(known, MAX_RECORDS));
    }

    /** Writes out a stretch of slots, none of which may be NULL. */
    method ReadRange(from: nat, to: nat) returns (lines: seq<string>)
      requires from <= to <= cache.Length && forall k :: from <= k < to ==> cache[k].Some?
      ensures Filled(lines) == cache[from..to]
    {
      lines := [];
      for index := from to to
        invariant |lines| == index - from
        invariant forall k :: from <= k < index ==> cache[k] == Some(lines[k - from])
      {
        lines := lines + [cache[index].value];
      }
    }

    /** `history_has_event`: some cached entry names the directory. */
    method HistoryHasEvent(eventdir: string, firstline: string) returns (found: bool)
      requires Valid()
      modifies this`nextline, this`fileentries, this`file, this`known, cache
      ensures Valid() && Loaded() && Entries() == old(Entries())
      ensures found <==> exists x :: x in Last(known, MAX_RECORDS) && Contains(x, eventdir)
      ensures !old(Loaded()) ==> known == old(Entries())
      ensures old(Loaded()) ==> known == old(known)
    {
      if nextline < 0 {
        CacheHistoryFile(firstline);
      }
      RingMembers(cache[..], nextline, known);
      ghost var ring, known0, file0 := cache[..], known, file;
      for idx := 0 to MAX_RECORDS
        invariant Valid() && Loaded() && cache[..] == ring && known == known0 && file == file0
        invariant forall k :: 0 <= k < idx && ring[k].Some? ==> !Contains(ring[k].value, eventdir)
      {
        assert ring[idx] == cache[idx];
        if cache[idx].Some? {
          var hit := StrStr(cache[idx].value, eventdir);
          if hit {
            return true;
          }
        }
      }
      return false;
    }
  }

  lemma {:induction false} FilledSplit(a: seq<string>, b: seq<string>)
    ensures Filled(a + b) == Filled(a) + Filled(b)
    decreases |b|
  {
    if b == [] {
      assert a + b == a;
    } else {
      FilledSplit(a, b[..|b| - 1]);
      assert (a + b)[..|a + b| - 1] == a + b[..|b| - 1];
    }
  }

  /** A ring with enough lines has no empty slot. */
  lemma RingIsFull(ring: seq<Slot>, cur: nat, lines: seq<string>)
    requires RingHolds(ring, cur, lines) && |lines| >= |ring|
    ensures forall k :: 0 <= k < |ring| ==> ring[k].Some?
  {
    var all := Rotated(ring, cur);
    assert forall k :: cur <= k < |ring| ==> ring[k] == all[k - cur];
    assert forall k :: 0 <= k < cur ==> ring[k] == all[|ring| - cur + k];
  }

  lemma NothingCached(ring: seq<Slot>)
    requires |ring| > 0 && ring == Empty(|ring|)
    ensures RingHolds(ring, 0, [])
  {
    assert ring == Filled([]) + Empty(|ring|);
  }

  /** The ring after caching the last lines of a file with a header. */
  lemma TailCached(ring: seq<Slot>, lines: seq<string>, offset: nat, res: nat, next: nat)
    requires |ring| == MAX_RECORDS && |lines| > HIST_FILE_HEADER_SIZE
    requires offset == if |lines| > HIST_FILE_HEADER_SIZE + MAX_RECORDS then |lines| - MAX_RECORDS else HIST_FILE_HEADER_SIZE
    requires res == |lines| - offset && next == res % MAX_RECORDS
    requires ring == Filled(Last(LinesFrom(lines, offset), MAX_RECORDS)) + Empty(MAX_RECORDS - res)
    ensures RingHolds(ring, next, lines[HIST_FILE_HEADER_SIZE..])
  {
    var entries := lines[HIST_FILE_HEADER_SIZE..];
    assert LinesFrom(lines, offset) == Last(entries, MAX_RECORDS);
    if res == MAX_RECORDS {
      assert Rotated(ring, 0) == ring;
    }
  }

  lemma FilledInjective(a: seq<string>, b: seq<string>)
    requires Filled(a) == Filled(b)
    ensures a == b
  {
    assert |a| == |Filled(a)| == |b|;
    forall i | 0 <= i < |a|
      ensures a[i] == b[i]
    {
      assert Filled(a)[i] == Some(a[i]) && Filled(b)[i] == Some(b[i]);
    }
  }

  /** A ring about to write slot 0 whose slot 0 is empty is empty. */
  lemma EmptyRing(ring: seq<Slot>, lines: seq<string>)
    requires RingHolds(ring, 0, lines) && ring[0] == None
    ensures ring == Empty(|ring|)
  {
    assert Rotated(ring, 0)[0] == ring[0];
  }

  /** The full slots of the ring are exactly the newest lines. */
  lemma RingMembers(ring: seq<Slot>, cur: nat, lines: seq<string>)
    requires RingHolds(ring, cur, lines)
    ensures forall k :: 0 <= k < |ring| && ring[k].Some? ==> ring[k].value in Last(lines, |ring|)
    ensures forall x :: x in Last(lines, |ring|) ==> Some(x) in ring
  {
    var newest := Last(lines, |ring|);
    if |lines| >= |ring| {
      var all := Rotated(ring, cur);
      forall k | 0 <= k < |ring| && ring[k].Some?
        ensures ring[k].value in newest
      {
        var i := if k >= cur then k - cur else |ring| - cur + k;
        assert all[i] == ring[k] && all[i] == Some(newest[i]);
      }
      forall x | x in newest
        ensures Some(x) in ring
      {
        var i :| 0 <= i < |newest| && newest[i] == x;
        assert all[i] == ring[if i < |ring| - cur then cur + i else i - (|ring| - cur)];
      }
    } else {
      forall x | x in newest
        ensures Some(x) in ring
      {
        var i :| 0 <= i < |lines| && lines[i] == x;
        assert ring[i] == Some(x);
      }
    }
  }

  /** Cold equals warm: two loaded stores over the same file show the same history. */
  lemma ColdEqualsWarm(warm: HistoryStore, cold: HistoryStore)
    requires warm.Valid() && warm.Loaded() && cold.Valid() && cold.Loaded()
    requires warm.file.Some? && warm.file == cold.file
    ensures warm.fileentries == cold.fileentries == |warm.Entries()|
    ensures warm.Unrolled() == cold.Unrolled() == Last(warm.Entries(), MAX_RECORDS)
  {
    RingUnrolls(warm.cache[..], warm.nextline, warm.known);
    RingUnrolls(cold.cache[..], cold.nextline, cold.known);
  }

  /** Restarting the daemon on the file left by a running store. */
  method Restart(warm: HistoryStore, firstline: string) returns (cold: HistoryStore)
    requires warm.Valid() && warm.Loaded() && warm.file.Some?
    ensures cold.Valid() && cold.Loaded() && cold.file == warm.file
    ensures cold.fileentries == warm.fileentries && cold.Unrolled() == warm.Unrolled()
  {
    cold := new HistoryStore(warm.file);
    cold.CacheHistoryFile(firstline);
    ColdEqualsWarm(warm, cold);
  }

  /** Any number of updates on a live store. */
  method RecordAll(store: HistoryStore, lines: seq<string>, firstline: string)
    requires store.Valid()
    modifies store`nextline, store`fileentries, store`file, store`known, store.cache
    ensures store.Valid()
    ensures lines != [] ==> store.Loaded() && store.file.Some?
    ensures store.Entries() == RecordedAll(old(store.Entries()), lines)
    ensures lines != [] ==> store.fileentries == |store.Entries()|
    ensures lines != [] ==> store.Unrolled() == Last(store.Entries(), MAX_RECORDS)
  {
    for i := 0 to |lines|
      invariant store.Valid()
      invariant i > 0 ==> store.Loaded() && store.file.Some?
      invariant store.Entries() == RecordedAll(old(store.Entries()), lines[..i])
    {
      assert lines[..i + 1][..i] == lines[..i];
      store.UpdateHistoryFile(lines[i], firstline);
    }
    assert lines[..|lines|] == lines;
    if lines != [] {
      ColdEqualsWarm(store, store);
    }
  }
}
