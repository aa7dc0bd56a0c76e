/**
 * Log rotation (logcat) and the capture of the last bytes across the rotated
 * files (crashlog). Both sides meet only in the directory and its file names.
 */
module RotatedLogs {
  import opened Sequences
  import opened Text

  type Directory = map<string, Bytes>

  /** The file of generation `i`: the base name, or base.<i> with a fixed number of digits. */
  function LogName(base: string, width: nat, i: nat): string
  {
    if i == 0 then base else base + "." + Padded(width, i)
  }

  /** The naming scheme of a log: generation to file name. */
  type Naming = nat -> string

  function Names(base: string, width: nat): Naming
  {
    (i: nat) => LogName(base, width, i)
  }

  /** The number of digits of the largest generation, zero when nothing is rotated. */
  function Width(maxRotated: nat): nat { if maxRotated > 0 then |Decimal(maxRotated)| else 0 }

  ghost predicate Distinct(name: Naming)
  {
    forall i: nat, j: nat :: name(i) == name(j) ==> i == j
  }

  lemma NamesDistinct(base: string, width: nat)
    ensures Distinct(Names(base, width))
  {
    var name := Names(base, width);
    forall i: nat, j: nat | name(i) == name(j)
      ensures i == j
    {
      assert name(i) == LogName(base, width, i) && name(j) == LogName(base, width, j);
      if i != 0 && j != 0 {
        assert name(i)[|base| + 1..] == Padded(width, i) && name(j)[|base| + 1..] == Padded(width, j);
        PaddedInjective(width, i, j);
      }
    }
  }

  /** With up to 30 rotated files, the third one back is called so. */
  lemma NameExample()
    ensures LogName("aplog", Width(30), 3) == "aplog.03" && LogName("aplog", Width(30), 0) == "aplog"
  {
    assert Decimal(30) == Decimal(3) + [Digit(0)];
    assert Zeros(1) == Zeros(0) + "0" == "0";
    assert Padded(2, 3) == "0" + Decimal(3) == "03";
    assert "aplog" + "." + "03" == "aplog.03";
  }

  /** What generation `i` holds, if its file exists. */
  function Content(files: Directory, name: Naming, i: nat): Option<Bytes>
  {
    if name(i) in files then Some(files[name(i)]) else None
  }

  /** The generations on disk are exactly `gens`, newest first. */
  ghost predicate Holds(files: Directory, name: Naming, gens: seq<Bytes>)
  {
    forall i: nat :: Content(files, name, i) == if i < |gens| then Some(gens[i]) else None
  }

  /** The generations joined oldest first. */
  function Chain(gens: seq<Bytes>): Bytes
  {
    if gens == [] then [] else Chain(gens[1..]) + gens[0]
  }

  lemma {:induction false} ChainSplit(a: seq<Bytes>, b: seq<Bytes>)
    ensures Chain(a + b) == Chain(b) + Chain(a)
  {
    if a == [] {
      assert a + b == b;
    } else {
      ChainSplit(a[1..], b);
      assert (a + b)[1..] == a[1..] + b;
    }
  }

  // ---- Rotation ----

  /** The generations after one rotation that keeps `max` rotated files. */
  function RotatedGens(gens: seq<Bytes>, max: nat): seq<Bytes>
  {
    if max == 0 then gens else [[]] + (if |gens| <= max then gens else gens[..max])
  }

  /** `rename(2)`: replaces the target; does nothing when the source is missing. */
  function Rename(files: Directory, from: string, to: string): Directory
    requires from != to
  {
    if from in files then files[to := files[from]] - {from} else files
  }

  lemma ContentAfterRename(files: Directory, name: Naming, i: nat, k: nat)
    requires i >= 1 && Distinct(name)
    ensures name(i - 1) != name(i)
    ensures var files' := Rename(files, name(i - 1), name(i));
            Content(files', name, k) ==
              if Content(files, name, i - 1).None? then Content(files, name, k)
              else if k == i then Content(files, name, i - 1)
              else if k == i - 1 then None
              else Content(files, name, k)
  {
    assert name(k) == name(i) ==> k == i;
    assert name(k) == name(i - 1) ==> k == i - 1;
    assert name(i) == name(i - 1) ==> i == i - 1;
  }

  /** Generation `k` when the loop of rotateLogs has moved the generations from `i` up. */
  function Shifted(gens: seq<Bytes>, max: nat, i: nat, k: nat): Option<Bytes>
  {
    if i < k <= max then (if k - 1 < |gens| then Some(gens[k - 1]) else None)
    else if k == i < max then None
    else if k < |gens| then Some(gens[k]) else None
  }

  /** Appending to the newest generation appends to the chain. */
  lemma ChainAppend(gens: seq<Bytes>, stream: Bytes, bytes: Bytes)
    requires gens != [] && IsSuffix(Chain(gens), stream)
    ensures var gens' := gens[0 := gens[0] + bytes];
            && Chain(gens') == Chain(gens) + bytes
            && IsSuffix(Chain(gens'), stream + bytes)
  {
    var gens' := gens[0 := gens[0] + bytes];
    assert gens'[1..] == gens[1..];
    assert Chain(gens') == Chain(gens) + bytes;
    var c := Chain(gens);
    assert (stream + bytes)[|stream| - |c|..] == stream[|stream| - |c|..] + bytes;
  }

  lemma SuffixOfSuffix<T>(a: seq<T>, b: seq<T>, c: seq<T>)
    requires IsSuffix(a, b) && IsSuffix(b, c)
    ensures IsSuffix(a, c)
  {
    assert c[|c| - |a|..] == c[|c| - |b|..][|b| - |a|..];
  }

  /** Opening an empty generation changes nothing. */
  lemma ChainOpen(gens: seq<Bytes>)
    ensures Chain([[]] + gens) == Chain(gens)
  {
    assert ([[]] + gens)[1..] == gens;
  }

  lemma ChainDropsOldest(gens: seq<Bytes>, n: nat)
    requires n <= |gens|
    ensures IsSuffix(Chain(gens[..n]), Chain(gens))
  {
    ChainSplit(gens[..n], gens[n..]);
    assert gens[..n] + gens[n..] == gens;
  }

  /** A rotation only ever drops the oldest generation, and only when all places are taken. */
  lemma RotationDrops(gens: seq<Bytes>, max: nat, stream: Bytes)
    requires gens != [] && IsSuffix(Chain(gens), stream)
    ensures IsSuffix(Chain(RotatedGens(gens, max)), stream)
    ensures |gens| <= max || max == 0 ==> Chain(RotatedGens(gens, max)) == Chain(gens)
  {
    if max > 0 {
      ChainOpen(if |gens| <= max then gens else gens[..max]);
      if |gens| > max {
        ChainDropsOldest(gens, max);
        SuffixOfSuffix(Chain(gens[..max]), Chain(gens), stream);
      }
    }
  }

  lemma RotatedSizes(gens: seq<Bytes>, max: nat, least: nat)
    requires 1 <= |gens| <= max + 1 && |gens[0]| >= least
    requires forall i :: 1 <= i < |gens| ==> |gens[i]| >= least
    ensures var r := RotatedGens(gens, max);
            1 <= |r| <= max + 1 && forall i :: 1 <= i < |r| ==> |r[i]| >= least
  {
  }

  /**
   * The generations hold the end of the stream; while there are places left they hold
   * all of it, and a generation is only rotated away when it is large enough.
   */
  ghost predicate Retains(gens: seq<Bytes>, stream: Bytes, max: nat, least: nat)
  {
    && 1 <= |gens| <= max + 1
    && IsSuffix(Chain(gens), stream)
    && (forall i :: 1 <= i < |gens| ==> |gens[i]| >= least)
    && (|gens| <= max || max == 0 ==> Chain(gens) == stream)
  }

  lemma AppendRetains(gens: seq<Bytes>, stream: Bytes, max: nat, least: nat, bytes: Bytes)
    requires Retains(gens, stream, max, least)
    ensures Retains(Appended(gens, bytes), stream + bytes, max, least)
  {
    ChainAppend(gens, stream, bytes);
  }

  lemma RotationRetains(gens: seq<Bytes>, stream: Bytes, max: nat, least: nat)
    requires Retains(gens, stream, max, least) && |gens[0]| >= least
    ensures Retains(RotatedGens(gens, max), stream, max, least)
  {
    RotationDrops(gens, max, stream);
    RotatedSizes(gens, max, least);
  }

  /** The log writer: an open file, a byte count, and the files it has rotated away. */
  class Logcat {
    const base: string
    /** How the generations are called. */
    const name: Naming
    const maxRotated: nat
    const rotateKBytes: nat
    var files: Directory
    var byteCount: nat
    ghost var gens: seq<Bytes>
    ghost var stream: Bytes

    /** The directory holds exactly the generations, under their names. */
    ghost predicate Filed()
      reads this
    {
      Distinct(name) && name(0) == base && Holds(files, name, gens)
    }

    ghost predicate Valid()
      reads this
    {
      && Filed()
      && Retains(gens, stream, maxRotated, 1024 * rotateKBytes)
      && byteCount <= |gens[0]|
      && (maxRotated > 0 ==> byteCount == |gens[0]|)
      && (rotateKBytes > 0 ==> byteCount < 1024 * rotateKBytes)
    }

    constructor (base: string, maxRotated: nat, rotateKBytes: nat)
      ensures Valid() && stream == [] && gens == [[]]
      ensures this.base == base && this.maxRotated == maxRotated && this.rotateKBytes == rotateKBytes
      ensures name == Names(base, Width(maxRotated))
    {
      this.base, this.maxRotated, this.rotateKBytes := base, maxRotated, rotateKBytes;
      name := Names(base, Width(maxRotated));
      files, byteCount := map[base := []], 0;
      gens, stream := [[]], [];
      NamesDistinct(base, Width(maxRotated));
    }

    /** `rotateLogs`: renames from the oldest down, then reopens the base file. */
    method RotateLogs()
      requires Filed() && 1 <= |gens| <= maxRotated + 1
      modifies this`files, this`byteCount, this`gens
      ensures gens == RotatedGens(old(gens), maxRotated)
      ensures Filed()
      ensures byteCount == 0
    {
      var i: nat := maxRotated;
      while i > 0
        invariant i <= maxRotated
        invariant gens == old(gens)
        invariant forall k: nat :: Content(files, name, k) == Shifted(gens, maxRotated, i, k)
      {
        ghost var before := files;
        ContentAfterRename(files, name, i, 0);
        files := Rename(files, name(i - 1), name(i));
        forall k: nat
          ensures Content(files, name, k) == Shifted(gens, maxRotated, i - 1, k)
        {
          ContentAfterRename(before, name, i, k);
          assert Content(before, name, i - 1) == Shifted(gens, maxRotated, i, i - 1);
          assert Content(before, name, k) == Shifted(gens, maxRotated, i, k);
        }
        i := i - 1;
      }
      ghost var moved := files;
      if base !in files {
        files := files[base := []];
      }
      byteCount := 0;
      gens := RotatedGens(gens, maxRotated);
      forall k: nat
        ensures Content(files, name, k) == if k < |gens| then Some(gens[k]) else None
      {
        assert Content(moved, name, k) == Shifted(old(gens), maxRotated, 0, k);
        assert Content(moved, name, 0) == Shifted(old(gens), maxRotated, 0, 0);
        assert name(k) == name(0) ==> k == 0;
      }
    }

    /** `write` on the open file: it grows, and so does the newest generation. */
    method Append(bytes: Bytes)
      requires Filed() && gens != []
      modifies this`files, this`gens
      ensures gens == Appended(old(gens), bytes) && Filed()
    {
      ghost var g := gens;
      assert Content(files, name, 0) == Some(g[0]);
      files := files[base := files[base] + bytes];
      gens := gens[0 := gens[0] + bytes];
      forall k: nat
        ensures Content(files, name, k) == if k < |gens| then Some(gens[k]) else None
      {
        assert name(k) == name(0) ==> k == 0;
        assert Content(old(files), name, k) == if k < |g| then Some(g[k]) else None;
      }
    }

    /**
     * One log line: appended to the open file, and the files are rotated exactly when the
     * bytes written since the last rotation reach the rotation size.
     */
    method WriteLine(bytes: Bytes)
      requires Valid()
      modifies this
      ensures Valid() && stream == old(stream) + bytes
      ensures var appended, count := Appended(old(gens), bytes), old(byteCount) + |bytes|;
              if rotateKBytes > 0 && count >= 1024 * rotateKBytes
              then gens == RotatedGens(appended, maxRotated) && byteCount == 0
              else gens == appended && byteCount == count
    {
      AppendRetains(gens, stream, maxRotated, 1024 * rotateKBytes, bytes);
      Append(bytes);
      stream := stream + bytes;
      byteCount := byteCount + |bytes|;
      if rotateKBytes > 0 && byteCount / 1024 >= rotateKBytes {
        RotationRetains(gens, stream, maxRotated, 1024 * rotateKBytes);
        RotateLogs();
      }
    }
  }

  /** The generations with `bytes` at the end of the newest one. */
  function Appended(gens: seq<Bytes>, bytes: Bytes): seq<Bytes>
    requires gens != []
  {
    gens[0 := gens[0] + bytes]
  }

  /**
   * With rotated files the newest one always stays below the rotation size, the others
   * have reached it, and a write rotates exactly when the newest would reach it.
   */
  lemma NewestIsSmall(log: Logcat)
    requires log.Valid() && log.rotateKBytes > 0 && log.maxRotated > 0
    ensures |log.gens[0]| < 1024 * log.rotateKBytes
    ensures forall i :: 1 <= i < |log.gens| ==> |log.gens[i]| >= 1024 * log.rotateKBytes
  {
  }

  /** What a rotation does to the generations, one by one. */
  lemma RotationShifts(gens: seq<Bytes>, max: nat, i: nat)
    requires max > 0 && i <= |gens|
    ensures var r := RotatedGens(gens, max);
            && |r| == 1 + Min(|gens|, max) && r[0] == []
            && (1 <= i <= max ==> r[i] == gens[i - 1])
  {
  }

  // ---- Capture ----

  const ENOENT := 2

  /**
   * `do_copy_tail`: copies the last `limit` bytes, or everything when `limit` is 0;
   * the number of bytes copied, or -ENOENT when there is no source file.
   */
  method CopyTail(files: Directory, src: string, dest: Directory, target: string, limit: nat)
    returns (rc: int, dest': Directory)
    ensures src !in files ==> rc == -ENOENT && dest' == dest
    ensures src in files ==>
              var kept := if limit == 0 then files[src] else Last(files[src], limit);
              rc == |kept| && dest' == dest[target := kept]
  {
    if src !in files {
      return -ENOENT, dest;
    }
    var size := |files[src]|;
    var count, offset := limit, 0;
    if count == 0 || size < count {
      count := size;
    }
    if size > count {
      offset := size - count;
    }
    var kept := files[src][offset..offset + count];
    assert kept == if limit == 0 then files[src] else Last(files[src], limit);
    return count, dest[target := kept];
  }

  /** The pieces taken from generation `first` on, newest first, until the limit is used up. */
  function Capture(gens: seq<Bytes>, first: nat, limit: nat): seq<Bytes>
    decreases |gens| - first
  {
    if first >= |gens| || limit == 0 then []
    else
      var piece := Last(gens[first], limit);
      [piece] + Capture(gens, first + 1, limit - |piece|)
  }

  function From<T>(s: seq<T>, i: nat): seq<T> { if i <= |s| then s[i..] else [] }

  /** Together the pieces are exactly the last `limit` bytes of these generations. */
  lemma {:induction false} CaptureIsTail(gens: seq<Bytes>, first: nat, limit: nat)
    ensures Chain(Capture(gens, first, limit)) == Last(Chain(From(gens, first)), limit)
    decreases |gens| - first
  {
    var all := From(gens, first);
    if first >= |gens| {
    } else if limit == 0 {
      assert Chain(all)[|Chain(all)|..] == [];
    } else {
      var piece, rest := Last(gens[first], limit), Chain(From(gens, first + 1));
      CaptureIsTail(gens, first + 1, limit - |piece|);
      var pieces := Capture(gens, first, limit);
      assert pieces[1..] == Capture(gens, first + 1, limit - |piece|);
      assert all[1..] == From(gens, first + 1);
      LastSplit(rest, gens[first], limit);
    }
  }

  lemma LastSplit<T>(older: seq<T>, newer: seq<T>, limit: nat)
    ensures Last(older + newer, limit) == Last(older, limit - |Last(newer, limit)|) + Last(newer, limit)
  {
  }

  /** The destination with the pieces stored under the names of generations `first`, `first + 1`, ... */
  function StoreAll(dest: Directory, name: Naming, first: nat, pieces: seq<Bytes>): Directory
    decreases |pieces|
  {
    if pieces == [] then dest
    else StoreAll(dest[name(first) := pieces[0]], name, first + 1, pieces[1..])
  }

  lemma {:induction false} StoredBefore(dest: Directory, name: Naming, first: nat, pieces: seq<Bytes>, i: nat)
    requires i < first && Distinct(name)
    ensures Content(StoreAll(dest, name, first, pieces), name, i) == Content(dest, name, i)
    decreases |pieces|
  {
    if pieces != [] {
      StoredBefore(dest[name(first) := pieces[0]], name, first + 1, pieces[1..], i);
      assert name(first) == name(i) ==> first == i;
    }
  }

  /** Every piece can be read back: no name is used twice. */
  lemma {:induction false} StoredApart(dest: Directory, name: Naming, first: nat, pieces: seq<Bytes>, i: nat)
    requires i < |pieces| && Distinct(name)
    ensures Content(StoreAll(dest, name, first, pieces), name, first + i) == Some(pieces[i])
    decreases |pieces|
  {
    var dest' := dest[name(first) := pieces[0]];
    if i == 0 {
      StoredBefore(dest', name, first + 1, pieces[1..], first);
    } else {
      StoredApart(dest', name, first + 1, pieces[1..], i - 1);
    }
  }

  /** Nothing else in the destination changes. */
  lemma {:induction false} StoredOnly(dest: Directory, name: Naming, first: nat, pieces: seq<Bytes>, other: string)
    requires forall i :: first <= i < first + |pieces| ==> name(i) != other
    ensures var d := StoreAll(dest, name, first, pieces);
            (other in d <==> other in dest) && (other in d ==> d[other] == dest[other])
    decreases |pieces|
  {
    if pieces != [] {
      StoredOnly(dest[name(first) := pieces[0]], name, first + 1, pieces[1..], other);
    }
  }

  /** From `first` on, the directory holds the generations of `gens`, and then there is a gap. */
  ghost predicate RunsTo(files: Directory, name: Naming, first: nat, gens: seq<Bytes>)
  {
    && first <= |gens|
    && (forall i :: first <= i < |gens| ==> Content(files, name, i) == Some(gens[i]))
    && Content(files, name, |gens|) == None
  }

  lemma ChainStep(gens: seq<Bytes>, index: nat)
    requires index < |gens|
    ensures |Chain(From(gens, index))| == |Chain(From(gens, index + 1))| + |gens[index]|
  {
    assert From(gens, index)[1..] == From(gens, index + 1);
  }

  /**
   * The loop at generation `index` with `left` bytes to go: storing what is still to be
   * captured reaches `goal`, and `short` says whether the generations will run out.
   */
  ghost predicate Pending(files: Directory, path: Naming, dest: Directory, target: Naming, left: int, index: nat,
                          gens: seq<Bytes>, goal: Directory, short: bool)
  {
    && RunsTo(files, path, index, gens)
    && left >= 0
    && goal == StoreAll(dest, target, index, Capture(gens, index, left))
    && (short <==> left > |Chain(From(gens, index))|)
  }

  lemma PendingStep(files: Directory, path: Naming, dest: Directory, target: Naming, left: nat, index: nat,
                    gens: seq<Bytes>, goal: Directory, short: bool)
    requires Pending(files, path, dest, target, left, index, gens, goal, short) && left > 0 && index < |gens|
    ensures var piece := Last(gens[index], left);
            Pending(files, path, dest[target(index) := piece], target, left - |piece|, index + 1, gens, goal, short)
  {
    var pieces, piece := Capture(gens, index, left), Last(gens[index], left);
    assert pieces[1..] == Capture(gens, index + 1, left - |piece|);
    ChainStep(gens, index);
  }

  lemma PendingEnd(files: Directory, path: Naming, dest: Directory, target: Naming, left: nat, index: nat,
                   gens: seq<Bytes>, goal: Directory, short: bool)
    requires Pending(files, path, dest, target, left, index, gens, goal, short)
    ensures left == 0 ==> dest == goal && !short
    ensures index == |gens| && left > 0 ==> dest == goal && short
  {
  }

  /** One round of the loop: the tail of generation `index`. */
  method CopyGeneration(files: Directory, path: Naming, dest: Directory, target: Naming, left: nat, index: nat,
                        ghost gens: seq<Bytes>, ghost goal: Directory, ghost short: bool)
    returns (rc: int, dest': Directory)
    requires Pending(files, path, dest, target, left, index, gens, goal, short) && left > 0
    ensures index == |gens| ==> rc < 0 && dest' == goal && short
    ensures index < |gens| ==>
              rc >= 0 && Pending(files, path, dest', target, left - rc, index + 1, gens, goal, short)
  {
    assert Content(files, path, index) == if index < |gens| then Some(gens[index]) else None;
    rc, dest' := CopyTail(files, path(index), dest, target(index), left);
    if index < |gens| {
      PendingStep(files, path, dest, target, left, index, gens, goal, short);
    } else {
      PendingEnd(files, path, dest, target, left, index, gens, goal, short);
    }
  }

  /**
   * The copying part of `do_copy_circular`, whatever the files are called: generation
   * after generation, newest first, while some of the limit is left. The result is
   * negative exactly when the generations run out before the limit does.
   */
  method CopyCircular(files: Directory, path: Naming, dest: Directory, target: Naming, limit: nat,
                      start: nat, ghost gens: seq<Bytes>)
    returns (rc: int, dest': Directory)
    requires RunsTo(files, path, start, gens)
    ensures dest' == StoreAll(dest, target, start, Capture(gens, start, limit))
    ensures rc < 0 <==> limit > |Chain(From(gens, start))|
  {
    ghost var goal := StoreAll(dest, target, start, Capture(gens, start, limit));
    ghost var short := limit > |Chain(From(gens, start))|;
    rc, dest' := CopyFrom(files, path, dest, target, limit, start, gens, goal, short);
  }

  /** The loop of do_copy_circular. */
  method CopyFrom(files: Directory, path: Naming, dest: Directory, target: Naming, limit: nat, start: nat,
                  ghost gens: seq<Bytes>, ghost goal: Directory, ghost short: bool)
    returns (rc: int, dest': Directory)
    requires Pending(files, path, dest, target, limit, start, gens, goal, short)
    ensures dest' == goal && (rc < 0 <==> short)
  {
    dest' := dest;
    rc := 0;
    var left, index := limit, start;
    while left > 0
      invariant rc >= 0 && left >= 0 && index <= |gens|
      invariant Pending(files, path, dest', target, left, index, gens, goal, short)
      decreases |gens| - index
    {
      rc, dest' := CopyGeneration(files, path, dest', target, left, index, gens, goal, short);
      if rc < 0 {
        return;
      }
      left := left - rc;
      index := index + 1;
    }
    PendingEnd(files, path, dest', target, left, index, gens, goal, short);
  }

  lemma TailOfSuffix<T>(kept: seq<T>, stream: seq<T>, limit: nat)
    requires IsSuffix(kept, stream)
    ensures IsSuffix(Last(kept, limit), stream)
    ensures limit <= |kept| || kept == stream ==> Last(kept, limit) == Last(stream, limit)
  {
    var tail := Last(kept, limit);
    assert stream[|stream| - |tail|..] == tail;
  }

  lemma FullGenerations(gens: seq<Bytes>, max: nat, least: nat)
    requires |gens| == max + 1 && forall i :: 1 <= i < |gens| ==> |gens[i]| >= least
    ensures |Chain(gens)| >= max * least
  {
    ChainSize(gens[1..], least);
  }

  /**
   * Whatever was written and rotated, a capture from generation 0 takes a suffix of
   * everything ever logged: exactly the last `limit` bytes retained, and exactly the
   * last `limit` bytes logged if the rotated files are meant to hold that many.
   */
  lemma CaptureEndToEnd(log: Logcat, limit: nat)
    requires log.Valid()
    ensures Chain(Capture(log.gens, 0, limit)) == Last(Chain(log.gens), limit)
    ensures IsSuffix(Chain(Capture(log.gens, 0, limit)), log.stream)
    ensures limit <= log.maxRotated * (1024 * log.rotateKBytes) || log.maxRotated == 0 ==>
              Chain(Capture(log.gens, 0, limit)) == Last(log.stream, limit)
  {
    CaptureIsTail(log.gens, 0, limit);
    TailOfSuffix(Chain(log.gens), log.stream, limit);
    if |log.gens| == log.maxRotated + 1 && log.maxRotated > 0 {
      FullGenerations(log.gens, log.maxRotated, 1024 * log.rotateKBytes);
    }
  }

  lemma {:induction false} ChainSize(gens: seq<Bytes>, least: nat)
    requires forall i :: 0 <= i < |gens| ==> |gens[i]| >= least
    ensures |Chain(gens)| >= |gens| * least
  {
    if gens != [] {
      ChainSize(gens[1..], least);
      assert |gens| * least == (|gens| - 1) * least + least;
    }
  }

  // ---- The names do_copy_circular builds ----

  /** The names it reads; the newest file may lack the extension. */
  function SourceNames(files: Directory, source: string, extension: string, width: nat): Naming
  {
    (i: nat) =>
      if i == 0 then (if source in files then source else source + extension)
      else source + "." + Padded(width, i) + extension
  }

  /** The names it writes. */
  function TargetNames(destination: string, file: string, extra: string, extension: string, width: nat): Naming
  {
    var base := destination + "/" + file + extra;
    (i: nat) => if i == 0 then base + extension else base + "." + Padded(width, i) + extension
  }

  lemma TargetsDistinct(destination: string, file: string, extra: string, extension: string, width: nat)
    ensures Distinct(TargetNames(destination, file, extra, extension, width))
  {
    var name, base := TargetNames(destination, file, extra, extension, width), destination + "/" + file + extra;
    forall i: nat, j: nat | name(i) == name(j)
      ensures i == j
    {
      SuffixedDistinct(base, extension, width, i, j);
    }
  }

  /** For instance, with a tag and an extension. */
  lemma CopyNamesExample()
    ensures TargetNames("/crash", "bplog", "_x", ".istp", 1)(0) == "/crash/bplog_x.istp"
    ensures TargetNames("/crash", "bplog", "_x", ".istp", 1)(2) == "/crash/bplog_x.2.istp"
    ensures SourceNames(map["/logs/bplog" := []], "/logs/bplog", ".istp", 1)(0) == "/logs/bplog"
    ensures SourceNames(map[], "/logs/bplog", ".istp", 1)(0) == "/logs/bplog.istp"
    ensures SourceNames(map[], "/logs/bplog", ".istp", 1)(2) == "/logs/bplog.2.istp"
  {
    assert Padded(1, 2) == Decimal(2) == "2";
  }

  function Suffixed(base: string, extension: string, width: nat, i: nat): string
  {
    if i == 0 then base + extension else base + "." + Padded(width, i) + extension
  }

  lemma SuffixedDistinct(base: string, extension: string, width: nat, i: nat, j: nat)
    requires Suffixed(base, extension, width, i) == Suffixed(base, extension, width, j)
    ensures i == j
  {
    if i != 0 && j != 0 {
      var a, b, n := Padded(width, i), Padded(width, j), |base| + 1;
      var s := Suffixed(base, extension, width, i);
      assert s[n..n + |a|] == a && s[n..n + |b|] == b;
      PaddedInjective(width, i, j);
    } else if i != 0 {
      PaddedNotEmpty(width, i);
    } else if j != 0 {
      PaddedNotEmpty(width, j);
    }
  }

  lemma PaddedNotEmpty(width: nat, i: nat)
    ensures |Padded(width, i)| >= 1
  {
  }

  /** `do_copy_circular`. */
  method DoCopyCircular(files: Directory, source: string, dest: Directory, destination: string, file: string,
                        extension: string, extra: string, limit: nat, start: nat, width: nat, ghost gens: seq<Bytes>)
    returns (rc: int, dest': Directory)
    requires RunsTo(files, SourceNames(files, source, extension, width), start, gens)
    ensures var target := TargetNames(destination, file, extra, extension, width);
            && dest' == StoreAll(dest, target, start, Capture(gens, start, limit))
            && Distinct(target)
    ensures rc < 0 <==> limit > |Chain(From(gens, start))|
  {
    TargetsDistinct(destination, file, extra, extension, width);
    rc, dest' := CopyCircular(files, SourceNames(files, source, extension, width), dest,
                              TargetNames(destination, file, extra, extension, width), limit, start, gens);
  }

  /** A generation number is padded alike for widths 0 and 1. */
  lemma PaddedNarrow(i: nat)
    ensures Padded(0, i) == Padded(1, i)
  {
  }

  /**
   * The two programs agree on the names: logcat pads to the digits of the largest
   * generation, crashlog to the length of the property that holds the same number.
   */
  lemma NamesAgree(files: Directory, base: string, max: nat, property: string, i: nat)
    requires base in files && |property| == |Decimal(max)|
    ensures SourceNames(files, base, "", |property|)(i) == Names(base, Width(max))(i)
  {
    if i > 0 {
      if max == 0 {
        SingleDigit();
        PaddedNarrow(i);
      }
      var name := base + "." + Padded(|property|, i);
      assert name + "" == name;
    }
  }

  lemma SingleDigit()
    ensures |Decimal(0)| == 1
  {
  }

  lemma LogRuns(files: Directory, base: string, max: nat, property: string, gens: seq<Bytes>)
    requires |property| == |Decimal(max)| && gens != [] && Holds(files, Names(base, Width(max)), gens)
    ensures RunsTo(files, SourceNames(files, base, "", |property|), 0, gens)
  {
    var name, path := Names(base, Width(max)), SourceNames(files, base, "", |property|);
    assert Content(files, name, 0) == Some(gens[0]);
    assert name(0) == base;
    forall i: nat
      ensures Content(files, path, i) == Content(files, name, i)
    {
      NamesAgree(files, base, max, property, i);
    }
  }

  /**
   * `copy_aplogs`, end to end: what logcat wrote under its names is captured through the
   * names crashlog builds from the rotation property, and stored under names of its own.
   */
  method CaptureLog(log: Logcat, property: string, dest: Directory, folder: string, file: string, extra: string, limit: nat)
    returns (rc: int, dest': Directory, ghost pieces: seq<Bytes>)
    requires log.Valid() && log.name == Names(log.base, Width(log.maxRotated))
    requires |property| == |Decimal(log.maxRotated)|
    ensures forall i :: 0 <= i < |pieces| ==>
              Content(dest', TargetNames(folder, file, extra, "", |property|), i) == Some(pieces[i])
    ensures Chain(pieces) == Last(Chain(log.gens), limit) && IsSuffix(Chain(pieces), log.stream)
    ensures limit <= log.maxRotated * (1024 * log.rotateKBytes) || log.maxRotated == 0 ==>
              Chain(pieces) == Last(log.stream, limit)
    ensures rc < 0 <==> limit > |Chain(log.gens)|
  {
    pieces := Capture(log.gens, 0, limit);
    ghost var target := TargetNames(folder, file, extra, "", |property|);
    LogRuns(log.files, log.base, log.maxRotated, property, log.gens);
    rc, dest' := DoCopyCircular(log.files, log.base, dest, folder, file, "", extra, limit, 0, |property|, log.gens);
    CaptureEndToEnd(log, limit);
    assert From(log.gens, 0) == log.gens;
    forall i | 0 <= i < |pieces|
      ensures Content(dest', target, i) == Some(pieces[i])
    {
      StoredApart(dest, target, 0, pieces, i);
    }
  }
}
