/**
 * Reading the tail of a file into a ring of lines (cache_file in tail mode) and
 * un-rotating the ring with a quicksort keyed on target positions.
 */
module CacheFile {
  import opened Sequences

  /** A buffer slot: NULL or a line. */
  type Slot = Option<string>

  // ---- The quicksort ----

  /**
   * The keys are distinct positions of `goal`, and every record sits next to the
   * key that says where it belongs.
   */
  ghost predicate Lockstep(records: array<Slot>, keys: array<int>, goal: seq<Slot>)
    reads records, keys
  {
    && records.Length == keys.Length == |goal|
    && (forall i :: 0 <= i < keys.Length ==> 0 <= keys[i] < |goal| && records[i] == goal[keys[i]])
    && (forall i, j :: 0 <= i < j < keys.Length ==> keys[i] != keys[j])
  }

  ghost predicate Between(keys: array<int>, from: int, to: int, lo: int, hi: int)
    reads keys
  {
    forall i :: 0 <= from <= i <= to < keys.Length ==> lo <= keys[i] <= hi
  }

  ghost predicate Ascending(keys: array<int>, from: int, to: int)
    reads keys
  {
    forall i, j :: 0 <= from <= i < j <= to < keys.Length ==> keys[i] < keys[j]
  }

  /** `qs_swap`: exchanges two keys and the two records next to them. */
  method Swap(records: array<Slot>, keys: array<int>, first: int, second: int, ghost goal: seq<Slot>)
    requires Lockstep(records, keys, goal)
    requires 0 <= first < keys.Length && 0 <= second < keys.Length
    modifies records, keys
    ensures Lockstep(records, keys, goal)
    ensures keys[first] == old(keys[second]) && keys[second] == old(keys[first])
    ensures forall i :: 0 <= i < keys.Length && i != first && i != second ==> keys[i] == old(keys[i])
  {
    var itmp := keys[first];
    keys[first] := keys[second];
    keys[second] := itmp;
    var vtmp := records[first];
    records[first] := records[second];
    records[second] := vtmp;
  }

  /** Swapping within a range keeps its bounds and everything outside. */
  lemma SwapInRange(before: seq<int>, keys: array<int>, start: int, end: int, i: int, j: int, lo: int, hi: int)
    requires 0 <= start <= i <= end < keys.Length == |before| && start <= j <= end
    requires forall k :: start <= k <= end ==> lo <= before[k] <= hi
    requires keys[i] == before[j] && keys[j] == before[i]
    requires forall k :: 0 <= k < keys.Length && k != i && k != j ==> keys[k] == before[k]
    ensures Between(keys, start, end, lo, hi)
  {
  }

  /** The keys of [start, j) are small, those of [j, i) are large. */
  ghost predicate Split(keys: array<int>, start: int, j: int, i: int, p: int)
    reads keys
  {
    && (forall k :: 0 <= start <= k < j < keys.Length ==> keys[k] < p)
    && (forall k :: 0 <= j <= k < i < keys.Length ==> keys[k] > p)
  }

  /** `qs_partition`: Lomuto's scheme around the key found at `pivot`. */
  method Partition(records: array<Slot>, keys: array<int>, start: int, end: int, pivot: int,
                   ghost goal: seq<Slot>, ghost lo: int, ghost hi: int)
    returns (j: int)
    requires Lockstep(records, keys, goal)
    requires 0 <= start <= pivot <= end < keys.Length
    requires Between(keys, start, end, lo, hi)
    modifies records, keys
    ensures Lockstep(records, keys, goal)
    ensures forall i :: 0 <= i < keys.Length && !(start <= i <= end) ==> keys[i] == old(keys[i])
    ensures start <= j <= end
    ensures Between(keys, start, end, lo, hi)
    ensures Between(keys, start, j - 1, lo, keys[j] - 1)
    ensures Between(keys, j + 1, end, keys[j] + 1, hi)
  {
    ghost var before := keys[..];
    Swap(records, keys, pivot, end, goal);
    SwapInRange(before, keys, start, end, pivot, end, lo, hi);
    j := PartitionLoop(records, keys, start, end, goal, lo, hi);
    ghost var looped := keys[..];
    Swap(records, keys, end, j, goal);
    SwapInRange(looped, keys, start, end, end, j, lo, hi);
  }

  /** The loop of qs_partition, with the pivot key at `end`. */
  method PartitionLoop(records: array<Slot>, keys: array<int>, start: int, end: int,
                       ghost goal: seq<Slot>, ghost lo: int, ghost hi: int)
    returns (j: int)
    requires Lockstep(records, keys, goal)
    requires 0 <= start <= end < keys.Length
    requires Between(keys, start, end, lo, hi)
    modifies records, keys
    ensures Lockstep(records, keys, goal)
    ensures forall i :: 0 <= i < keys.Length && !(start <= i < end) ==> keys[i] == old(keys[i])
    ensures start <= j <= end && Between(keys, start, end, lo, hi) && Split(keys, start, j, end, keys[end])
  {
    j := start;
    for i := start to end
      invariant start <= j <= i
      invariant Lockstep(records, keys, goal)
      invariant forall k :: 0 <= k < keys.Length && !(start <= k < end) ==> keys[k] == old(keys[k])
      invariant Between(keys, start, end, lo, hi)
      invariant Split(keys, start, j, i, keys[end])
    {
      if keys[i] <= keys[end] {
        ghost var before := keys[..];
        assert keys[i] != keys[end];
        Swap(records, keys, i, j, goal);
        SwapInRange(before, keys, start, end, i, j, lo, hi);
        j := j + 1;
      }
    }
  }

  /** `__quicksort`: sorts the keys of [start, end] in place, moving the records along. */
  method SortRange(records: array<Slot>, keys: array<int>, start: int, end: int,
                   ghost goal: seq<Slot>, ghost lo: int, ghost hi: int)
    requires Lockstep(records, keys, goal)
    requires 0 <= start <= end + 1 <= keys.Length
    requires Between(keys, start, end, lo, hi)
    modifies records, keys
    ensures Lockstep(records, keys, goal)
    ensures forall i :: 0 <= i < keys.Length && !(start <= i <= end) ==> keys[i] == old(keys[i])
    ensures Between(keys, start, end, lo, hi)
    ensures Ascending(keys, start, end)
    decreases end - start
  {
    if start < end {
      var pivot := Partition(records, keys, start, end, start, goal, lo, hi);
      ghost var p := keys[pivot];
      SortRange(records, keys, start, pivot - 1, goal, lo, p - 1);
      assert Between(keys, pivot + 1, end, p + 1, hi);
      label Left:
      SortRange(records, keys, pivot + 1, end, goal, p + 1, hi);
      assert forall i :: start <= i <= pivot ==> keys[i] == old@Left(keys[i]);
      assert Between(keys, start, pivot - 1, lo, p - 1) && Ascending(keys, start, pivot - 1);
      JoinRanges(keys, start, pivot, end, lo, hi);
    }
  }

  lemma JoinRanges(keys: array<int>, start: int, pivot: int, end: int, lo: int, hi: int)
    requires 0 <= start <= pivot <= end < keys.Length && lo <= keys[pivot] <= hi
    requires Between(keys, start, pivot - 1, lo, keys[pivot] - 1) && Ascending(keys, start, pivot - 1)
    requires Between(keys, pivot + 1, end, keys[pivot] + 1, hi) && Ascending(keys, pivot + 1, end)
    ensures Between(keys, start, end, lo, hi) && Ascending(keys, start, end)
  {
  }

  /** Distinct ascending keys that fill their range are the identity. */
  lemma {:induction false} AscendingIsIdentity(keys: array<int>, k: nat)
    requires forall i :: 0 <= i < keys.Length ==> 0 <= keys[i] < keys.Length
    requires Ascending(keys, 0, keys.Length - 1) && k < keys.Length
    ensures k <= keys[k] && keys[keys.Length - 1 - k] <= keys.Length - 1 - k
  {
    if k > 0 {
      AscendingIsIdentity(keys, k - 1);
      assert keys[k - 1] < keys[k];
      assert keys[keys.Length - 1 - k] < keys[keys.Length - k];
    }
  }

  /** What the un-rotation is for: slot `pivot` becomes slot 0. */
  function Rotated<T>(s: seq<T>, pivot: nat): seq<T>
    requires pivot <= |s|
  {
    s[pivot..] + s[..pivot]
  }

  /** The target position of every slot: the rotation by `pivot`, as keys. */
  method TargetKeys(dim: nat, pivot: nat) returns (keys: array<int>)
    requires pivot <= dim
    ensures fresh(keys) && keys.Length == dim
    ensures forall k :: 0 <= k < dim ==> keys[k] == if k < pivot then dim - pivot + k else k - pivot
  {
    keys := new int[dim];
    var diff := dim - pivot;
    for i := 0 to dim
      invariant forall k :: 0 <= k < i ==> keys[k] == if k < pivot then diff + k else k - pivot
    {
      keys[i] := if i < pivot then diff + i else i - pivot;
    }
  }

  /** `quicksort(array, dim, pivot)`: rotates the records left by `pivot`, in place. */
  method Quicksort(records: array<Slot>, pivot: nat)
    requires pivot <= records.Length
    modifies records
    ensures records[..] == Rotated(old(records[..]), pivot)
  {
    var dim := records.Length;
    var keys := TargetKeys(dim, pivot);
    ghost var goal := Rotated(records[..], pivot);
    LockstepInitially(records, keys, pivot);
    SortRange(records, keys, 0, dim - 1, goal, 0, dim - 1);
    LockstepFinally(records, keys, goal);
  }

  lemma LockstepInitially(records: array<Slot>, keys: array<int>, pivot: nat)
    requires keys.Length == records.Length && pivot <= records.Length
    requires forall k :: 0 <= k < keys.Length ==> keys[k] == if k < pivot then keys.Length - pivot + k else k - pivot
    ensures Lockstep(records, keys, Rotated(records[..], pivot))
    ensures Between(keys, 0, keys.Length - 1, 0, keys.Length - 1)
  {
  }

  lemma LockstepFinally(records: array<Slot>, keys: array<int>, goal: seq<Slot>)
    requires Lockstep(records, keys, goal) && Ascending(keys, 0, keys.Length - 1)
    ensures records[..] == goal
  {
    forall k | 0 <= k < keys.Length
      ensures records[k] == goal[k]
    {
      AscendingIsIdentity(keys, k);
      AscendingIsIdentity(keys, keys.Length - 1 - k);
    }
  }

  // ---- The loader ----

  function Filled(lines: seq<string>): (slots: seq<Slot>)
    ensures |slots| == |lines| && forall i :: 0 <= i < |lines| ==> slots[i] == Some(lines[i])
  {
    if lines == [] then [] else Filled(lines[..|lines| - 1]) + [Some(lines[|lines| - 1])]
  }

  function Empty(n: nat): (slots: seq<Slot>)
    ensures |slots| == n && forall i :: 0 <= i < n ==> slots[i] == None
  {
    if n == 0 then [] else Empty(n - 1) + [None]
  }

  /** The ring after `lines` were stored one after the other, the next one going to slot `cur`. */
  ghost predicate RingHolds(ring: seq<Slot>, cur: nat, lines: seq<string>)
  {
    && cur < |ring|
    && if |lines| < |ring| then cur == |lines| && ring == Filled(lines) + Empty(|ring| - |lines|)
       else Rotated(ring, cur) == Filled(Last(lines, |ring|))
  }

  /** Storing one more line keeps the correspondence, overwriting the oldest line when full. */
  lemma RingStore(ring: seq<Slot>, cur: nat, lines: seq<string>, line: string)
    requires RingHolds(ring, cur, lines)
    ensures RingHolds(ring[cur := Some(line)], Advance(cur, |ring|), lines + [line])
  {
    var ring', n := ring[cur := Some(line)], |ring|;
    var cur' := Advance(cur, n);
    if |lines| + 1 < n {
      assert ring' == Filled(lines + [line]) + Empty(n - |lines| - 1);
    } else if |lines| < n {
      assert ring' == Filled(lines + [line]);
      assert Rotated(ring', 0) == ring';
    } else {
      var newest := Last(lines, n);
      assert Last(lines + [line], n) == newest[1..] + [line];
      assert Rotated(ring', cur') == Rotated(ring, cur)[1..] + [Some(line)];
      assert Filled(newest[1..] + [line]) == Filled(newest)[1..] + [Some(line)];
    }
  }

  const EINVAL := 22

  /** Initialises the buffer to NULL pointers. */
  method ClearAll(records: array<Slot>)
    modifies records
    ensures records[..] == Empty(records.Length)
  {
    for i := 0 to records.Length
      invariant forall k :: 0 <= k < i ==> records[k] == None
    {
      records[i] := None;
    }
  }

  /** The lines of `file` from `offset` on, as far as `idx` lines have been read. */
  function LinesRead(file: seq<string>, offset: nat, idx: nat): seq<string>
    requires idx <= |file|
  {
    if idx <= offset then [] else file[offset..idx]
  }

  function LinesFrom(file: seq<string>, offset: nat): seq<string> { LinesRead(file, offset, |file|) }

  /** The ring after `read`, with the number of lines it holds. */
  ghost predicate Reading(records: array<Slot>, cur: nat, count: nat, read: seq<string>)
    reads records
  {
    RingHolds(records[..], cur, read) && count == Min(|read|, records.Length)
  }

  /** Stores one line, over the oldest one when the ring is full. */
  method StoreLine(records: array<Slot>, cur: nat, count: nat, line: string, ghost read: seq<string>)
    returns (cur': nat, count': nat)
    requires Reading(records, cur, count, read)
    modifies records
    ensures Reading(records, cur', count', read + [line])
  {
    RingStore(records[..], cur, read, line);
    records[cur] := Some(line);
    cur' := NextIndex(cur, records.Length);
    count' := if count < records.Length then count + 1 else count;
  }

  /** The ring-filling loop: `cur` is where the next line would go. */
  method FillRing(file: seq<string>, records: array<Slot>, offset: nat) returns (cur: nat, count: nat)
    requires records.Length > 0 && records[..] == Empty(records.Length)
    modifies records
    ensures Reading(records, cur, count, LinesFrom(file, offset))
  {
    cur, count := 0, 0;
    StartReading(records);
    for idx := 0 to |file|
      invariant Reading(records, cur, count, LinesRead(file, offset, idx))
    {
      cur, count := ReadOne(file, records, offset, idx, cur, count);
    }
  }

  lemma StartReading(records: array<Slot>)
    requires records.Length > 0 && records[..] == Empty(records.Length)
    ensures Reading(records, 0, 0, [])
  {
    assert records[..] == Filled([]) + Empty(records.Length);
  }

  /** One round of the loop: lines before the offset are skipped. */
  method ReadOne(file: seq<string>, records: array<Slot>, offset: nat, idx: nat, cur: nat, count: nat)
    returns (cur': nat, count': nat)
    requires idx < |file| && Reading(records, cur, count, LinesRead(file, offset, idx))
    modifies records
    ensures Reading(records, cur', count', LinesRead(file, offset, idx + 1))
  {
    ghost var read := LinesRead(file, offset, idx);
    if idx >= offset {
      assert LinesRead(file, offset, idx + 1) == read + [file[idx]];
      cur', count' := StoreLine(records, cur, count, file[idx], read);
    } else {
      cur', count' := cur, count;
    }
  }

  /**
   * `cache_file` in tail mode: the buffer receives the last `records.Length` of the
   * lines from `offset` on, in file order, followed by NULL slots, and the number of
   * lines stored is returned.
   */
  method CacheTail(file: seq<string>, records: array<Slot>, offset: int) returns (res: int)
    modifies records
    ensures offset < 0 ==> res == -EINVAL && records[..] == old(records[..])
    ensures offset >= 0 ==>
              var lines := LinesFrom(file, offset);
              && res == Min(|lines|, records.Length)
              && records[..] == Filled(Last(lines, records.Length)) + Empty(records.Length - res)
  {
    if offset < 0 {
      return -EINVAL;
    }
    if records.Length == 0 {
      assert records[..] == [];
      return 0;
    }
    ClearAll(records);
    var cur, count := FillRing(file, records, offset);
    ghost var lines, ring := LinesFrom(file, offset), records[..];
    if count == records.Length && cur != 0 {
      Quicksort(records, cur);
    }
    assert count == records.Length && cur == 0 ==> Rotated(ring, 0) == ring;
    assert count == records.Length ==> records[..] == Filled(Last(lines, records.Length)) + Empty(0);
    res := count;
  }
}
