/**
 * What every run of the event engine keeps. A run is any sequence of processed
 * items in which end-of-file, if present, comes last.
 */
module EngineLaws {
  import opened Sequences
  import opened Time
  import opened EventEngine

  // ---- Shape of records ----

  /** A line that makes the open record valid; an end line never does. */
  predicate Validates(cfg: Config, li: LogItem)
  {
    Matches(cfg.valid, li.msg) && !Matches(cfg.end, li.msg)
  }

  /** A line the open record takes without being closed or reopened by it. */
  predicate Continues(cfg: Config, li: LogItem)
  {
    && !li.eof && !Matches(cfg.start, li.msg) && !Matches(cfg.end, li.msg)
    && (Matches(cfg.valid, li.msg) || MatchesBody(cfg.body, li.msg))
  }

  predicate Ends(cfg: Config, li: LogItem)
  {
    !li.eof && !Matches(cfg.start, li.msg) && Matches(cfg.end, li.msg)
  }

  /** Item `i` is the last one that validates. */
  ghost predicate LastValidator(cfg: Config, items: seq<LogItem>, i: int)
  {
    1 <= i < |items| && Validates(cfg, items[i]) && forall j :: i < j < |items| ==> !Validates(cfg, items[j])
  }

  /**
   * Whether a record of these items is valid and what it captured: without a validation
   * pattern it is, with the captures of its start; otherwise the last validating item decides.
   */
  ghost predicate Judged(cfg: Config, r: Record)
  {
    if cfg.valid.None? then r.valid && r.items != [] && cfg.start.Some? && r.captures == cfg.start.value.captures(r.items[0].msg)
    else if r.valid then
      exists i :: LastValidator(cfg, r.items, i) && r.captures == cfg.valid.value.captures(r.items[i].msg)
    else forall i :: 1 <= i < |r.items| ==> !Validates(cfg, r.items[i])
  }

  /** A record is opened by a start match, goes on with continuing lines, may close with an end line, and never overfills. */
  ghost predicate RecordOk(cfg: Config, r: Record)
  {
    && 1 <= |r.items| <= cfg.maxItems
    && !r.items[0].eof && Matches(cfg.start, r.items[0].msg)
    && (forall i :: 1 <= i < |r.items| ==>
          Continues(cfg, r.items[i]) || (i == |r.items| - 1 && Ends(cfg, r.items[i])))
    && Judged(cfg, r)
  }

  /** An open record has room left and has not met an end line. */
  ghost predicate OpenOk(cfg: Config, o: Option<Record>)
  {
    o.Some? ==>
      && RecordOk(cfg, o.value) && |o.value.items| < cfg.maxItems
      && forall i :: 1 <= i < |o.value.items| ==> Continues(cfg, o.value.items[i])
  }

  function ItemsOf(o: Option<Record>): seq<LogItem>
  {
    if o.None? then [] else o.value.items
  }

  /** The engine after at most one record is closed and the open record is replaced. */
  function Settle(cfg: Config, e: Engine, closing: Option<Record>, open: Option<Record>): Engine
  {
    (if closing.None? then e else AddRecord(cfg, e, closing.value)).(record := open)
  }

  lemma TakenJudged(cfg: Config, r: Record, li: LogItem)
    requires r.items != [] && Judged(cfg, r) && Taken(cfg, r, li).Some?
    ensures Judged(cfg, Taken(cfg, r, li).value)
  {
    var t, n := Taken(cfg, r, li).value, |r.items|;
    assert t.items == r.items + [li];
    if cfg.valid.Some? {
      if Validates(cfg, li) {
        assert LastValidator(cfg, t.items, n);
      } else if r.valid {
        var i :| LastValidator(cfg, r.items, i) && r.captures == cfg.valid.value.captures(r.items[i].msg);
        assert LastValidator(cfg, t.items, i) && t.items[i] == r.items[i];
      }
    }
  }

  lemma TakenOk(cfg: Config, r: Record, li: LogItem)
    requires OpenOk(cfg, Some(r)) && !li.eof && !Matches(cfg.start, li.msg)
    ensures var t := Taken(cfg, r, li);
            t.Some? ==>
              && t.value.items == r.items + [li] && RecordOk(cfg, t.value)
              && (!Matches(cfg.end, li.msg) && |r.items| + 1 < cfg.maxItems ==> OpenOk(cfg, t))
  {
    var t := Taken(cfg, r, li);
    if t.Some? {
      TakenJudged(cfg, r, li);
      var s := t.value.items;
      assert s == r.items + [li] && s[|r.items|] == li;
      assert forall i :: 0 <= i < |r.items| ==> s[i] == r.items[i];
    }
  }

  /** How many records there are in `o`. */
  function Count<T>(o: Option<T>): nat { if o.Some? then 1 else 0 }

  predicate Opens(cfg: Config, li: LogItem) { !li.eof && Matches(cfg.start, li.msg) }

  // ---- Which lines a record takes, and when it closes: the reference ----

  /** The line becomes part of a record: it opens one, or continues or ends the open one. */
  predicate Takes(cfg: Config, open: seq<LogItem>, li: LogItem)
  {
    Opens(cfg, li) || (open != [] && (Continues(cfg, li) || Ends(cfg, li)))
  }

  /** The items of the record that is current once the line was looked at. */
  function Group(cfg: Config, open: seq<LogItem>, li: LogItem): seq<LogItem>
  {
    if Opens(cfg, li) then [li] else if Takes(cfg, open, li) then open + [li] else open
  }

  /** That record goes on: no end line, not full, and less than the flush timeout old, in microseconds. */
  predicate Remains(cfg: Config, open: seq<LogItem>, li: LogItem)
  {
    var group := Group(cfg, open, li);
    && group != [] && !li.eof && !Ends(cfg, li) && |group| < cfg.maxItems
    && li.ts.Micros() - group[0].ts.Micros() < cfg.flushTimeout * USEC_IN_SEC
  }

  /** The items of the open record after the line. */
  function StillOpen(cfg: Config, open: seq<LogItem>, li: LogItem): seq<LogItem>
  {
    if Remains(cfg, open, li) then Group(cfg, open, li) else []
  }

  /** The groups of items closed by the line: the record it displaces, and the current one unless it goes on. */
  function Closes(cfg: Config, open: seq<LogItem>, li: LogItem): seq<seq<LogItem>>
  {
    (if Opens(cfg, li) && open != [] then [open] else []) +
    (if Group(cfg, open, li) != [] && !Remains(cfg, open, li) then [Group(cfg, open, li)] else [])
  }

  function Groups(o: Option<Record>): seq<seq<LogItem>>
  {
    if o.None? then [] else [o.value.items]
  }

  lemma AgedExactly(cfg: Config, now: TimeVal, since: TimeVal)
    ensures Aged(cfg, now, since) <==> now.Micros() - since.Micros() >= cfg.flushTimeout * USEC_IN_SEC
  {
  }

  /**
   * Normal form of one `process` call before delivery: at most one record is closed,
   * the groups closed and the group still open are those of the reference, and every
   * record is well formed.
   */
  ghost predicate Gathered(cfg: Config, e: Engine, li: LogItem, closing: Option<Record>, open: Option<Record>)
    requires OpenOk(cfg, e.record)
  {
    Shaped(cfg, e, li, closing, open) && Grouped(cfg, e, li, closing, open)
  }

  ghost predicate Shaped(cfg: Config, e: Engine, li: LogItem, closing: Option<Record>, open: Option<Record>)
    requires OpenOk(cfg, e.record)
  {
    && Gather(cfg, e, li) == Settle(cfg, e, closing, open)
    && (closing.Some? ==> RecordOk(cfg, closing.value))
    && OpenOk(cfg, open)
    && (li.eof ==> open.None?)
    && (open.Some? ==> !Aged(cfg, li.ts, open.value.Timestamp()))
    && Count(closing) + Count(open) == Count(e.record) + (if Opens(cfg, li) then 1 else 0)
    && (closing.Some? ==> closing.value.items[0] == if e.record.Some? then e.record.value.items[0] else li)
    && (open.Some? ==> open.value.items[0] == li ||
                       (closing.None? && e.record.Some? && open.value.items[0] == e.record.value.items[0]))
  }

  ghost predicate Grouped(cfg: Config, e: Engine, li: LogItem, closing: Option<Record>, open: Option<Record>)
  {
    && Groups(closing) == Closes(cfg, ItemsOf(e.record), li)
    && ItemsOf(open) == StillOpen(cfg, ItemsOf(e.record), li)
    && ItemsOf(closing) + ItemsOf(open) == ItemsOf(e.record) + (if Takes(cfg, ItemsOf(e.record), li) then [li] else [])
  }

  lemma GatherNormal(cfg: Config, e: Engine, li: LogItem) returns (closing: Option<Record>, open: Option<Record>)
    requires cfg.Valid() && OpenOk(cfg, e.record)
    ensures Gathered(cfg, e, li, closing, open)
  {
    if li.eof {
      closing, open := e.record, None;
    } else if Matches(cfg.start, li.msg) {
      closing, open := GatherStart(cfg, e, li);
    } else if e.record.None? {
      closing, open := None, None;
    } else {
      closing, open := GatherMore(cfg, e, li);
    }
  }

  /** What the reference says of a line that opens no record, while one is open. */
  lemma MoreGroups(cfg: Config, open: seq<LogItem>, li: LogItem, now: seq<LogItem>)
    requires open != [] && |open| < cfg.maxItems && !li.eof && !Matches(cfg.start, li.msg)
    requires now == open + (if Takes(cfg, open, li) then [li] else [])
    ensures Remains(cfg, open, li) <==>
            !(Takes(cfg, open, li) && (Ends(cfg, li) || |now| >= cfg.maxItems)) &&
            li.ts.Micros() - open[0].ts.Micros() < cfg.flushTimeout * USEC_IN_SEC
    ensures Closes(cfg, open, li) == if Remains(cfg, open, li) then [] else [now]
    ensures StillOpen(cfg, open, li) == if Remains(cfg, open, li) then now else []
  {
    assert Group(cfg, open, li) == now && now[0] == open[0];
  }

  lemma TakenExactly(cfg: Config, r: Record, li: LogItem)
    requires r.items != [] && !li.eof && !Matches(cfg.start, li.msg)
    ensures Taken(cfg, r, li).Some? <==> Takes(cfg, r.items, li)
    ensures Taken(cfg, r, li).Some? ==> Taken(cfg, r, li).value.items == r.items + [li]
  {
  }

  lemma GatherStart(cfg: Config, e: Engine, li: LogItem) returns (closing: Option<Record>, open: Option<Record>)
    requires cfg.Valid() && OpenOk(cfg, e.record) && !li.eof && Matches(cfg.start, li.msg)
    ensures Gathered(cfg, e, li, closing, open)
  {
    var fresh' := Opened(cfg, li);
    assert RecordOk(cfg, fresh');
    if cfg.maxItems == 1 {
      closing, open := Some(fresh'), None;
    } else {
      closing, open := e.record, Some(fresh');
    }
  }

  /** The open record once it has seen a line that opens none. */
  function Looked(cfg: Config, r: Record, li: LogItem): Record
  {
    var taken := Taken(cfg, r, li);
    if taken.None? then r else taken.value
  }

  /** Whether that line closes it. */
  predicate Shuts(cfg: Config, r: Record, li: LogItem)
  {
    || (Taken(cfg, r, li).Some? && (Matches(cfg.end, li.msg) || |Looked(cfg, r, li).items| >= cfg.maxItems))
    || Aged(cfg, li.ts, Looked(cfg, r, li).Timestamp())
  }

  lemma GatherMore(cfg: Config, e: Engine, li: LogItem) returns (closing: Option<Record>, open: Option<Record>)
    requires OpenOk(cfg, e.record) && e.record.Some? && !li.eof && !Matches(cfg.start, li.msg)
    ensures Gathered(cfg, e, li, closing, open)
  {
    var now, shuts := Looked(cfg, e.record.value, li), Shuts(cfg, e.record.value, li);
    closing, open := if shuts then Some(now) else None, if shuts then None else Some(now);
    MoreShaped(cfg, e, li, closing, open);
    MoreGrouped(cfg, e, li, closing, open);
  }

  lemma MoreShaped(cfg: Config, e: Engine, li: LogItem, closing: Option<Record>, open: Option<Record>)
    requires OpenOk(cfg, e.record) && e.record.Some? && !li.eof && !Matches(cfg.start, li.msg)
    requires closing == if Shuts(cfg, e.record.value, li) then Some(Looked(cfg, e.record.value, li)) else None
    requires open == if Shuts(cfg, e.record.value, li) then None else Some(Looked(cfg, e.record.value, li))
    ensures Shaped(cfg, e, li, closing, open)
  {
    TakenOk(cfg, e.record.value, li);
    assert Looked(cfg, e.record.value, li).Timestamp() == e.record.value.Timestamp();
  }

  lemma MoreGrouped(cfg: Config, e: Engine, li: LogItem, closing: Option<Record>, open: Option<Record>)
    requires OpenOk(cfg, e.record) && e.record.Some? && !li.eof && !Matches(cfg.start, li.msg)
    requires closing == if Shuts(cfg, e.record.value, li) then Some(Looked(cfg, e.record.value, li)) else None
    requires open == if Shuts(cfg, e.record.value, li) then None else Some(Looked(cfg, e.record.value, li))
    ensures Grouped(cfg, e, li, closing, open)
  {
    var r, now := e.record.value, Looked(cfg, e.record.value, li);
    TakenExactly(cfg, r, li);
    AgedExactly(cfg, li.ts, r.Timestamp());
    assert now.Timestamp() == r.Timestamp();
    MoreGroups(cfg, r.items, li, now.items);
  }

  // ---- The books: nothing is lost, nothing is counted twice ----

  ghost predicate Books(cfg: Config, e: Engine)
  {
    && e.flushCount == |e.events|
    && OfFate(e.closed, Accepted) == EventRecords(e.events) + e.records
    && |OfFate(e.closed, Suspended)| == Reported(e.events) + e.suspendCount
  }

  /** Of the records suspended since the last flush, the newest ones are kept. */
  ghost predicate Kept(cfg: Config, e: Engine)
    requires Books(cfg, e)
  {
    e.suspendRecords == Last(OfFate(e.closed, Suspended)[Reported(e.events)..], cfg.maxSuspendRecords)
  }

  /** Event k dumped the newest of the records suspended between flush k-1 and flush k. */
  ghost predicate Dumped(cfg: Config, e: Engine, k: nat)
    requires Books(cfg, e) && k < |e.events|
  {
    var from, to := Reported(e.events[..k]), Reported(e.events[..k + 1]);
    && from <= to <= |OfFate(e.closed, Suspended)|
    && e.events[k].suspended == to - from
    && e.events[k].saved == Last(OfFate(e.closed, Suspended)[from..to], cfg.maxSuspendRecords)
  }

  lemma OfFateAppend(closed: seq<Closed>, c: Closed, fate: Fate)
    ensures OfFate(closed + [c], fate) == OfFate(closed, fate) + (if c.fate == fate then [c.record] else [])
  {
    assert (closed + [c])[..|closed + [c]| - 1] == closed;
  }

  lemma EventsAppend(events: seq<Event>, ev: Event)
    ensures EventRecords(events + [ev]) == EventRecords(events) + ev.records
    ensures Reported(events + [ev]) == Reported(events) + ev.suspended
  {
    assert (events + [ev])[..|events + [ev]| - 1] == events;
  }

  lemma LastPush<T>(s: seq<T>, x: T, n: nat)
    requires n >= 1
    ensures Last(s + [x], n) == if |s| + 1 > n then (Last(s, n) + [x])[1..] else Last(s, n) + [x]
  {
  }

  lemma BooksAdd(cfg: Config, e: Engine, r: Record)
    requires Books(cfg, e) && Kept(cfg, e)
    ensures Books(cfg, AddRecord(cfg, e, r)) && Kept(cfg, AddRecord(cfg, e, r))
  {
    var e' := AddRecord(cfg, e, r);
    var c := e'.closed[|e.closed|];
    assert e'.closed == e.closed + [c];
    OfFateAppend(e.closed, c, Accepted);
    OfFateAppend(e.closed, c, Suspended);
    if c.fate == Suspended {
      var sus, from := OfFate(e.closed, Suspended), Reported(e.events);
      assert (sus + [r])[from..] == sus[from..] + [r];
      if cfg.maxSuspendRecords >= 1 {
        LastPush(sus[from..], r, cfg.maxSuspendRecords);
      }
    }
  }

  /** Later suspensions do not change what an event dumped. */
  lemma DumpedStays(cfg: Config, e: Engine, r: Record, k: nat)
    requires Books(cfg, e) && Books(cfg, AddRecord(cfg, e, r)) && k < |e.events| && Dumped(cfg, e, k)
    ensures Dumped(cfg, AddRecord(cfg, e, r), k)
  {
    var e' := AddRecord(cfg, e, r);
    var c := e'.closed[|e.closed|];
    assert e'.closed == e.closed + [c];
    OfFateAppend(e.closed, c, Suspended);
    var sus, from, to := OfFate(e.closed, Suspended), Reported(e.events[..k]), Reported(e.events[..k + 1]);
    assert OfFate(e'.closed, Suspended)[from..to] == sus[from..to];
  }

  lemma BooksSettle(cfg: Config, e: Engine, closing: Option<Record>, open: Option<Record>)
    requires Books(cfg, e) && Kept(cfg, e)
    requires forall k :: 0 <= k < |e.events| ==> Dumped(cfg, e, k)
    ensures var e' := Settle(cfg, e, closing, open);
            Books(cfg, e') && Kept(cfg, e') && forall k :: 0 <= k < |e'.events| ==> Dumped(cfg, e', k)
  {
    var a := if closing.None? then e else AddRecord(cfg, e, closing.value);
    if closing.Some? {
      BooksAdd(cfg, e, closing.value);
    }
    forall k | 0 <= k < |a.events|
      ensures Dumped(cfg, a, k) && Dumped(cfg, a.(record := open), k)
    {
      assert Dumped(cfg, e, k);
      if closing.Some? {
        DumpedStays(cfg, e, closing.value, k);
      }
    }
  }

  lemma BooksFlush(cfg: Config, e: Engine)
    requires Books(cfg, e) && Kept(cfg, e) && e.records != []
    requires forall k :: 0 <= k < |e.events| ==> Dumped(cfg, e, k)
    ensures var e' := Flush(cfg, e);
            Books(cfg, e') && Kept(cfg, e') && forall k :: 0 <= k < |e'.events| ==> Dumped(cfg, e', k)
  {
    var e' := Flush(cfg, e);
    LedgerFlush(cfg, e);
    forall k | 0 <= k < |e'.events|
      ensures Dumped(cfg, e', k)
    {
      if k < |e.events| {
        assert Dumped(cfg, e, k);
        assert e'.events[..k] == e.events[..k] && e'.events[..k + 1] == e.events[..k + 1];
      } else {
        assert e'.events[..k] == e.events && e'.events[..k + 1] == e'.events;
        DumpsAll(cfg, e);
      }
    }
  }

  lemma LedgerFlush(cfg: Config, e: Engine)
    requires Books(cfg, e) && Kept(cfg, e) && e.records != []
    ensures Books(cfg, Flush(cfg, e)) && Kept(cfg, Flush(cfg, e))
    ensures Reported(Flush(cfg, e).events) == |OfFate(e.closed, Suspended)|
  {
    var e' := Flush(cfg, e);
    EventsAppend(e.events, e'.events[|e.events|]);
    assert OfFate(e.closed, Suspended)[Reported(e'.events)..] == [];
  }

  /** The new event dumps what was kept, the newest of all suspended since the flush before. */
  lemma DumpsAll(cfg: Config, e: Engine)
    requires Books(cfg, e) && Kept(cfg, e) && e.records != []
    ensures var ev, sus := Flush(cfg, e).events[|e.events|], OfFate(e.closed, Suspended);
            ev.suspended == |sus| - Reported(e.events) && ev.saved == Last(sus[Reported(e.events)..|sus|], cfg.maxSuspendRecords)
  {
    var sus := OfFate(e.closed, Suspended);
    assert sus[Reported(e.events)..] == sus[Reported(e.events)..|sus|];
  }

  // ---- Suspend window and event log ----

  /** While records are pending they lie beyond the window opened by the last event. */
  ghost predicate Window(cfg: Config, e: Engine)
  {
    cfg.suspendInterval > 0 ==>
      && (forall i :: 0 <= i < |e.records| ==> Less(e.suspendUntil, e.records[i].Timestamp()))
      && (e.events != [] ==>
            e.suspendUntil == Plus(e.events[|e.events| - 1].ts, Seconds(cfg.suspendInterval)))
  }

  /** Consecutive events are more than the suspend interval apart. */
  ghost predicate Spaced(cfg: Config, events: seq<Event>)
  {
    cfg.suspendInterval > 0 ==>
      forall k :: 0 <= k < |events| - 1 ==>
        Less(Plus(events[k].ts, Seconds(cfg.suspendInterval)), events[k + 1].ts)
  }

  /** The event log holds the newest maxEventCount + 1 event times, newest first. */
  ghost predicate Logged(cfg: Config, e: Engine)
  {
    if cfg.maxEventInterval == 0 then e.eventLog == []
    else
      && |e.eventLog| == Min(|e.events|, cfg.maxEventCount + 1)
      && forall i :: 0 <= i < |e.eventLog| ==> e.eventLog[i] == e.events[|e.events| - 1 - i].ts
  }

  ghost predicate EventOk(cfg: Config, ev: Event)
  {
    && 1 <= |ev.records| <= cfg.maxRecords
    && ev.ts == ev.records[0].Timestamp()
    && forall i :: 0 <= i < |ev.records| ==> ev.records[i].valid && RecordOk(cfg, ev.records[i])
  }

  /** The books, the event log and the spacing, which only flushes and closings touch. */
  ghost predicate Accounts(cfg: Config, e: Engine)
  {
    && Books(cfg, e)
    && (forall k :: 0 <= k < |e.events| ==> Dumped(cfg, e, k))
    && Logged(cfg, e)
    && Spaced(cfg, e.events)
  }

  ghost predicate Shapes(cfg: Config, e: Engine)
  {
    && OpenOk(cfg, e.record)
    && (forall i :: 0 <= i < |e.records| ==> e.records[i].valid && RecordOk(cfg, e.records[i]))
    && (forall k :: 0 <= k < |e.events| ==> EventOk(cfg, e.events[k]))
  }

  /** What holds between two calls of `process`. */
  ghost predicate Sound(cfg: Config, e: Engine)
  {
    Shapes(cfg, e) && |e.records| < cfg.maxRecords && Accounts(cfg, e)
  }

  /** Additionally, as long as no end-of-file was processed. */
  ghost predicate Alive(cfg: Config, e: Engine)
    requires Sound(cfg, e)
  {
    Kept(cfg, e) && Window(cfg, e)
  }

  lemma FlushAccounts(cfg: Config, e: Engine)
    requires cfg.Valid() && e.records != [] && Accounts(cfg, e) && Kept(cfg, e) && Window(cfg, e)
    ensures Accounts(cfg, Flush(cfg, e)) && Kept(cfg, Flush(cfg, e))
  {
    BooksFlush(cfg, e);
    FlushLogs(cfg, e);
    FlushSpaces(cfg, e);
  }

  lemma FlushLogs(cfg: Config, e: Engine)
    requires e.records != [] && Logged(cfg, e)
    ensures Logged(cfg, Flush(cfg, e))
  {
  }

  lemma FlushSpaces(cfg: Config, e: Engine)
    requires e.records != [] && Spaced(cfg, e.events) && Window(cfg, e)
    ensures Spaced(cfg, Flush(cfg, e).events)
  {
  }

  lemma FlushShapes(cfg: Config, e: Engine)
    requires e.records != [] && |e.records| <= cfg.maxRecords && Shapes(cfg, e)
    ensures Shapes(cfg, Flush(cfg, e))
  {
  }

  lemma SettleShapes(cfg: Config, e: Engine, closing: Option<Record>, open: Option<Record>)
    requires Shapes(cfg, e) && OpenOk(cfg, open) && (closing.Some? ==> RecordOk(cfg, closing.value))
    ensures Shapes(cfg, Settle(cfg, e, closing, open))
    ensures |Settle(cfg, e, closing, open).records| <= |e.records| + 1
  {
  }

  lemma SettleAccounts(cfg: Config, e: Engine, closing: Option<Record>, open: Option<Record>)
    requires Accounts(cfg, e) && Kept(cfg, e) && Window(cfg, e)
    ensures var g := Settle(cfg, e, closing, open); Accounts(cfg, g) && Kept(cfg, g) && Window(cfg, g)
  {
    BooksSettle(cfg, e, closing, open);
    SettleWindow(cfg, e, closing, open);
    assert Logged(cfg, Settle(cfg, e, closing, open));
  }

  /** A record that becomes pending lies beyond the window. */
  lemma SettleWindow(cfg: Config, e: Engine, closing: Option<Record>, open: Option<Record>)
    requires Window(cfg, e)
    ensures Window(cfg, Settle(cfg, e, closing, open))
  {
  }

  lemma GatherKeeps(cfg: Config, e: Engine, li: LogItem)
    requires cfg.Valid() && Sound(cfg, e) && Alive(cfg, e)
    ensures var g := Gather(cfg, e, li);
            && Shapes(cfg, g) && |g.records| <= cfg.maxRecords
            && Accounts(cfg, g) && Kept(cfg, g) && Window(cfg, g)
            && (li.eof ==> g.record.None?)
  {
    var closing, open := GatherNormal(cfg, e, li);
    SettleShapes(cfg, e, closing, open);
    SettleAccounts(cfg, e, closing, open);
  }

  lemma ProcessKeeps(cfg: Config, e: Engine, li: LogItem)
    requires cfg.Valid() && Sound(cfg, e) && Alive(cfg, e)
    ensures Sound(cfg, Process(cfg, e, li))
    ensures !li.eof ==> Alive(cfg, Process(cfg, e, li))
    ensures li.eof ==> Process(cfg, e, li).record.None? && Process(cfg, e, li).records == []
                       && Process(cfg, e, li).suspendRecords == []
  {
    GatherKeeps(cfg, e, li);
    var g := Gather(cfg, e, li);
    var d := if g.records != [] && (Due(cfg, g, li) || li.eof) then Flush(cfg, g) else g;
    if g.records != [] && (Due(cfg, g, li) || li.eof) {
      FlushAccounts(cfg, g);
      FlushShapes(cfg, g);
    }
    AccountsReopen(cfg, d, Process(cfg, e, li));
  }

  /** The accounts do not look at the suspend window or at the records kept for suspend.txt. */
  lemma AccountsReopen(cfg: Config, e: Engine, e': Engine)
    requires Accounts(cfg, e)
    requires e' == e.(suspendUntil := e'.suspendUntil, suspendRecords := e'.suspendRecords)
    ensures Accounts(cfg, e')
  {
    forall k | 0 <= k < |e'.events|
      ensures Dumped(cfg, e', k)
    {
      assert Dumped(cfg, e, k);
    }
  }

  lemma {:induction false} RunKeeps(cfg: Config, items: seq<LogItem>)
    requires cfg.Valid() && StopsAtEof(items)
    ensures Sound(cfg, Run(cfg, items))
    ensures (items == [] || !items[|items| - 1].eof) ==> Alive(cfg, Run(cfg, items))
  {
    if items != [] {
      var before := items[..|items| - 1];
      RunKeeps(cfg, before);
      ProcessKeeps(cfg, Run(cfg, before), items[|items| - 1]);
    }
  }

  // ---- Items: in order, and in at most one record ----

  /** Everything the engine has taken: items of closed records, then of the open one. */
  function Carried(e: Engine): seq<LogItem>
  {
    ClosedItems(e.closed) + ItemsOf(e.record)
  }

  lemma SettleCarries(cfg: Config, e: Engine, closing: Option<Record>, open: Option<Record>)
    ensures Carried(Settle(cfg, e, closing, open)) == ClosedItems(e.closed) + (ItemsOf(closing) + ItemsOf(open))
  {
    var g := Settle(cfg, e, closing, open);
    if closing.Some? {
      assert g.closed[..|g.closed| - 1] == e.closed;
    }
  }

  lemma DeliverCarries(cfg: Config, g: Engine, li: LogItem)
    requires cfg.Valid()
    ensures Deliver(cfg, g, li).closed == g.closed && Deliver(cfg, g, li).record == g.record
  {
  }

  lemma ProcessCarries(cfg: Config, e: Engine, li: LogItem)
    requires cfg.Valid() && OpenOk(cfg, e.record)
    ensures Carried(Process(cfg, e, li)) == Carried(e) + (if Takes(cfg, ItemsOf(e.record), li) then [li] else [])
  {
    var closing, open := GatherNormal(cfg, e, li);
    SettleCarries(cfg, e, closing, open);
    DeliverCarries(cfg, Gather(cfg, e, li), li);
    Regroup(ClosedItems(e.closed), ItemsOf(e.record), if Takes(cfg, ItemsOf(e.record), li) then [li] else []);
  }

  lemma Regroup<T>(a: seq<T>, b: seq<T>, c: seq<T>)
    ensures a + (b + c) == (a + b) + c
  {
  }

  /** The items of the open record after these lines, by the reference alone. */
  function OpenItems(cfg: Config, items: seq<LogItem>): seq<LogItem>
  {
    if items == [] then [] else StillOpen(cfg, OpenItems(cfg, items[..|items| - 1]), items[|items| - 1])
  }

  /** The groups closed by these lines. */
  function ClosedGroups(cfg: Config, items: seq<LogItem>): seq<seq<LogItem>>
  {
    if items == [] then []
    else
      var n := |items| - 1;
      ClosedGroups(cfg, items[..n]) + Closes(cfg, OpenItems(cfg, items[..n]), items[n])
  }

  /** The lines that become part of a record. */
  function TakenItems(cfg: Config, items: seq<LogItem>): seq<LogItem>
  {
    if items == [] then []
    else
      var n := |items| - 1;
      TakenItems(cfg, items[..n]) + (if Takes(cfg, OpenItems(cfg, items[..n]), items[n]) then [items[n]] else [])
  }

  /** The items of the closed records, group by group. */
  function GroupsOf(closed: seq<Closed>): seq<seq<LogItem>>
  {
    if closed == [] then [] else GroupsOf(closed[..|closed| - 1]) + [closed[|closed| - 1].record.items]
  }

  lemma ProcessGroups(cfg: Config, e: Engine, li: LogItem)
    requires cfg.Valid() && OpenOk(cfg, e.record)
    ensures GroupsOf(Process(cfg, e, li).closed) == GroupsOf(e.closed) + Closes(cfg, ItemsOf(e.record), li)
    ensures ItemsOf(Process(cfg, e, li).record) == StillOpen(cfg, ItemsOf(e.record), li)
  {
    var closing, open := GatherNormal(cfg, e, li);
    DeliverCarries(cfg, Gather(cfg, e, li), li);
    SettleGroups(cfg, e, closing, open);
  }

  lemma SettleGroups(cfg: Config, e: Engine, closing: Option<Record>, open: Option<Record>)
    ensures GroupsOf(Settle(cfg, e, closing, open).closed) == GroupsOf(e.closed) + Groups(closing)
  {
    var g := Settle(cfg, e, closing, open);
    if closing.Some? {
      assert g.closed[..|g.closed| - 1] == e.closed;
    }
  }

  /** Over every run the records are those of the reference: exactly these lines, grouped and closed so. */
  lemma {:induction false} RunGroups(cfg: Config, items: seq<LogItem>)
    requires cfg.Valid() && StopsAtEof(items)
    ensures GroupsOf(Run(cfg, items).closed) == ClosedGroups(cfg, items)
    ensures ItemsOf(Run(cfg, items).record) == OpenItems(cfg, items)
    ensures Carried(Run(cfg, items)) == TakenItems(cfg, items)
  {
    if items != [] {
      var before, li := items[..|items| - 1], items[|items| - 1];
      RunGroups(cfg, before);
      RunKeeps(cfg, before);
      ProcessGroups(cfg, Run(cfg, before), li);
      ProcessCarries(cfg, Run(cfg, before), li);
    }
  }

  lemma SubsequenceStep(a: seq<LogItem>, a': seq<LogItem>, b: seq<LogItem>, b': seq<LogItem>, li: LogItem)
    requires Subsequence(a, b) && (a' == a || a' == a + [li]) && |b'| == |b| + 1 && b'[..|b|] == b && b'[|b|] == li
    ensures Subsequence(a', b')
  {
    SubsequenceSkip(a, b, li);
    SubsequenceTake(a, b, li);
    assert b' == b + [li];
  }

  /**
   * The items of all records, in closing order, form a subsequence of the processed
   * items: order is kept and no position is used by two records.
   */
  lemma {:induction false} RunItemsInOrder(cfg: Config, items: seq<LogItem>)
    requires cfg.Valid() && StopsAtEof(items)
    ensures Subsequence(Carried(Run(cfg, items)), items)
  {
    if items != [] {
      var before, li := items[..|items| - 1], items[|items| - 1];
      RunItemsInOrder(cfg, before);
      RunKeeps(cfg, before);
      ProcessCarries(cfg, Run(cfg, before), li);
      SubsequenceStep(Carried(Run(cfg, before)), Carried(Run(cfg, items)), before, items, li);
    }
  }

  // ---- Every start opens a record, and every record meets its due fate ----

  function Starts(cfg: Config, items: seq<LogItem>): nat
  {
    if items == [] then 0
    else Starts(cfg, items[..|items| - 1]) + (if Opens(cfg, items[|items| - 1]) then 1 else 0)
  }

  lemma ProcessOpens(cfg: Config, e: Engine, li: LogItem)
    requires cfg.Valid() && OpenOk(cfg, e.record)
    ensures var e' := Process(cfg, e, li);
            |e'.closed| + Count(e'.record) == |e.closed| + Count(e.record) + (if Opens(cfg, li) then 1 else 0)
  {
    var closing, open := GatherNormal(cfg, e, li);
    DeliverCarries(cfg, Gather(cfg, e, li), li);
  }

  /** There are as many records as start matches: none is merged, split or lost. */
  lemma {:induction false} RunOpens(cfg: Config, items: seq<LogItem>)
    requires cfg.Valid() && StopsAtEof(items)
    ensures |Run(cfg, items).closed| + Count(Run(cfg, items).record) == Starts(cfg, items)
  {
    if items != [] {
      var before := items[..|items| - 1];
      RunOpens(cfg, before);
      RunKeeps(cfg, before);
      ProcessOpens(cfg, Run(cfg, before), items[|items| - 1]);
    }
  }

  /** Where the window in force after the first `at` events ends; before any event it lies before the epoch. */
  function WindowEnd(cfg: Config, events: seq<Event>, at: nat): TimeVal
    requires at <= |events|
  {
    if at == 0 then Seconds(-1) else Plus(events[at - 1].ts, Seconds(cfg.suspendInterval))
  }

  /** What should become of a record closed after the first `at` events. */
  function DueFate(cfg: Config, events: seq<Event>, r: Record, at: nat): Fate
    requires at <= |events|
  {
    if !r.valid then Dropped
    else if cfg.suspendInterval > 0 && AtMost(r.Timestamp(), WindowEnd(cfg, events, at)) then Suspended
    else Accepted
  }

  ghost predicate FateOk(cfg: Config, events: seq<Event>, c: Closed)
  {
    c.at <= |events| && c.fate == DueFate(cfg, events, c.record, c.at)
  }

  ghost predicate Fates(cfg: Config, e: Engine)
  {
    forall i :: 0 <= i < |e.closed| ==> FateOk(cfg, e.events, e.closed[i])
  }

  /** Between two calls the window is the one of the last event. */
  ghost predicate WindowFrom(cfg: Config, e: Engine)
  {
    cfg.suspendInterval > 0 ==> e.suspendUntil == WindowEnd(cfg, e.events, |e.events|)
  }

  lemma SettleFates(cfg: Config, e: Engine, closing: Option<Record>, open: Option<Record>)
    requires Fates(cfg, e) && WindowFrom(cfg, e)
    ensures Fates(cfg, Settle(cfg, e, closing, open)) && WindowFrom(cfg, Settle(cfg, e, closing, open))
  {
  }

  lemma DeliverFates(cfg: Config, g: Engine, li: LogItem)
    requires cfg.Valid() && Fates(cfg, g) && WindowFrom(cfg, g)
    ensures Fates(cfg, Deliver(cfg, g, li)) && (!li.eof ==> WindowFrom(cfg, Deliver(cfg, g, li)))
  {
    var d := Deliver(cfg, g, li);
    assert forall k :: 0 <= k < |g.events| ==> d.events[k] == g.events[k];
    forall i | 0 <= i < |d.closed|
      ensures FateOk(cfg, d.events, d.closed[i])
    {
      assert FateOk(cfg, g.events, g.closed[i]);
    }
  }

  lemma {:induction false} RunFates(cfg: Config, items: seq<LogItem>)
    requires cfg.Valid() && StopsAtEof(items)
    ensures Fates(cfg, Run(cfg, items))
    ensures (items == [] || !items[|items| - 1].eof) ==> WindowFrom(cfg, Run(cfg, items))
  {
    if items != [] {
      var before, li := items[..|items| - 1], items[|items| - 1];
      RunFates(cfg, before);
      RunKeeps(cfg, before);
      var closing, open := GatherNormal(cfg, Run(cfg, before), li);
      SettleFates(cfg, Run(cfg, before), closing, open);
      DeliverFates(cfg, Gather(cfg, Run(cfg, before), li), li);
    }
  }

  // ---- Timeliness ----

  ghost predicate Nondecreasing(items: seq<LogItem>)
  {
    forall i, j :: 0 <= i < j < |items| && !items[j].eof ==> AtMost(items[i].ts, items[j].ts)
  }

  /** Pending records are ordered after the first one, before the open one, and not in the future. */
  ghost predicate Ordered(e: Engine, now: TimeVal)
  {
    && (forall i :: 0 <= i < |e.records| ==>
          AtMost(e.records[0].Timestamp(), e.records[i].Timestamp()) && AtMost(e.records[i].Timestamp(), now))
    && (e.record.Some? ==>
          && AtMost(e.record.value.Timestamp(), now)
          && forall i :: 0 <= i < |e.records| ==> AtMost(e.records[i].Timestamp(), e.record.value.Timestamp()))
  }

  /** Neither the open record nor any pending one has reached the flush timeout. */
  ghost predicate OnTime(cfg: Config, e: Engine, now: TimeVal)
  {
    && (e.record.Some? ==> Young(cfg, now, e.record.value.Timestamp()))
    && forall i :: 0 <= i < |e.records| ==> Young(cfg, now, e.records[i].Timestamp())
  }

  /** Less than the flush timeout old, in microseconds. */
  predicate Young(cfg: Config, now: TimeVal, since: TimeVal)
  {
    now.Micros() - since.Micros() < cfg.flushTimeout * USEC_IN_SEC
  }

  lemma SettleOrdered(cfg: Config, e: Engine, closing: Option<Record>, open: Option<Record>, li: LogItem, before: TimeVal)
    requires Ordered(e, before) && AtMost(before, li.ts)
    requires closing.Some? ==> closing.value.Timestamp() == if e.record.Some? then e.record.value.Timestamp() else li.ts
    requires open.Some? ==> open.value.Timestamp() == li.ts ||
                            (closing.None? && e.record.Some? && open.value.Timestamp() == e.record.value.Timestamp())
    ensures Ordered(Settle(cfg, e, closing, open), li.ts)
  {
  }

  lemma DeliverOnTime(cfg: Config, g: Engine, li: LogItem)
    requires cfg.Valid() && Ordered(g, li.ts) && !li.eof
    requires g.record.Some? ==> !Aged(cfg, li.ts, g.record.value.Timestamp())
    ensures OnTime(cfg, Deliver(cfg, g, li), li.ts) && Ordered(Deliver(cfg, g, li), li.ts)
  {
  }

  lemma ProcessOnTime(cfg: Config, e: Engine, li: LogItem, before: TimeVal)
    requires cfg.Valid() && Sound(cfg, e) && Alive(cfg, e)
    requires Ordered(e, before) && (!li.eof ==> AtMost(before, li.ts))
    ensures OnTime(cfg, Process(cfg, e, li), li.ts)
    ensures !li.eof ==> Ordered(Process(cfg, e, li), li.ts)
  {
    if li.eof {
      ProcessKeeps(cfg, e, li);
    } else {
      var closing, open := GatherNormal(cfg, e, li);
      SettleOrdered(cfg, e, closing, open, li, before);
      DeliverOnTime(cfg, Gather(cfg, e, li), li);
    }
  }

  lemma {:induction false} RunOnTime(cfg: Config, items: seq<LogItem>)
    requires cfg.Valid() && StopsAtEof(items) && Nondecreasing(items) && items != []
    ensures OnTime(cfg, Run(cfg, items), items[|items| - 1].ts)
    ensures !items[|items| - 1].eof ==> Ordered(Run(cfg, items), items[|items| - 1].ts)
  {
    var before, li := items[..|items| - 1], items[|items| - 1];
    RunKeeps(cfg, before);
    if before == [] {
      ProcessOnTime(cfg, Run(cfg, before), li, li.ts);
    } else {
      RunOnTime(cfg, before);
      ProcessOnTime(cfg, Run(cfg, before), li, before[|before| - 1].ts);
    }
  }

  // ---- When an event is due ----

  /** A full list, a first record that has reached the flush timeout, or the end of the file. */
  predicate EventDue(cfg: Config, records: seq<Record>, li: LogItem)
  {
    records != [] && (|records| >= cfg.maxRecords || li.eof || !Young(cfg, li.ts, records[0].Timestamp()))
  }

  lemma DeliverExactly(cfg: Config, g: Engine, li: LogItem)
    requires cfg.Valid()
    ensures var d := Deliver(cfg, g, li);
            if EventDue(cfg, g.records, li)
            then d.records == [] && |d.events| == |g.events| + 1 && d.events[|g.events|].records == g.records
                 && d.events[|g.events|].ts == g.records[0].Timestamp()
            else d.records == g.records && d.events == g.events
  {
    if g.records != [] {
      AgedExactly(cfg, li.ts, g.records[0].Timestamp());
    }
  }

  /**
   * Over every run: a line brings an event exactly when one is due. An event holds a full
   * list, or its first record had reached the timeout, or the file ended; and a line
   * without an event leaves pending records for which none of this holds.
   */
  lemma EventsWhenDue(cfg: Config, items: seq<LogItem>)
    requires cfg.Valid() && StopsAtEof(items) && items != []
    ensures var before, after, li := Run(cfg, items[..|items| - 1]), Run(cfg, items), items[|items| - 1];
            if |after.events| > |before.events|
            then |after.events| == |before.events| + 1 && after.records == [] &&
                 EventDue(cfg, after.events[|before.events|].records, li)
            else after.events == before.events && !EventDue(cfg, after.records, li)
  {
    var before, li := items[..|items| - 1], items[|items| - 1];
    RunKeeps(cfg, before);
    var closing, open := GatherNormal(cfg, Run(cfg, before), li);
    DeliverExactly(cfg, Gather(cfg, Run(cfg, before), li), li);
  }

  // ---- The rate limiter ----

  /** The smallest distance, in microseconds, the suspend window leaves between two events. */
  function Gap(cfg: Config): nat
  {
    if cfg.suspendInterval == 0 then 0 else cfg.suspendInterval * USEC_IN_SEC + 1
  }

  /** maxEventCount gaps cover the interval the limiter looks at. */
  predicate QuietEnough(cfg: Config)
  {
    cfg.maxEventCount * Gap(cfg) >= cfg.maxEventInterval * USEC_IN_SEC
  }

  lemma {:induction false} SpacedSpan(cfg: Config, events: seq<Event>, i: nat, j: nat)
    requires Spaced(cfg, events) && cfg.suspendInterval > 0 && i <= j < |events|
    ensures events[j].ts.Micros() - events[i].ts.Micros() >= (j - i) * Gap(cfg)
    decreases j
  {
    if i < j {
      SpacedSpan(cfg, events, i, j - 1);
      assert (j - i) * Gap(cfg) == (j - 1 - i) * Gap(cfg) + Gap(cfg);
    }
  }

  /** The last maxEventCount + 1 events span at least maxEventInterval. */
  ghost predicate Wide(cfg: Config, events: seq<Event>)
  {
    var n := |events|;
    n > cfg.maxEventCount ==>
      events[n - 1].ts.Micros() - events[n - 1 - cfg.maxEventCount].ts.Micros()
      >= cfg.maxEventInterval * USEC_IN_SEC
  }

  /** What the limiter compares: the newest event and the one maxEventCount events before it. */
  lemma LimiterSpan(cfg: Config, e: Engine)
    requires cfg.Valid() && Logged(cfg, e) && e.flushCount == |e.events|
    requires cfg.maxEventInterval > 0
    ensures LogContinue(cfg, e) <==> Wide(cfg, e.events)
  {
    if e.flushCount > cfg.maxEventCount {
      assert e.eventLog[cfg.maxEventCount] == e.events[|e.events| - 1 - cfg.maxEventCount].ts;
    }
  }

  lemma RunLimit(cfg: Config, items: seq<LogItem>)
    requires cfg.Valid() && StopsAtEof(items) && cfg.maxEventInterval > 0
    ensures LogContinue(cfg, Run(cfg, items)) <==> Wide(cfg, Run(cfg, items).events)
  {
    RunKeeps(cfg, items);
    LimiterSpan(cfg, Run(cfg, items));
  }

  /** Without an interval the limiter counts events: exactly maxEventCount of them are let through. */
  lemma CapExactly(cfg: Config, items: seq<LogItem>)
    requires cfg.Valid() && StopsAtEof(items) && cfg.maxEventInterval == 0
    ensures LogContinue(cfg, Run(cfg, items)) <==> |Run(cfg, items).events| < cfg.maxEventCount
  {
    RunKeeps(cfg, items);
  }

  lemma QuietSpan(cfg: Config, e: Engine)
    requires cfg.Valid() && Logged(cfg, e) && e.flushCount == |e.events| && Spaced(cfg, e.events)
    requires cfg.maxEventInterval > 0 && cfg.suspendInterval > 0 && QuietEnough(cfg)
    ensures LogContinue(cfg, e)
  {
    LimiterSpan(cfg, e);
    if e.flushCount > cfg.maxEventCount {
      var n := |e.events|;
      SpacedSpan(cfg, e.events, n - 1 - cfg.maxEventCount, n - 1);
      assert n - 1 - (n - 1 - cfg.maxEventCount) == cfg.maxEventCount;
    }
  }

  /** A suspending watcher whose gaps cover the interval is never stopped by the limiter. */
  lemma NeverNoisy(cfg: Config, items: seq<LogItem>)
    requires cfg.Valid() && StopsAtEof(items)
    requires cfg.maxEventInterval > 0 && QuietEnough(cfg)
    ensures LogContinue(cfg, Run(cfg, items))
  {
    RunKeeps(cfg, items);
    QuietSpan(cfg, Run(cfg, items));
  }

  /** The condition in whole seconds is sufficient. */
  lemma SecondsSuffice(cfg: Config)
    requires cfg.suspendInterval * cfg.maxEventCount >= cfg.maxEventInterval
    ensures QuietEnough(cfg)
  {
    if cfg.suspendInterval > 0 {
      calc {
        cfg.maxEventCount * Gap(cfg);
        cfg.maxEventCount * cfg.suspendInterval * USEC_IN_SEC + cfg.maxEventCount;
      >=
        cfg.maxEventInterval * USEC_IN_SEC;
      }
    }
  }

  lemma RunNext(cfg: Config, items: seq<LogItem>, li: LogItem)
    requires cfg.Valid()
    ensures Run(cfg, items + [li]) == Process(cfg, Run(cfg, items), li)
  {
    assert (items + [li])[..|items + [li]| - 1] == items;
  }
}
