/**
 * The event engine of one log watcher: log items are grouped into records,
 * records into events. This module gives the effect of every operation of the
 * worker as a function on values; EventWatch.dfy holds the updating class and
 * EngineLaws.dfy what holds after any run.
 */
module EventEngine {
  import opened Sequences
  import opened Time

  /** A compiled regular expression: whether it matches, and its captures. */
  datatype Pattern = Pattern(matches: string -> bool, captures: string -> seq<string>)

  datatype Config = Config(
    start: Option<Pattern>,
    end: Option<Pattern>,
    valid: Option<Pattern>,
    body: seq<Pattern>,
    maxItems: nat,
    maxRecords: nat,
    maxSuspendRecords: nat,
    flushTimeout: nat,
    suspendInterval: nat,
    maxEventCount: nat,
    maxEventInterval: nat,
    minLevel: nat,
    maxLevel: nat,
    mailboxMax: nat)
  {
    /** Only positive values of these settings are ever installed. */
    predicate Valid()
    {
      maxItems >= 1 && maxRecords >= 1 && flushTimeout >= 1 && maxEventCount >= 1 && mailboxMax >= 1
    }
  }

  datatype LogItem = LogItem(ts: TimeVal, prio: nat, msg: string, eof: bool)

  /** The end-of-file item a kill puts in the mailbox. */
  function SyntheticEof(): LogItem { LogItem(Seconds(0), 0, "", true) }

  datatype Record = Record(items: seq<LogItem>, valid: bool, captures: seq<string>) {
    function Timestamp(): TimeVal { if items == [] then Seconds(0) else items[0].ts }
  }

  /** What one flush reports: its records, the %S count, the lines of suspend.txt. */
  datatype Event = Event(records: seq<Record>, suspended: nat, saved: seq<Record>, ts: TimeVal)

  /** Where a closed record went, and how many events there had been by then. */
  datatype Fate = Dropped | Suspended | Accepted
  datatype Closed = Closed(record: Record, fate: Fate, at: nat)

  /**
   * The worker's own state. `events` is the output so far, oldest first;
   * `closed` is the history of the records handed to addRecord.
   */
  datatype Engine = Engine(
    record: Option<Record>,
    records: seq<Record>,
    suspendRecords: seq<Record>,
    suspendCount: nat,
    suspendUntil: TimeVal,
    eventLog: seq<TimeVal>,
    flushCount: nat,
    events: seq<Event>,
    closed: seq<Closed>)

  function Initial(): Engine
  {
    Engine(None, [], [], 0, Seconds(-1), [], 0, [], [])
  }

  predicate Matches(p: Option<Pattern>, msg: string)
  {
    p.Some? && p.value.matches(msg)
  }

  predicate MatchesBody(body: seq<Pattern>, msg: string)
  {
    body == [] || exists i :: 0 <= i < |body| && body[i].matches(msg)
  }

  function AddItem(r: Record, li: LogItem): Record { r.(items := r.items + [li]) }

  predicate InSuspendWindow(cfg: Config, e: Engine, r: Record)
  {
    cfg.suspendInterval != 0 && AtMost(r.Timestamp(), e.suspendUntil)
  }

  function AddRecord(cfg: Config, e: Engine, r: Record): Engine
  {
    if !r.valid then
      e.(closed := e.closed + [Closed(r, Dropped, |e.events|)])
    else if InSuspendWindow(cfg, e, r) then
      var kept :=
        if cfg.maxSuspendRecords == 0 then e.suspendRecords
        else
          var pushed := e.suspendRecords + [r];
          if e.suspendCount + 1 > cfg.maxSuspendRecords then pushed[1..] else pushed;
      e.(suspendCount := e.suspendCount + 1, suspendRecords := kept,
         closed := e.closed + [Closed(r, Suspended, |e.events|)])
    else
      e.(records := e.records + [r], closed := e.closed + [Closed(r, Accepted, |e.events|)])
  }

  /** Hands the open record, if any, to AddRecord. */
  function CloseOpen(cfg: Config, e: Engine): Engine
  {
    if e.record.None? then e else AddRecord(cfg, e.(record := None), e.record.value)
  }

  function CloseIfFull(cfg: Config, e: Engine): Engine
  {
    if e.record.Some? && |e.record.value.items| >= cfg.maxItems then CloseOpen(cfg, e) else e
  }

  function Opened(cfg: Config, li: LogItem): Record
    requires cfg.start.Some?
  {
    if cfg.valid.None? then Record([li], true, cfg.start.value.captures(li.msg))
    else Record([li], false, [])
  }

  /** What the open record becomes when it takes `li`, or nothing if it does not take it. */
  function Taken(cfg: Config, r: Record, li: LogItem): Option<Record>
  {
    if Matches(cfg.end, li.msg) then Some(AddItem(r, li))
    else if Matches(cfg.valid, li.msg) then
      Some(AddItem(r, li).(valid := true, captures := cfg.valid.value.captures(li.msg)))
    else if MatchesBody(cfg.body, li.msg) then Some(AddItem(r, li))
    else None
  }

  /** The pattern part of `process`. */
  function Collect(cfg: Config, e: Engine, li: LogItem): Engine
  {
    if li.eof then CloseOpen(cfg, e)
    else if Matches(cfg.start, li.msg) then
      CloseIfFull(cfg, CloseOpen(cfg, e).(record := Some(Opened(cfg, li))))
    else if e.record.None? then e
    else
      var taken := Taken(cfg, e.record.value, li);
      if taken.None? then e
      else if Matches(cfg.end, li.msg) then CloseOpen(cfg, e.(record := taken))
      else CloseIfFull(cfg, e.(record := taken))
  }

  predicate Aged(cfg: Config, now: TimeVal, since: TimeVal)
  {
    AtLeast(Minus(now, since), Seconds(cfg.flushTimeout))
  }

  function Expire(cfg: Config, e: Engine, li: LogItem): Engine
  {
    if e.record.Some? && Aged(cfg, li.ts, e.record.value.Timestamp()) then CloseOpen(cfg, e) else e
  }

  function Gather(cfg: Config, e: Engine, li: LogItem): Engine
  {
    Expire(cfg, Collect(cfg, e, li), li)
  }

  function LogEvent(cfg: Config, log: seq<TimeVal>, ts: TimeVal): seq<TimeVal>
  {
    if cfg.maxEventInterval == 0 then log
    else
      var pushed := [ts] + log;
      if |pushed| > cfg.maxEventCount + 1 then pushed[..|pushed| - 1] else pushed
  }

  /** The state effect of `flush`, up to the decision to kill the watcher. */
  function Flush(cfg: Config, e: Engine): Engine
    requires e.records != []
  {
    var dumped := e.suspendCount > 0 && cfg.maxSuspendRecords > 0;
    var ts := e.records[0].Timestamp();
    var ev := Event(e.records, e.suspendCount, if dumped then e.suspendRecords else [], ts);
    e.(records := [],
       suspendRecords := if dumped then [] else e.suspendRecords,
       suspendCount := 0,
       eventLog := LogEvent(cfg, e.eventLog, ts),
       flushCount := e.flushCount + 1,
       events := e.events + [ev])
  }

  function OpenWindow(cfg: Config, e: Engine): Engine
    requires e.records != []
  {
    if cfg.suspendInterval == 0 then e
    else e.(suspendUntil := Plus(e.records[0].Timestamp(), Seconds(cfg.suspendInterval)))
  }

  /** A flush that also opens a suspend window: too many records, or the first one too old. */
  predicate Due(cfg: Config, e: Engine, li: LogItem)
  {
    |e.records| >= cfg.maxRecords || (e.records != [] && Aged(cfg, li.ts, e.records[0].Timestamp()))
  }

  function Deliver(cfg: Config, e: Engine, li: LogItem): Engine
    requires cfg.Valid()
  {
    if Due(cfg, e, li) then Flush(cfg, OpenWindow(cfg, e))
    else if li.eof then
      (if e.records != [] then Flush(cfg, e) else e).(suspendRecords := [])
    else e
  }

  /** One call of `process`, which returns whether the worker goes on: `!li.eof`. */
  function Process(cfg: Config, e: Engine, li: LogItem): Engine
    requires cfg.Valid()
  {
    Deliver(cfg, Gather(cfg, e, li), li)
  }

  /** The rate limiter, asked after a flush. */
  predicate LogContinue(cfg: Config, e: Engine)
    requires cfg.Valid()
  {
    if cfg.maxEventInterval == 0 then e.flushCount < cfg.maxEventCount
    else if e.flushCount <= cfg.maxEventCount then true
    else if e.eventLog == [] then false
    else AtLeast(Minus(e.eventLog[0], e.eventLog[|e.eventLog| - 1]), Seconds(cfg.maxEventInterval))
  }

  /** The engine after the worker has processed `items`, one call of `process` each. */
  function Run(cfg: Config, items: seq<LogItem>): Engine
    requires cfg.Valid()
  {
    if items == [] then Initial()
    else Process(cfg, Run(cfg, items[..|items| - 1]), items[|items| - 1])
  }

  /** The worker stops at the first end-of-file item, so it can only be the last one. */
  ghost predicate StopsAtEof(items: seq<LogItem>)
  {
    forall i :: 0 <= i < |items| - 1 ==> !items[i].eof
  }

  // ---- Reading the history ----

  /** All items held by the closed records, in closing order. */
  function ClosedItems(closed: seq<Closed>): seq<LogItem>
  {
    if closed == [] then []
    else ClosedItems(closed[..|closed| - 1]) + closed[|closed| - 1].record.items
  }

  /** The closed records of one fate, in closing order. */
  function OfFate(closed: seq<Closed>, fate: Fate): seq<Record>
  {
    if closed == [] then []
    else
      var rest := OfFate(closed[..|closed| - 1], fate);
      if closed[|closed| - 1].fate == fate then rest + [closed[|closed| - 1].record] else rest
  }

  /** The records of all flushed events, in order. */
  function EventRecords(events: seq<Event>): seq<Record>
  {
    if events == [] then [] else EventRecords(events[..|events| - 1]) + events[|events| - 1].records
  }

  /** The sum of the %S values reported by the events. */
  function Reported(events: seq<Event>): nat
  {
    if events == [] then 0 else Reported(events[..|events| - 1]) + events[|events| - 1].suspended
  }
}
