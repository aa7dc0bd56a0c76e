/**
 * The watcher object itself. Every method is proved to take exactly the steps of
 * WatchProtocol and EventEngine; the ghost fields from `events` on record control
 * points and history.
 */
module EventWatch {
  import opened Sequences
  import opened Time
  import opened EventEngine
  import opened WatchProtocol

  /** The data guarded by the mutex. */
  datatype Mailbox = Mailbox(
    items: seq<LogItem>, available: nat, acceptData: bool, killReason: KillReason, kill: KillLog)

  function KilledBox(b: Mailbox, reason: KillReason, events: nat, held: bool): Mailbox
  {
    Mailbox([SyntheticEof()], b.available + 1, false, reason, KillLog(b.kill.count + 1, events, held))
  }

  function LimitedBox(cfg: Config, b: Mailbox, e: Engine): Mailbox
    requires cfg.Valid()
  {
    if b.acceptData && !LogContinue(cfg, e) then KilledBox(b, LimitReason(cfg), |e.events|, false) else b
  }

  function WithBox(s: System, b: Mailbox): System
  {
    s.(mailbox := b.items, available := b.available, acceptData := b.acceptData, killReason := b.killReason,
       kill := b.kill)
  }

  function BoxOf(s: System): Mailbox
  {
    Mailbox(s.mailbox, s.available, s.acceptData, s.killReason, s.kill)
  }

  /** The mailbox takes another item. */
  predicate Takes(cfg: Config, b: Mailbox) { |b.items| <= cfg.mailboxMax && b.acceptData }

  function PostedBox(cfg: Config, b: Mailbox, li: LogItem, events: nat, held: bool): Mailbox
  {
    if Takes(cfg, b) then b.(items := b.items + [li], available := b.available + 1)
    else if |b.items| > cfg.mailboxMax then KilledBox(b, LAZY, events, held)
    else b
  }

  /** The Post step, seen from the mailbox. */
  lemma PostedIsPost(cfg: Config, s: System, li: LogItem)
    ensures PostItem(cfg, s, li) ==
            WithBox(s.(accepted := s.accepted + if Takes(cfg, BoxOf(s)) then [li] else []),
                    PostedBox(cfg, BoxOf(s), li, |s.engine.events|, HoldsItem(s.worker)))
  {
  }

  /** The system after the worker has dealt with the item in its hands, without interruption. */
  function Handled(cfg: Config, s: System): System
    requires cfg.Valid() && s.worker.Holding?
  {
    var e := Process(cfg, s.engine, s.worker.li);
    var b := if e.flushCount > s.engine.flushCount then LimitedBox(cfg, BoxOf(s), e) else BoxOf(s);
    WithBox(s.(engine := e, processed := s.processed + [s.worker.li], worker := Resume(!s.worker.li.eof)), b)
  }

  /** That is the Work step, then the Limit step if there was a flush. */
  lemma WorkThenLimit(cfg: Config, s: System)
    requires cfg.Valid() && s.worker.Holding?
    ensures var worked := Next(cfg, s, Work);
            Handled(cfg, s) == if worked.worker.AtLimiter? then Next(cfg, worked, Limit) else worked
  {
  }

  /** The system after an uninterrupted `feed`; starting the thread lets the worker begin. */
  function Fed(cfg: Config, s: System, li: LogItem): System
  {
    if OutOfLevel(cfg, li) || !s.acceptData || s.threadState == STOPPED then s
    else PostItem(cfg, Running(s), li)
  }

  function Running(s: System): System
  {
    if s.threadState == READY then s.(threadState := RUNNING, worker := AtLoop) else s
  }

  lemma ChainOutcome(cfg: Config, s: System, acts: seq<Action>, a: Action)
    requires cfg.Valid() && Outcome(cfg, s, acts).Some? && Enabled(cfg, Outcome(cfg, s, acts).value, a)
    ensures Outcome(cfg, s, acts + [a]) == Some(Next(cfg, Outcome(cfg, s, acts).value, a))
  {
    assert (acts + [a])[..|acts + [a]| - 1] == acts;
  }

  /** An uninterrupted `feed` is a schedule of the protocol. */
  lemma FedIsSchedule(cfg: Config, s: System, li: LogItem) returns (acts: seq<Action>)
    requires cfg.Valid() && s.reader.Away?
    ensures Outcome(cfg, s, acts) == Some(Fed(cfg, s, li))
  {
    acts := [];
    ChainOutcome(cfg, s, acts, CallFeed(li));
    acts := acts + [CallFeed(li)];
    if !(OutOfLevel(cfg, li) || !s.acceptData) {
      ChainOutcome(cfg, s, acts, Switch);
      acts := acts + [Switch];
      if s.threadState == READY {
        ChainOutcome(cfg, s, acts, Begin);
        acts := acts + [Begin];
        ChainOutcome(cfg, s, acts, SeeStarted);
        acts := acts + [SeeStarted];
      }
      if s.threadState != STOPPED {
        ChainOutcome(cfg, s, acts, Post);
        acts := acts + [Post];
      }
    }
  }

  class EventWatch {
    const cfg: Config

    var record: Option<Record>
    var records: seq<Record>
    var suspendRecords: seq<Record>
    var suspendCount: nat
    var suspendUntil: TimeVal
    var eventLog: seq<TimeVal>
    var flushCount: nat

    var mailbox: seq<LogItem>
    var available: nat
    var started: nat
    var acceptData: bool
    var killReason: KillReason
    var threadState: ThreadState

    ghost var events: seq<Event>
    ghost var closed: seq<Closed>
    ghost var reader: ReaderPc
    ghost var worker: WorkerPc
    ghost var accepted: seq<LogItem>
    ghost var processed: seq<LogItem>
    ghost var kill: KillLog

    ghost function Own(): Engine
      reads this
    {
      Engine(record, records, suspendRecords, suspendCount, suspendUntil, eventLog, flushCount, events, closed)
    }

    ghost function State(): System
      reads this
    {
      System(mailbox, available, started, acceptData, killReason, threadState, reader, worker, Own(),
             accepted, processed, kill)
    }

    ghost function Box(): Mailbox
      reads this
    {
      Mailbox(mailbox, available, acceptData, killReason, kill)
    }

    constructor (cfg: Config)
      ensures this.cfg == cfg
      ensures State() == Start()
    {
      this.cfg := cfg;
      record, records, suspendRecords, suspendCount := None, [], [], 0;
      suspendUntil, eventLog, flushCount := Seconds(-1), [], 0;
      mailbox, available, started, acceptData := [], 0, 0, true;
      killReason, threadState := UNKNOWN, READY;
      events, closed, reader, worker := [], [], Away, Absent;
      accepted, processed, kill := [], [], KillLog(0, 0, false);
    }

    method AddRecord(r: Record)
      modifies `records, `suspendRecords, `suspendCount, `closed
      ensures Own() == EventEngine.AddRecord(cfg, old(Own()), r)
    {
      if !r.valid {
        closed := closed + [Closed(r, Dropped, |events|)];
        return;
      }
      if cfg.suspendInterval != 0 && AtMost(r.Timestamp(), suspendUntil) {
        suspendCount := suspendCount + 1;
        if cfg.maxSuspendRecords != 0 {
          suspendRecords := suspendRecords + [r];
          if suspendCount > cfg.maxSuspendRecords {
            suspendRecords := suspendRecords[1..];
          }
        }
        closed := closed + [Closed(r, Suspended, |events|)];
      } else {
        records := records + [r];
        closed := closed + [Closed(r, Accepted, |events|)];
      }
    }

    /** addRecord on the open record, followed by its reset. */
    method CloseOpen()
      modifies `record, `records, `suspendRecords, `suspendCount, `closed
      ensures Own() == EventEngine.CloseOpen(cfg, old(Own()))
    {
      if record.Some? {
        AddRecord(record.value);
        record := None;
      }
    }

    /** The loop over the body patterns. */
    method CheckBody(msg: string) returns (taken: bool)
      ensures taken == MatchesBody(cfg.body, msg)
    {
      if cfg.body == [] {
        return true;
      }
      for i := 0 to |cfg.body|
        invariant forall j :: 0 <= j < i ==> !cfg.body[j].matches(msg)
      {
        if cfg.body[i].matches(msg) {
          return true;
        }
      }
      return false;
    }

    /** The pattern part of `process`. */
    method Collect(li: LogItem)
      modifies `record, `records, `suspendRecords, `suspendCount, `closed
      ensures Own() == EventEngine.Collect(cfg, old(Own()), li)
    {
      var taken := false;
      if !li.eof {
        if cfg.start.Some? && cfg.start.value.matches(li.msg) {
          CloseOpen();
          record := Some(Record([li], false, []));
          if cfg.valid.None? {
            record := Some(Record([li], true, cfg.start.value.captures(li.msg)));
          }
          taken := true;
        } else if record.Some? {
          if cfg.end.Some? && cfg.end.value.matches(li.msg) {
            record := Some(AddItem(record.value, li));
            CloseOpen();
            taken := true;
          }
          if !taken && cfg.valid.Some? && cfg.valid.value.matches(li.msg) {
            record := Some(AddItem(record.value, li).(captures := cfg.valid.value.captures(li.msg), valid := true));
            taken := true;
          }
          if !taken {
            taken := CheckBody(li.msg);
            if taken {
              record := Some(AddItem(record.value, li));
            }
          }
        }
        if taken && record.Some? && |record.value.items| >= cfg.maxItems {
          CloseOpen();
        }
      } else {
        CloseOpen();
      }
    }

    /** `process` up to the decision to flush: a record that takes too long is closed. */
    method Gather(li: LogItem)
      modifies `record, `records, `suspendRecords, `suspendCount, `closed
      ensures Own() == EventEngine.Gather(cfg, old(Own()), li)
    {
      Collect(li);
      if record.Some? && AtLeast(Minus(li.ts, record.value.Timestamp()), Seconds(cfg.flushTimeout)) {
        CloseOpen();
      }
    }

    method LogEvent(ts: TimeVal)
      modifies `eventLog
      ensures eventLog == EventEngine.LogEvent(cfg, old(eventLog), ts)
    {
      if cfg.maxEventInterval == 0 {
        return;
      }
      eventLog := [ts] + eventLog;
      if |eventLog| > cfg.maxEventCount + 1 {
        eventLog := eventLog[..|eventLog| - 1];
      }
    }

    method LogContinue() returns (goOn: bool)
      requires cfg.Valid()
      requires cfg.maxEventInterval > 0 && flushCount > cfg.maxEventCount ==> eventLog != []
      ensures goOn == EventEngine.LogContinue(cfg, Own())
    {
      if cfg.maxEventInterval == 0 && cfg.maxEventCount != 0 {
        return flushCount < cfg.maxEventCount;
      }
      if flushCount <= cfg.maxEventCount {
        return true;
      }
      return AtLeast(Minus(eventLog[0], eventLog[|eventLog| - 1]), Seconds(cfg.maxEventInterval));
    }

    /** Puts an end-of-file in the emptied mailbox; called with the mutex held. */
    method KillWith(reason: KillReason, ghost held: bool)
      modifies `mailbox, `available, `acceptData, `killReason, `kill
      ensures Box() == KilledBox(old(Box()), reason, |events|, held)
    {
      killReason := reason;
      acceptData := false;
      mailbox := [SyntheticEof()];
      available := available + 1;
      kill := KillLog(kill.count + 1, |events|, held);
    }

    /** The part of `flush` that touches only the worker's own data. */
    method Report()
      requires cfg.Valid() && records != []
      modifies `records, `suspendRecords, `suspendCount, `flushCount, `events, `eventLog
      ensures Own() == EventEngine.Flush(cfg, old(Own()))
    {
      var ts := records[0].Timestamp();
      events := events + [Event(records, suspendCount, if suspendCount > 0 && cfg.maxSuspendRecords > 0 then suspendRecords else [], ts)];
      if suspendCount > 0 && cfg.maxSuspendRecords > 0 {
        suspendRecords := [];
      }
      suspendCount := 0;
      flushCount := flushCount + 1;
      LogEvent(ts);
      records := [];
    }

    /** Reports the pending records as one event, then lets the limiter decide under the mutex. */
    method Flush()
      requires cfg.Valid() && records != []
      modifies `records, `suspendRecords, `suspendCount, `flushCount, `events, `eventLog
      modifies `mailbox, `available, `acceptData, `killReason, `kill
      ensures Own() == EventEngine.Flush(cfg, old(Own()))
      ensures Box() == LimitedBox(cfg, old(Box()), Own())
    {
      Report();
      if acceptData {
        var goOn := LogContinue();
        if !goOn {
          KillWith(if cfg.maxEventInterval != 0 then NOISY else MAX_EVENTS, false);
        }
      }
    }

    /** The flush decision of `process`. */
    method Deliver(li: LogItem)
      requires cfg.Valid()
      modifies `records, `suspendRecords, `suspendCount, `suspendUntil, `flushCount, `events, `eventLog
      modifies `mailbox, `available, `acceptData, `killReason, `kill
      ensures Own() == EventEngine.Deliver(cfg, old(Own()), li)
      ensures Box() == if flushCount > old(flushCount) then LimitedBox(cfg, old(Box()), Own()) else old(Box())
    {
      if |records| >= cfg.maxRecords || (records != [] && AtLeast(Minus(li.ts, records[0].Timestamp()), Seconds(cfg.flushTimeout))) {
        if cfg.suspendInterval != 0 {
          suspendUntil := Plus(records[0].Timestamp(), Seconds(cfg.suspendInterval));
        }
        Flush();
      } else if li.eof {
        if records != [] {
          Flush();
        }
        suspendRecords := [];
      }
    }

    /** One call of `process`. */
    method ProcessItem(li: LogItem) returns (goOn: bool)
      requires cfg.Valid()
      modifies `record, `closed
      modifies `records, `suspendRecords, `suspendCount, `suspendUntil, `flushCount, `events, `eventLog
      modifies `mailbox, `available, `acceptData, `killReason, `kill
      ensures goOn == !li.eof
      ensures Own() == Process(cfg, old(Own()), li)
      ensures Box() == if flushCount > old(flushCount) then LimitedBox(cfg, old(Box()), Own()) else old(Box())
    {
      Gather(li);
      Deliver(li);
      goOn := !li.eof;
    }

    /** The worker's turn with an item: the Work step and, if it flushed, the Limit step. */
    method Handle(li: LogItem) returns (goOn: bool)
      requires cfg.Valid() && worker == Holding(li)
      modifies `record, `closed
      modifies `records, `suspendRecords, `suspendCount, `suspendUntil, `flushCount, `events, `eventLog
      modifies `mailbox, `available, `acceptData, `killReason, `kill
      modifies `processed, `worker
      ensures goOn == !li.eof
      ensures State() == Handled(cfg, old(State()))
    {
      goOn := ProcessItem(li);
      processed := processed + [li];
      worker := Resume(goOn);
    }

    /** The critical section of `feed`. */
    method Post(li: LogItem)
      requires reader == AtMailbox(li)
      modifies `mailbox, `available, `acceptData, `killReason, `kill, `accepted, `reader
      ensures Box() == PostedBox(cfg, old(Box()), li, |events|, HoldsItem(worker)) && reader == Away
      ensures accepted == old(accepted) + if Takes(cfg, old(Box())) then [li] else []
    {
      if |mailbox| > cfg.mailboxMax {
        KillWith(LAZY, HoldsItem(worker));
      } else if acceptData {
        mailbox := mailbox + [li];
        available := available + 1;
        accepted := accepted + [li];
      }
      reader := Away;
    }

    /** Offers one item to the watcher; the answer says whether the watcher still works. */
    method Feed(li: LogItem) returns (ok: bool)
      requires reader.Away?
      modifies `mailbox, `available, `acceptData, `killReason, `kill, `accepted, `reader
      modifies `threadState, `started, `worker
      ensures State() == Fed(cfg, old(State()), li)
      ensures ok <==> OutOfLevel(cfg, li) || (old(acceptData) && old(threadState) != STOPPED)
    {
      if !li.eof && (li.prio > cfg.maxLevel || li.prio < cfg.minLevel) {
        return true;
      }
      if !acceptData || threadState == STOPPED {
        return false;
      }
      StartThread();
      Enter(li);
      return true;
    }

    /** `threadStart`, if the thread is not running yet: create it and wait until it has begun. */
    method StartThread()
      modifies `threadState, `started, `worker
      ensures State() == Running(old(State()))
    {
      if threadState == READY {
        started := started + 1;
        threadState, worker := RUNNING, AtLoop;
        started := started - 1;
      }
    }

    /** The critical section, seen from the whole system. */
    lemma Entered(s: System, s': System, li: LogItem)
      requires s' == WithBox(s.(accepted := s'.accepted), BoxOf(s'))
      requires BoxOf(s') == PostedBox(cfg, BoxOf(s), li, |s.engine.events|, HoldsItem(s.worker))
      requires s'.accepted == s.accepted + if Takes(cfg, BoxOf(s)) then [li] else []
      ensures s' == PostItem(cfg, s, li)
    {
      PostedIsPost(cfg, s, li);
    }

    /** From the control point before the lock to the one behind it. */
    method Enter(li: LogItem)
      requires reader.Away?
      modifies `mailbox, `available, `acceptData, `killReason, `kill, `accepted, `reader
      ensures State() == PostItem(cfg, old(State()), li)
    {
      ghost var s := State();
      reader := AtMailbox(li);
      Post(li);
      Entered(s, State(), li);
    }

    /** The worker's wake-up: one unit of the semaphore, then the head of the mailbox if there is one. */
    method TakeItem() returns (item: Option<LogItem>)
      requires cfg.Valid() && worker.AtLoop? && available > 0
      modifies `mailbox, `available, `worker
      ensures Enabled(cfg, Next(cfg, old(State()), Wait), Take)
      ensures State() == Next(cfg, Next(cfg, old(State()), Wait), Take)
      ensures item == if old(mailbox) == [] then None else Some(old(mailbox)[0])
    {
      available := available - 1;
      if mailbox == [] {
        item := None;
      } else {
        item := Some(mailbox[0]);
        worker := Holding(mailbox[0]);
        mailbox := mailbox[1..];
      }
    }
  }
}
