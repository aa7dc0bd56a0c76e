/**
 * The reader thread and the worker thread of one watcher as interleaved steps.
 * A step is one critical section, one semaphore operation, or one stretch of
 * code that touches only one thread's own data. The reader is the only caller
 * of `feed`.
 */
module WatchProtocol {
  import opened Sequences
  import opened EventEngine
  import opened EngineLaws

  datatype ThreadState = READY | RUNNING | STOPPED
  datatype KillReason = UNKNOWN | LAZY | NOISY | MAX_EVENTS

  /** Where the reader is inside `feed`. */
  datatype ReaderPc = Away | AtSwitch(li: LogItem) | AwaitingStart(li: LogItem) | AtMailbox(li: LogItem)

  /** Where the worker is inside `threadEntry`. */
  datatype WorkerPc =
    | Absent
    | Created
    | AtLoop
    | Woken
    | Holding(li: LogItem)
    | AtLimiter(goOn: bool)
    | Leaving
    | Gone

  /** How often the watcher was killed; the events so far and whether the worker held an item at the last kill. */
  datatype KillLog = KillLog(count: nat, events: nat, held: bool)

  datatype System = System(
    mailbox: seq<LogItem>,
    available: nat,          // semaphore items_available
    started: nat,            // semaphore started
    acceptData: bool,
    killReason: KillReason,
    threadState: ThreadState,
    reader: ReaderPc,
    worker: WorkerPc,
    engine: Engine,
    // history
    accepted: seq<LogItem>,  // items pushed by feed
    processed: seq<LogItem>, // items handed to process
    kill: KillLog)

  function Start(): System
  {
    System([], 0, 0, true, UNKNOWN, READY, Away, Absent, Initial(), [], [], KillLog(0, 0, false))
  }

  datatype Action =
    | CallFeed(li: LogItem)
    | Switch
    | SeeStarted
    | Post
    | Begin
    | Wait
    | Take
    | Work
    | Limit
    | Stop

  predicate ByWorker(a: Action) { a.Begin? || a.Wait? || a.Take? || a.Work? || a.Limit? || a.Stop? }

  predicate Enabled(cfg: Config, s: System, a: Action)
  {
    match a
    case CallFeed(_) => s.reader.Away?
    case Switch => s.reader.AtSwitch?
    case SeeStarted => s.reader.AwaitingStart? && s.started > 0
    case Post => s.reader.AtMailbox?
    case Begin => s.worker.Created?
    case Wait => s.worker.AtLoop? && s.available > 0
    case Take => s.worker.Woken?
    case Work => s.worker.Holding?
    case Limit => s.worker.AtLimiter?
    case Stop => s.worker.Leaving?
  }

  /** The worker has an item to process that is not the end-of-file. */
  predicate HoldsItem(w: WorkerPc) { w.Holding? && !w.li.eof }

  /** Empties the mailbox, leaves one end-of-file in it and refuses further items. */
  function Kill(s: System, reason: KillReason): System
  {
    s.(mailbox := [SyntheticEof()], available := s.available + 1, acceptData := false, killReason := reason,
       kill := KillLog(s.kill.count + 1, |s.engine.events|, HoldsItem(s.worker)))
  }

  predicate Overfull(cfg: Config, mailbox: seq<LogItem>) { |mailbox| > cfg.mailboxMax }

  /** The critical section of `feed`. */
  function PostItem(cfg: Config, s: System, li: LogItem): System
  {
    if Overfull(cfg, s.mailbox) then Kill(s, LAZY)
    else if s.acceptData then
      s.(mailbox := s.mailbox + [li], available := s.available + 1, accepted := s.accepted + [li])
    else s
  }

  function LimitReason(cfg: Config): KillReason
  {
    if cfg.maxEventInterval != 0 then NOISY else MAX_EVENTS
  }

  /** The critical section of `flush`. */
  function Limiter(cfg: Config, s: System): System
    requires cfg.Valid()
  {
    if s.acceptData && !LogContinue(cfg, s.engine) then Kill(s, LimitReason(cfg)) else s
  }

  predicate OutOfLevel(cfg: Config, li: LogItem)
  {
    !li.eof && (li.prio > cfg.maxLevel || li.prio < cfg.minLevel)
  }

  /** After `process`: back to the loop, or out of it after an end-of-file. */
  function Resume(goOn: bool): WorkerPc { if goOn then AtLoop else Leaving }

  /** `process` has turned the engine into `e`; if it flushed, the limiter is next. */
  function Finish(s: System, li: LogItem, e: Engine): System
  {
    s.(engine := e, processed := s.processed + [li],
       worker := if e.flushCount > s.engine.flushCount then AtLimiter(!li.eof) else Resume(!li.eof))
  }

  function Next(cfg: Config, s: System, a: Action): System
    requires cfg.Valid() && Enabled(cfg, s, a)
  {
    match a
    case CallFeed(li) =>
      if OutOfLevel(cfg, li) || !s.acceptData then s else s.(reader := AtSwitch(li))
    case Switch =>
      (match s.threadState
       case STOPPED => s.(reader := Away)
       case READY => s.(reader := AwaitingStart(s.reader.li), worker := Created)
       case RUNNING => s.(reader := AtMailbox(s.reader.li)))
    case SeeStarted => s.(started := s.started - 1, reader := AtMailbox(s.reader.li))
    case Post => PostItem(cfg, s, s.reader.li).(reader := Away)
    case Begin => s.(threadState := RUNNING, started := s.started + 1, worker := AtLoop)
    case Wait => s.(available := s.available - 1, worker := Woken)
    case Take =>
      if s.mailbox == [] then s.(worker := AtLoop)
      else s.(worker := Holding(s.mailbox[0]), mailbox := s.mailbox[1..])
    case Work => Finish(s, s.worker.li, Process(cfg, s.engine, s.worker.li))
    case Limit => Limiter(cfg, s).(worker := Resume(s.worker.goOn))
    case Stop => s.(threadState := STOPPED, worker := Gone)
  }

  /** Where the schedule `acts` leads, if every step is enabled when its turn comes. */
  function Outcome(cfg: Config, from: System, acts: seq<Action>): Option<System>
    requires cfg.Valid()
    decreases |acts|
  {
    if acts == [] then Some(from)
    else
      var m := Outcome(cfg, from, acts[..|acts| - 1]);
      if m.Some? && Enabled(cfg, m.value, acts[|acts| - 1]) then Some(Next(cfg, m.value, acts[|acts| - 1]))
      else None
  }

  // ---- The invariant ----

  function InHand(w: WorkerPc): seq<LogItem> { if w.Holding? then [w.li] else [] }

  /** Items on their way: processed, in the worker's hands, or in the mailbox. */
  function Pipeline(s: System): seq<LogItem>
  {
    s.processed + InHand(s.worker) + s.mailbox
  }

  predicate SawEof(s: System) { s.processed != [] && s.processed[|s.processed| - 1].eof }

  /** Before a kill the pipeline is what was accepted; after it, a prefix of it and one end-of-file. */
  ghost predicate Faithful(s: System)
  {
    if s.acceptData then Pipeline(s) == s.accepted
    else exists k :: 0 <= k <= |s.accepted| && Pipeline(s) == s.accepted[..k] + [SyntheticEof()]
  }

  ghost predicate Threads(s: System)
  {
    && (s.threadState == READY <==> s.worker.Absent? || s.worker.Created?)
    && (s.threadState == STOPPED <==> s.worker.Gone?)
    && (s.threadState == READY ==> s.mailbox == [] && s.acceptData && s.processed == [] && !s.reader.AtMailbox?)
    && (s.worker.Created? ==> s.reader.AwaitingStart? && s.started == 0)
    && (s.worker.Absent? ==> !s.reader.AwaitingStart? && s.started == 0)
    && (s.reader.AwaitingStart? && !s.worker.Created? ==> s.started == 1)
    && StopsAtEof(s.processed)
    && (SawEof(s) <==> s.worker == AtLimiter(false) || s.worker.Leaving? || s.worker.Gone?)
  }

  ghost predicate Counts(cfg: Config, s: System)
  {
    && |s.mailbox| <= cfg.mailboxMax + 1
    && s.available + (if s.worker.Woken? then 1 else 0) >= |s.mailbox|
    && s.kill.count == (if s.acceptData then 0 else 1)
    && (s.killReason == UNKNOWN <==> s.acceptData)
    && (!s.acceptData ==> |s.mailbox| <= 1)
  }

  ghost predicate Channel(cfg: Config, s: System)
  {
    Threads(s) && Counts(cfg, s) && Faithful(s)
  }

  /** What every reachable state satisfies. */
  ghost predicate Inv(cfg: Config, s: System)
    requires cfg.Valid()
  {
    Channel(cfg, s) && s.engine == Run(cfg, s.processed)
  }

  lemma EofIsLast(s: System)
    requires !s.acceptData && Faithful(s)
    ensures Pipeline(s) != [] && Pipeline(s)[|Pipeline(s)| - 1] == SyntheticEof()
  {
  }

  lemma KillKeeps(cfg: Config, s: System, reason: KillReason)
    requires Channel(cfg, s) && s.acceptData && s.threadState != READY && reason != UNKNOWN
    ensures Channel(cfg, Kill(s, reason))
  {
    var s' := Kill(s, reason);
    var done := s.processed + InHand(s.worker);
    assert done == s.accepted[..|done|];
    assert Pipeline(s') == s.accepted[..|done|] + [SyntheticEof()];
  }

  lemma PostKeeps(cfg: Config, s: System)
    requires cfg.Valid() && Channel(cfg, s) && s.reader.AtMailbox?
    ensures Channel(cfg, PostItem(cfg, s, s.reader.li).(reader := Away))
  {
    var s0 := s.(reader := Away);
    assert Pipeline(s0) == Pipeline(s);
    if Overfull(cfg, s.mailbox) {
      KillKeeps(cfg, s0, LAZY);
    } else if s.acceptData {
      assert Pipeline(PostItem(cfg, s0, s.reader.li)) == Pipeline(s) + [s.reader.li];
    }
  }

  lemma LimitKeeps(cfg: Config, s: System)
    requires cfg.Valid() && Channel(cfg, s) && s.worker.AtLimiter?
    ensures Channel(cfg, Limiter(cfg, s).(worker := Resume(s.worker.goOn)))
  {
    var s0 := s.(worker := Resume(s.worker.goOn));
    assert Pipeline(s0) == Pipeline(s);
    if s.acceptData && !LogContinue(cfg, s.engine) {
      KillKeeps(cfg, s0, LimitReason(cfg));
    }
  }

  lemma FinishKeeps(cfg: Config, s: System, e: Engine)
    requires Channel(cfg, s) && s.worker.Holding?
    ensures Channel(cfg, Finish(s, s.worker.li, e))
  {
    assert Pipeline(Finish(s, s.worker.li, e)) == Pipeline(s);
  }

  /** The reader's steps up to the mailbox. */
  lemma ReaderKeeps(cfg: Config, s: System, a: Action)
    requires cfg.Valid() && Channel(cfg, s) && Enabled(cfg, s, a) && (a.CallFeed? || a.Switch? || a.SeeStarted?)
    ensures Channel(cfg, Next(cfg, s, a))
  {
    assert Pipeline(Next(cfg, s, a)) == Pipeline(s);
  }

  lemma TakeKeeps(cfg: Config, s: System)
    requires cfg.Valid() && Channel(cfg, s) && s.worker.Woken?
    ensures Channel(cfg, Next(cfg, s, Take))
  {
    assert Pipeline(Next(cfg, s, Take)) == Pipeline(s);
    assert Faithful(Next(cfg, s, Take));
    assert Counts(cfg, Next(cfg, s, Take));
  }

  /** The worker's steps that move only control and the semaphores. */
  lemma WorkerKeeps(cfg: Config, s: System, a: Action)
    requires cfg.Valid() && Channel(cfg, s) && Enabled(cfg, s, a) && (a.Begin? || a.Wait? || a.Stop?)
    ensures Channel(cfg, Next(cfg, s, a))
  {
    assert Pipeline(Next(cfg, s, a)) == Pipeline(s);
  }

  lemma StepKeeps(cfg: Config, s: System, a: Action)
    requires cfg.Valid() && Inv(cfg, s) && Enabled(cfg, s, a)
    ensures Inv(cfg, Next(cfg, s, a))
  {
    match a
    case Post => PostKeeps(cfg, s);
    case Limit => LimitKeeps(cfg, s);
    case Work =>
      FinishKeeps(cfg, s, Process(cfg, s.engine, s.worker.li));
      var done := Next(cfg, s, a).processed;
      assert done[..|done| - 1] == s.processed;
    case CallFeed(_) => ReaderKeeps(cfg, s, a);
    case Switch => ReaderKeeps(cfg, s, a);
    case SeeStarted => ReaderKeeps(cfg, s, a);
    case Take => TakeKeeps(cfg, s);
    case _ => WorkerKeeps(cfg, s, a);
  }

  /** Every interleaving keeps the invariant. */
  lemma {:induction false} Safety(cfg: Config, acts: seq<Action>)
    requires cfg.Valid() && Outcome(cfg, Start(), acts).Some?
    ensures Inv(cfg, Outcome(cfg, Start(), acts).value)
  {
    if acts == [] {
    } else {
      Safety(cfg, acts[..|acts| - 1]);
      StepKeeps(cfg, Outcome(cfg, Start(), acts[..|acts| - 1]).value, acts[|acts| - 1]);
    }
  }

  // ---- What the invariant means for the two threads ----

  /**
   * In every interleaving the worker sees the accepted items in order, then possibly
   * one synthetic end-of-file; the mailbox stays bounded, the semaphore covers it,
   * and the watcher is killed at most once.
   */
  lemma WorkerSeesPrefix(cfg: Config, acts: seq<Action>)
    requires cfg.Valid() && Outcome(cfg, Start(), acts).Some?
    ensures var s := Outcome(cfg, Start(), acts).value;
            && (exists k :: 0 <= k <= |s.accepted| &&
                 (s.processed == s.accepted[..k] || s.processed == s.accepted[..k] + [SyntheticEof()]))
            && |s.mailbox| <= cfg.mailboxMax + 1
            && s.available + (if s.worker.Woken? then 1 else 0) >= |s.mailbox|
            && s.kill.count <= 1
  {
    Safety(cfg, acts);
    var s := Outcome(cfg, Start(), acts).value;
    var n := |s.processed|;
    assert Pipeline(s)[..n] == s.processed;
    if s.acceptData {
      assert s.processed == s.accepted[..n];
    } else {
      var k :| 0 <= k <= |s.accepted| && Pipeline(s) == s.accepted[..k] + [SyntheticEof()];
      if n <= k {
        assert s.processed == s.accepted[..n];
      } else {
        assert s.processed == s.accepted[..k] + [SyntheticEof()];
      }
    }
  }

  /** After a kill an end-of-file waits in the mailbox or is in hand until the worker leaves. */
  lemma EofPending(cfg: Config, s: System)
    requires cfg.Valid() && Channel(cfg, s) && !s.acceptData && !SawEof(s)
    ensures s.mailbox == [SyntheticEof()] || (s.mailbox == [] && s.worker == Holding(SyntheticEof()))
  {
    EofIsLast(s);
  }

  /** Steps the worker still has to take once the watcher is killed. */
  function Remaining(w: WorkerPc): nat
  {
    match w
    case Absent => 10
    case Created => 9
    case Holding(li) => if li.eof then 4 else 8
    case AtLimiter(goOn) => if goOn then 7 else 3
    case AtLoop => 6
    case Woken => 5
    case Leaving => 2
    case Gone => 0
  }

  /** The step the worker takes next. */
  function Turn(w: WorkerPc): Action
    requires !w.Absent? && !w.Gone?
  {
    match w
    case Created => Begin
    case Holding(_) => Work
    case AtLimiter(_) => Limit
    case AtLoop => Wait
    case Woken => Take
    case Leaving => Stop
  }

  /** A killed worker is never blocked before it is gone. */
  lemma KilledNotBlocked(cfg: Config, s: System)
    requires cfg.Valid() && Channel(cfg, s) && !s.acceptData && !s.worker.Gone?
    ensures !s.worker.Absent? && Enabled(cfg, s, Turn(s.worker)) && Remaining(s.worker) <= 8
  {
    if !SawEof(s) {
      EofPending(cfg, s);
    }
  }

  /** Each step of a killed worker brings the end closer; the reader neither delays nor revives it. */
  lemma KilledProgress(cfg: Config, s: System, a: Action)
    requires cfg.Valid() && Channel(cfg, s) && !s.acceptData && Enabled(cfg, s, a)
    ensures !Next(cfg, s, a).acceptData
    ensures if ByWorker(a) then Remaining(Next(cfg, s, a).worker) < Remaining(s.worker)
            else Next(cfg, s, a).worker == s.worker
  {
    if a.Take? {
      EofPending(cfg, s);
    }
  }

  function WorkerSteps(acts: seq<Action>): nat
  {
    if acts == [] then 0
    else WorkerSteps(acts[..|acts| - 1]) + (if ByWorker(acts[|acts| - 1]) then 1 else 0)
  }

  /**
   * Termination of a killed watcher: from the kill on, any continuation holds at most
   * eight worker steps, and the worker can move until it is gone.
   */
  lemma {:induction false} KilledTerminates(cfg: Config, acts: seq<Action>, more: seq<Action>)
    requires cfg.Valid() && Outcome(cfg, Start(), acts).Some?
    requires !Outcome(cfg, Start(), acts).value.acceptData
    requires Outcome(cfg, Outcome(cfg, Start(), acts).value, more).Some?
    ensures var s, t := Outcome(cfg, Start(), acts).value, Outcome(cfg, Outcome(cfg, Start(), acts).value, more).value;
            && Inv(cfg, t) && !t.acceptData
            && WorkerSteps(more) + Remaining(t.worker) <= Remaining(s.worker) <= 8
            && (t.worker.Gone? || (!t.worker.Absent? && Enabled(cfg, t, Turn(t.worker))))
  {
    var s := Outcome(cfg, Start(), acts).value;
    Safety(cfg, acts);
    if !s.worker.Gone? {
      KilledNotBlocked(cfg, s);
    }
    if more == [] {
    } else {
      var a := more[|more| - 1];
      var m := Outcome(cfg, s, more[..|more| - 1]).value;
      KilledTerminates(cfg, acts, more[..|more| - 1]);
      KilledProgress(cfg, m, a);
      StepKeeps(cfg, m, a);
      if !Next(cfg, m, a).worker.Gone? {
        KilledNotBlocked(cfg, Next(cfg, m, a));
      }
    }
  }

  // ---- Rates ----

  /** What the limiter looks at. */
  predicate SameLimits(e: Engine, e': Engine)
  {
    e'.flushCount == e.flushCount && e'.eventLog == e.eventLog && e'.events == e.events
  }

  lemma CollectIsQuiet(cfg: Config, e: Engine, li: LogItem)
    ensures SameLimits(e, Collect(cfg, e, li))
  {
  }

  lemma GatherIsQuiet(cfg: Config, e: Engine, li: LogItem)
    ensures SameLimits(e, Gather(cfg, e, li))
  {
    CollectIsQuiet(cfg, e, li);
    assert SameLimits(Collect(cfg, e, li), CloseOpen(cfg, Collect(cfg, e, li)));
  }

  lemma DeliverFlushesOnce(cfg: Config, e: Engine, li: LogItem)
    requires cfg.Valid()
    ensures var e' := Deliver(cfg, e, li);
            SameLimits(e, e') || (e'.flushCount == e.flushCount + 1 && |e'.events| == |e.events| + 1)
  {
  }

  /** A call of `process` flushes at most once, and without a flush the limiter's data stay put. */
  lemma ProcessFlushesOnce(cfg: Config, e: Engine, li: LogItem)
    requires cfg.Valid()
    ensures var e' := Process(cfg, e, li);
            SameLimits(e, e') || (e'.flushCount == e.flushCount + 1 && |e'.events| == |e.events| + 1)
  {
    GatherIsQuiet(cfg, e, li);
    DeliverFlushesOnce(cfg, Gather(cfg, e, li), li);
  }

  /** With no interval configured, maxEventCount bounds the events of a whole run. */
  ghost predicate Capped(cfg: Config, s: System)
  {
    var n := s.engine.flushCount;
    cfg.maxEventInterval == 0 ==>
      && n <= cfg.maxEventCount + 1
      && (!SawEof(s) ==> n <= cfg.maxEventCount)
      && (HoldsItem(s.worker) ==> n < cfg.maxEventCount)
  }

  /**
   * After a kill the end-of-file can bring one more event, and the item the worker had
   * in hand, if any, another one; a kill raised in `flush` finds no item in hand.
   */
  ghost predicate Subsides(s: System)
  {
    var n, held := |s.engine.events|, if s.kill.held then 1 else 0;
    !s.acceptData ==>
      && (s.killReason != LAZY ==> !s.kill.held)
      && s.kill.events <= n <= s.kill.events + held + 1
      && (!SawEof(s) ==> n <= s.kill.events + held)
      && (HoldsItem(s.worker) ==> s.kill.held && n == s.kill.events)
  }

  ghost predicate Rates(cfg: Config, s: System)
    requires cfg.Valid()
  {
    && (s.acceptData && !s.worker.AtLimiter? ==> LogContinue(cfg, s.engine))
    && Capped(cfg, s)
    && Subsides(s)
    && (cfg.maxEventInterval == 0 || QuietEnough(cfg) ==> s.killReason != NOISY)
  }

  lemma FinishRates(cfg: Config, s: System, e: Engine)
    requires cfg.Valid() && Inv(cfg, s) && Rates(cfg, s) && s.worker.Holding?
    requires SameLimits(s.engine, e) || (e.flushCount == s.engine.flushCount + 1 && |e.events| == |s.engine.events| + 1)
    ensures Rates(cfg, Finish(s, s.worker.li, e))
  {
  }

  lemma TakeRates(cfg: Config, s: System)
    requires cfg.Valid() && Inv(cfg, s) && Rates(cfg, s) && Enabled(cfg, s, Take)
    ensures Rates(cfg, Next(cfg, s, Take))
  {
    if !s.acceptData {
      EofPending(cfg, s);
    }
  }

  lemma LimitRates(cfg: Config, s: System)
    requires cfg.Valid() && Inv(cfg, s) && Rates(cfg, s) && s.worker.AtLimiter?
    ensures Rates(cfg, Limiter(cfg, s).(worker := Resume(s.worker.goOn)))
  {
    if cfg.maxEventInterval > 0 && QuietEnough(cfg) {
      NeverNoisy(cfg, s.processed);
    }
  }

  lemma PostRates(cfg: Config, s: System)
    requires cfg.Valid() && Inv(cfg, s) && Rates(cfg, s) && s.reader.AtMailbox?
    ensures Rates(cfg, PostItem(cfg, s, s.reader.li).(reader := Away))
  {
  }

  /** Steps that leave the engine, the limiter's verdict and the worker's item alone. */
  lemma MoveRates(cfg: Config, s: System, a: Action)
    requires cfg.Valid() && Inv(cfg, s) && Rates(cfg, s) && Enabled(cfg, s, a) && !a.Work? && !a.Take? && !a.Limit? && !a.Post?
    ensures Rates(cfg, Next(cfg, s, a))
  {
  }

  lemma StepRates(cfg: Config, s: System, a: Action)
    requires cfg.Valid() && Inv(cfg, s) && Rates(cfg, s) && Enabled(cfg, s, a)
    ensures Rates(cfg, Next(cfg, s, a))
  {
    match a
    case Work =>
      ProcessFlushesOnce(cfg, s.engine, s.worker.li);
      FinishRates(cfg, s, Process(cfg, s.engine, s.worker.li));
    case Take => TakeRates(cfg, s);
    case Limit => LimitRates(cfg, s);
    case Post => PostRates(cfg, s);
    case _ => MoveRates(cfg, s, a);
  }

  /** In every interleaving the rate limiter does what it promises. */
  lemma {:induction false} RatesHold(cfg: Config, acts: seq<Action>)
    requires cfg.Valid() && Outcome(cfg, Start(), acts).Some?
    ensures Rates(cfg, Outcome(cfg, Start(), acts).value)
  {
    if acts == [] {
    } else {
      var m := Outcome(cfg, Start(), acts[..|acts| - 1]).value;
      Safety(cfg, acts[..|acts| - 1]);
      RatesHold(cfg, acts[..|acts| - 1]);
      StepRates(cfg, m, acts[|acts| - 1]);
    }
  }

  /** While the watcher is alive, its last maxEventCount + 1 events span maxEventInterval. */
  lemma AliveSpan(cfg: Config, acts: seq<Action>)
    requires cfg.Valid() && Outcome(cfg, Start(), acts).Some?
    ensures var s := Outcome(cfg, Start(), acts).value;
            s.acceptData && !s.worker.AtLimiter? && cfg.maxEventInterval > 0 ==> Wide(cfg, s.engine.events)
  {
    Safety(cfg, acts);
    RatesHold(cfg, acts);
    SpanOf(cfg, Outcome(cfg, Start(), acts).value);
  }

  lemma SpanOf(cfg: Config, s: System)
    requires cfg.Valid() && Inv(cfg, s) && Rates(cfg, s)
    ensures s.acceptData && !s.worker.AtLimiter? && cfg.maxEventInterval > 0 ==> Wide(cfg, s.engine.events)
  {
    if cfg.maxEventInterval > 0 {
      RunLimit(cfg, s.processed);
    }
  }

  /** A watcher whose suspend windows cover the interval is never killed as noisy. */
  lemma NeverKilledNoisy(cfg: Config, acts: seq<Action>)
    requires cfg.Valid() && Outcome(cfg, Start(), acts).Some?
    requires cfg.suspendInterval * cfg.maxEventCount >= cfg.maxEventInterval
    ensures Outcome(cfg, Start(), acts).value.killReason != NOISY
  {
    SecondsSuffice(cfg);
    RatesHold(cfg, acts);
  }

  /** With maxEventInterval = 0 a run emits at most maxEventCount + 1 events. */
  lemma EventCap(cfg: Config, acts: seq<Action>)
    requires cfg.Valid() && Outcome(cfg, Start(), acts).Some? && cfg.maxEventInterval == 0
    ensures |Outcome(cfg, Start(), acts).value.engine.events| <= cfg.maxEventCount + 1
  {
    Safety(cfg, acts);
    RatesHold(cfg, acts);
    RunKeeps(cfg, Outcome(cfg, Start(), acts).value.processed);
  }
}
