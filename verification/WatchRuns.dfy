/**
 * When a watcher can be killed as noisy at all, and how many events can follow a
 * lazy kill: runs of the protocol that reach the bounds.
 */
module WatchRuns {
  import opened Sequences
  import opened Time
  import opened EventEngine
  import opened EngineLaws
  import opened WatchProtocol
  import EventWatch

  // ---- Watchers that can never report ----

  /** A line that validates the record it continues. */
  ghost predicate IsValidator(cfg: Config, v: string)
  {
    Matches(cfg.valid, v) && !Matches(cfg.start, v) && !Matches(cfg.end, v)
  }

  /** Some line opens a record, passes the level filter, and the record can become valid. */
  ghost predicate CanReport(cfg: Config)
  {
    && cfg.minLevel <= cfg.maxLevel
    && (exists m :: Matches(cfg.start, m))
    && (cfg.valid.None? || (cfg.maxItems >= 2 && exists v :: IsValidator(cfg, v)))
  }

  ghost predicate InLevel(cfg: Config, items: seq<LogItem>)
  {
    forall i :: 0 <= i < |items| ==> !OutOfLevel(cfg, items[i])
  }

  /** A valid record shows that its watcher's patterns let it report. */
  lemma RecordShows(cfg: Config, r: Record)
    requires RecordOk(cfg, r) && r.valid
    ensures exists m :: Matches(cfg.start, m)
    ensures cfg.valid.None? || (cfg.maxItems >= 2 && exists v :: IsValidator(cfg, v))
  {
    assert Matches(cfg.start, r.items[0].msg);
    if cfg.valid.Some? {
      var i :| LastValidator(cfg, r.items, i) && r.captures == cfg.valid.value.captures(r.items[i].msg);
      assert IsValidator(cfg, r.items[i].msg);
    }
  }

  /** An end-of-file alone reports nothing. */
  lemma EofAlone(cfg: Config, li: LogItem)
    requires cfg.Valid() && li.eof
    ensures Run(cfg, [li]).events == []
  {
    assert [li][..0] == [];
    assert Gather(cfg, Initial(), li) == Initial();
  }

  lemma MuteRun(cfg: Config, items: seq<LogItem>)
    requires cfg.Valid() && StopsAtEof(items) && InLevel(cfg, items) && !CanReport(cfg)
    ensures Run(cfg, items).events == []
  {
    var events := Run(cfg, items).events;
    if cfg.minLevel > cfg.maxLevel {
      assert forall i :: 0 <= i < |items| ==> items[i].eof;
      if items != [] {
        assert items == [items[0]];
        EofAlone(cfg, items[0]);
      }
    } else if events != [] {
      RunKeeps(cfg, items);
      assert EventOk(cfg, events[0]);
      RecordShows(cfg, events[0].records[0]);
    }
  }

  /** The limiter never stops a run of a watcher that is quiet enough or mute. */
  lemma NeverStopped(cfg: Config, items: seq<LogItem>)
    requires cfg.Valid() && StopsAtEof(items) && InLevel(cfg, items) && cfg.maxEventInterval > 0
    requires QuietEnough(cfg) || !CanReport(cfg)
    ensures LogContinue(cfg, Run(cfg, items))
  {
    if QuietEnough(cfg) {
      NeverNoisy(cfg, items);
    } else {
      RunKeeps(cfg, items);
      MuteRun(cfg, items);
    }
  }

  /** Only items that pass the level filter get beyond the entry of `feed`. */
  ghost predicate Filtered(cfg: Config, s: System)
  {
    && (!s.reader.Away? ==> !OutOfLevel(cfg, s.reader.li))
    && InLevel(cfg, s.accepted)
  }

  lemma {:induction false} FilterHolds(cfg: Config, acts: seq<Action>)
    requires cfg.Valid() && Outcome(cfg, Start(), acts).Some?
    ensures Filtered(cfg, Outcome(cfg, Start(), acts).value)
  {
    if acts != [] {
      FilterHolds(cfg, acts[..|acts| - 1]);
      FilterStep(cfg, Outcome(cfg, Start(), acts[..|acts| - 1]).value, acts[|acts| - 1]);
    }
  }

  lemma FilterStep(cfg: Config, s: System, a: Action)
    requires cfg.Valid() && Filtered(cfg, s) && Enabled(cfg, s, a)
    ensures Filtered(cfg, Next(cfg, s, a))
  {
  }

  lemma ProcessedInLevel(cfg: Config, acts: seq<Action>)
    requires cfg.Valid() && Outcome(cfg, Start(), acts).Some?
    ensures InLevel(cfg, Outcome(cfg, Start(), acts).value.processed)
  {
    FilterHolds(cfg, acts);
    WorkerSeesPrefix(cfg, acts);
  }

  /** Only the limiter kills a watcher as noisy. */
  lemma KilledByLimiter(cfg: Config, s: System, a: Action)
    requires cfg.Valid() && Enabled(cfg, s, a) && s.killReason != NOISY
    ensures Next(cfg, s, a).killReason == NOISY ==>
              a == Limit && cfg.maxEventInterval > 0 && !LogContinue(cfg, s.engine)
  {
  }

  lemma {:induction false} NeverKilled(cfg: Config, acts: seq<Action>)
    requires cfg.Valid() && Outcome(cfg, Start(), acts).Some?
    requires QuietEnough(cfg) || !CanReport(cfg)
    ensures Outcome(cfg, Start(), acts).value.killReason != NOISY
  {
    if acts != [] {
      var before := acts[..|acts| - 1];
      var s := Outcome(cfg, Start(), before).value;
      NeverKilled(cfg, before);
      KilledByLimiter(cfg, s, acts[|acts| - 1]);
      if cfg.maxEventInterval > 0 {
        Safety(cfg, before);
        ProcessedInLevel(cfg, before);
        NeverStopped(cfg, s.processed);
      }
    }
  }

  // ---- Driving items through the two threads, one at a time ----

  lemma {:induction false} OutcomeSplit(cfg: Config, from: System, a: seq<Action>, b: seq<Action>)
    requires cfg.Valid() && Outcome(cfg, from, a).Some?
    ensures Outcome(cfg, from, a + b) == Outcome(cfg, Outcome(cfg, from, a).value, b)
    decreases |b|
  {
    if b == [] {
      assert a + b == a;
    } else {
      OutcomeSplit(cfg, from, a, b[..|b| - 1]);
      assert (a + b)[..|a + b| - 1] == a + b[..|b| - 1];
    }
  }

  /** Both threads are at rest and nothing waits. */
  ghost predicate Idle(s: System)
  {
    && s.reader.Away? && s.acceptData && s.mailbox == []
    && ((s.worker.Absent? && s.threadState == READY) || (s.worker.AtLoop? && s.threadState == RUNNING))
  }

  /** The worker has just taken the item that was fed. */
  function TakenUp(s: System, li: LogItem): System
  {
    s.(threadState := RUNNING, worker := Holding(li), accepted := s.accepted + [li])
  }

  lemma FeedAndTake(cfg: Config, s: System, li: LogItem) returns (acts: seq<Action>)
    requires cfg.Valid() && Idle(s) && !OutOfLevel(cfg, li)
    ensures Outcome(cfg, s, acts) == Some(TakenUp(s, li))
  {
    acts := EventWatch.FedIsSchedule(cfg, s, li);
    EventWatch.ChainOutcome(cfg, s, acts, Wait);
    acts := acts + [Wait];
    EventWatch.ChainOutcome(cfg, s, acts, Take);
    acts := acts + [Take];
    assert ([] + [li])[1..] == [];
  }

  /** One item from `feed` to the end of `process`, unless the limiter kills the watcher. */
  lemma DriveOne(cfg: Config, s: System, li: LogItem) returns (acts: seq<Action>)
    requires cfg.Valid() && cfg.maxEventInterval > 0 && Idle(s) && !OutOfLevel(cfg, li) && !li.eof
    ensures Outcome(cfg, s, acts).Some?
    ensures var s' := Outcome(cfg, s, acts).value;
            s'.killReason == NOISY || (Idle(s') && s'.processed == s.processed + [li])
  {
    acts := FeedAndTake(cfg, s, li);
    EventWatch.ChainOutcome(cfg, s, acts, Work);
    acts := acts + [Work];
    if Outcome(cfg, s, acts).value.worker.AtLimiter? {
      EventWatch.ChainOutcome(cfg, s, acts, Limit);
      acts := acts + [Limit];
    }
  }

  ghost predicate Plain(items: seq<LogItem>) { forall i :: 0 <= i < |items| ==> !items[i].eof }

  lemma {:induction false} Drive(cfg: Config, items: seq<LogItem>) returns (acts: seq<Action>)
    requires cfg.Valid() && cfg.maxEventInterval > 0 && InLevel(cfg, items) && Plain(items)
    ensures Outcome(cfg, Start(), acts).Some?
    ensures var s := Outcome(cfg, Start(), acts).value;
            s.killReason == NOISY || (Idle(s) && s.processed == items)
    decreases |items|
  {
    if items == [] {
      acts := [];
    } else {
      var n := |items| - 1;
      acts := Drive(cfg, items[..n]);
      var s := Outcome(cfg, Start(), acts).value;
      if s.killReason != NOISY {
        var more := DriveOne(cfg, s, items[n]);
        OutcomeSplit(cfg, Start(), acts, more);
        acts := acts + more;
        assert items == items[..n] + [items[n]];
      }
    }
  }

  // ---- A burst of records that all bear the same time ----

  /** The items of one record: a start line and, if needed, a validating line. */
  function Unit(cfg: Config, ts: TimeVal, m: string, v: string): seq<LogItem>
  {
    var start := LogItem(ts, cfg.minLevel, m, false);
    if cfg.valid.None? then [start] else [start, LogItem(ts, cfg.minLevel, v, false)]
  }

  /** The lines do what they are for. */
  ghost predicate Usable(cfg: Config, m: string, v: string)
  {
    && cfg.Valid() && Matches(cfg.start, m)
    && (cfg.valid.Some? ==> cfg.maxItems >= 2 && IsValidator(cfg, v))
  }

  /** After the event of this burst its suspend window is in force and nothing is pending. */
  ghost predicate Covering(cfg: Config, e: Engine, ts: TimeVal)
  {
    cfg.suspendInterval > 0 ==> e.records == [] && e.suspendUntil == Plus(ts, Seconds(cfg.suspendInterval))
  }

  ghost predicate Beyond(cfg: Config, e: Engine, ts: TimeVal)
  {
    cfg.suspendInterval > 0 ==> Less(e.suspendUntil, ts)
  }

  /** New events and pending records bear the time of the burst; there is a new event, or `p` records are pending. */
  ghost predicate Piled(cfg: Config, e: Engine, ts: TimeVal, was: seq<Event>, p: int)
  {
    && (forall i :: 0 <= i < |e.records| ==> e.records[i].Timestamp() == ts)
    && |was| <= |e.events| && e.events[..|was|] == was
    && (forall k :: |was| <= k < |e.events| ==> e.events[k].ts == ts)
    && if |e.events| > |was| then Covering(cfg, e, ts) else |e.records| >= p && Beyond(cfg, e, ts)
  }

  lemma PileFresh(cfg: Config, e: Engine, ts: TimeVal, was: seq<Event>, p: int, r: Record)
    requires Piled(cfg, e, ts, was, p) && r.valid && r.Timestamp() == ts
    ensures Piled(cfg, AddRecord(cfg, e, r), ts, was, p + 1)
  {
  }

  /** A record left over from an earlier burst falls into the window of that burst's event. */
  lemma PileStale(cfg: Config, e: Engine, ts: TimeVal, was: seq<Event>, p: int, r: Record)
    requires Piled(cfg, e, ts, was, p) && r.valid && InSuspendWindow(cfg, e, r)
    ensures Piled(cfg, AddRecord(cfg, e, r), ts, was, p)
  {
  }

  lemma PileDelivered(cfg: Config, g: Engine, ts: TimeVal, was: seq<Event>, p: int, li: LogItem)
    requires cfg.Valid() && Piled(cfg, g, ts, was, p) && li.ts == ts && !li.eof
    ensures Piled(cfg, Deliver(cfg, g, li), ts, was, p)
  {
  }

  /** The open record: valid, with room left, of this burst or stale. */
  ghost predicate Ripe(cfg: Config, e: Engine, ts: TimeVal)
  {
    e.record.Some? ==>
      && e.record.value.valid && 1 <= |e.record.value.items| < cfg.maxItems
      && (e.record.value.Timestamp() == ts || InSuspendWindow(cfg, e, e.record.value))
  }

  /** How many records of this burst are open. */
  function Fresh(e: Engine, ts: TimeVal): nat
  {
    if e.record.Some? && e.record.value.Timestamp() == ts then 1 else 0
  }

  ghost predicate Phase(cfg: Config, e: Engine, ts: TimeVal, was: seq<Event>, p: int)
  {
    Piled(cfg, e, ts, was, p - Fresh(e, ts)) && Ripe(cfg, e, ts)
  }

  /** Closing the open record keeps the pile, and adds to it if the record is of this burst. */
  lemma PhaseCloses(cfg: Config, e: Engine, ts: TimeVal, was: seq<Event>, p: int)
    requires Phase(cfg, e, ts, was, p)
    ensures Piled(cfg, CloseOpen(cfg, e), ts, was, p) && CloseOpen(cfg, e).record.None?
  {
    if e.record.Some? {
      var r, rest := e.record.value, e.(record := None);
      if r.Timestamp() == ts {
        PileFresh(cfg, rest, ts, was, p - 1, r);
      } else {
        PileStale(cfg, rest, ts, was, p, r);
      }
    }
  }

  /** The engine with its records closed up to `e`, when a fresh record is opened with `li`. */
  lemma StartOpens(cfg: Config, e: Engine, li: LogItem)
    requires Opens(cfg, li) && cfg.maxItems >= 2 && cfg.Valid()
    ensures Gather(cfg, e, li) == CloseOpen(cfg, e).(record := Some(Opened(cfg, li)))
  {
  }

  lemma StartCloses(cfg: Config, e: Engine, li: LogItem)
    requires Opens(cfg, li) && cfg.maxItems == 1 && cfg.Valid() && e.record.None?
    ensures Gather(cfg, e, li) == AddRecord(cfg, e, Opened(cfg, li))
  {
  }

  /** With no validation pattern a start line is a whole record. */
  lemma StartStep(cfg: Config, e: Engine, ts: TimeVal, was: seq<Event>, p: int, li: LogItem)
    requires cfg.Valid() && cfg.valid.None? && Phase(cfg, e, ts, was, p) && Opens(cfg, li) && li.ts == ts
    ensures Phase(cfg, Process(cfg, e, li), ts, was, p + 1)
  {
    PhaseCloses(cfg, e, ts, was, p);
    var g := Gather(cfg, e, li);
    DeliverCarries(cfg, g, li);
    if cfg.maxItems == 1 {
      StartCloses(cfg, e, li);
      PileFresh(cfg, e, ts, was, p, Opened(cfg, li));
      PileDelivered(cfg, g, ts, was, p + 1, li);
    } else {
      StartOpens(cfg, e, li);
      PileDelivered(cfg, g, ts, was, p, li);
    }
  }

  /** Between the start line and the validating line. */
  ghost predicate Halfway(cfg: Config, e: Engine, ts: TimeVal, was: seq<Event>, p: int, li: LogItem)
  {
    Piled(cfg, e, ts, was, p) && li.ts == ts && e.record == Some(Record([li], false, []))
  }

  lemma OpeningStep(cfg: Config, e: Engine, ts: TimeVal, was: seq<Event>, p: int, li: LogItem)
    requires cfg.Valid() && cfg.valid.Some? && cfg.maxItems >= 2 && Phase(cfg, e, ts, was, p) && Opens(cfg, li) && li.ts == ts
    ensures Halfway(cfg, Process(cfg, e, li), ts, was, p, li)
  {
    PhaseCloses(cfg, e, ts, was, p);
    StartOpens(cfg, e, li);
    var g := Gather(cfg, e, li);
    DeliverCarries(cfg, g, li);
    PileDelivered(cfg, g, ts, was, p, li);
  }

  /** What the validating line makes of the open record. */
  lemma ValidatedIs(cfg: Config, e: Engine, first: LogItem, li: LogItem)
    requires e.record == Some(Record([first], false, [])) && !li.eof && IsValidator(cfg, li.msg) && first.ts == li.ts && cfg.Valid()
    ensures var r := Record([first, li], true, cfg.valid.value.captures(li.msg));
            Gather(cfg, e, li) == if cfg.maxItems <= 2 then AddRecord(cfg, e.(record := None), r) else e.(record := Some(r))
  {
    assert [first] + [li] == [first, li];
  }

  lemma ValidStep(cfg: Config, e: Engine, ts: TimeVal, was: seq<Event>, p: int, first: LogItem, li: LogItem)
    requires cfg.Valid() && cfg.maxItems >= 2 && Halfway(cfg, e, ts, was, p, first)
    requires !li.eof && IsValidator(cfg, li.msg) && li.ts == ts
    ensures Phase(cfg, Process(cfg, e, li), ts, was, p + 1)
  {
    var r := Record([first, li], true, cfg.valid.value.captures(li.msg));
    ValidatedIs(cfg, e, first, li);
    var g := Gather(cfg, e, li);
    DeliverCarries(cfg, g, li);
    if cfg.maxItems <= 2 {
      PileFresh(cfg, e.(record := None), ts, was, p, r);
      PileDelivered(cfg, g, ts, was, p + 1, li);
    } else {
      PileDelivered(cfg, g, ts, was, p, li);
    }
  }

  lemma UnitStep(cfg: Config, done: seq<LogItem>, ts: TimeVal, was: seq<Event>, p: int, m: string, v: string)
    requires Usable(cfg, m, v) && Phase(cfg, Run(cfg, done), ts, was, p)
    ensures Phase(cfg, Run(cfg, done + Unit(cfg, ts, m, v)), ts, was, p + 1)
  {
    var li := LogItem(ts, cfg.minLevel, m, false);
    RunNext(cfg, done, li);
    if cfg.valid.None? {
      StartStep(cfg, Run(cfg, done), ts, was, p, li);
    } else {
      var li' := LogItem(ts, cfg.minLevel, v, false);
      OpeningStep(cfg, Run(cfg, done), ts, was, p, li);
      RunNext(cfg, done + [li], li');
      ValidStep(cfg, Run(cfg, done + [li]), ts, was, p, li, li');
      assert done + [li, li'] == (done + [li]) + [li'];
    }
  }

  ghost predicate Admissible(cfg: Config, items: seq<LogItem>) { Plain(items) && InLevel(cfg, items) }

  lemma UnitAdmissible(cfg: Config, items: seq<LogItem>, ts: TimeVal, m: string, v: string)
    requires Admissible(cfg, items) && cfg.minLevel <= cfg.maxLevel
    ensures Admissible(cfg, items + Unit(cfg, ts, m, v))
  {
  }

  /** `n` more records at that time pile up. */
  lemma {:induction false} BurstPiles(cfg: Config, done: seq<LogItem>, ts: TimeVal, was: seq<Event>, m: string, v: string, n: nat)
    returns (items: seq<LogItem>)
    requires Usable(cfg, m, v) && cfg.minLevel <= cfg.maxLevel
    requires Admissible(cfg, done) && Phase(cfg, Run(cfg, done), ts, was, 0)
    ensures Admissible(cfg, items) && Phase(cfg, Run(cfg, items), ts, was, n)
  {
    if n == 0 {
      items := done;
    } else {
      items := BurstPiles(cfg, done, ts, was, m, v, n - 1);
      UnitStep(cfg, items, ts, was, n - 1, m, v);
      UnitAdmissible(cfg, items, ts, m, v);
      items := items + Unit(cfg, ts, m, v);
    }
  }

  // ---- Bursts at every multiple of the gap ----

  function At(gap: nat, k: nat): TimeVal { Make(0, k * gap) }

  /** The newest `k` events came no slower than one in every gap, the last of them with the last burst. */
  ghost predicate Dense(events: seq<Event>, gap: nat, k: nat)
  {
    && |events| >= k
    && (k > 0 ==> events[|events| - 1].ts == At(gap, k - 1))
    && forall i :: |events| - k <= i < |events| ==> events[i].ts.Micros() >= (i - (|events| - k)) * gap
  }

  lemma DenseGrows(was: seq<Event>, events: seq<Event>, gap: nat, k: nat)
    requires Dense(was, gap, k) && |events| > |was| && events[..|was|] == was
    requires forall i :: |was| <= i < |events| ==> events[i].ts == At(gap, k)
    ensures Dense(events, gap, k + 1)
  {
    var n := |events|;
    forall i | n - (k + 1) <= i < n
      ensures events[i].ts.Micros() >= (i - (n - (k + 1))) * gap
    {
      if i >= |was| {
        Monotone(i - (n - (k + 1)), k, gap);
      } else {
        assert events[i] == events[..|was|][i] == was[i];
        Monotone(i - (n - (k + 1)), i - (|was| - k), gap);
      }
    }
  }

  lemma Monotone(a: int, b: int, gap: nat)
    requires a <= b
    ensures a * gap <= b * gap
  {
  }

  /** Between bursts: whatever is left over belongs to the last one. */
  ghost predicate Rested(cfg: Config, e: Engine, k: nat)
  {
    && Dense(e.events, Gap(cfg), k)
    && if k == 0 then e == Initial()
       else
         var ts := At(Gap(cfg), k - 1);
         && Ripe(cfg, e, ts) && Covering(cfg, e, ts)
         && forall i :: 0 <= i < |e.records| ==> e.records[i].Timestamp() == ts
  }

  /** The next burst finds only stale records, or (without a window) records of the same time. */
  lemma NextPhase(cfg: Config, e: Engine, k: nat)
    requires cfg.Valid() && Rested(cfg, e, k)
    ensures Phase(cfg, e, At(Gap(cfg), k), e.events, 0)
  {
    var gap := Gap(cfg);
    if k > 0 {
      var ts, ts' := At(gap, k - 1), At(gap, k);
      assert ts'.Micros() == ts.Micros() + gap by {
        assert k * gap == (k - 1) * gap + gap;
      }
      if cfg.suspendInterval == 0 {
        MicrosInjective(ts, ts');
      } else {
        assert Less(e.suspendUntil, ts');
      }
    }
  }

  lemma SalvoStep(cfg: Config, before: seq<LogItem>, m: string, v: string, k: nat) returns (items: seq<LogItem>)
    requires Usable(cfg, m, v) && cfg.minLevel <= cfg.maxLevel
    requires Admissible(cfg, before) && Rested(cfg, Run(cfg, before), k)
    ensures Admissible(cfg, items) && Rested(cfg, Run(cfg, items), k + 1)
  {
    NextPhase(cfg, Run(cfg, before), k);
    items := BurstPiles(cfg, before, At(Gap(cfg), k), Run(cfg, before).events, m, v, cfg.maxRecords + 1);
    RunBounded(cfg, items);
    PhaseEnds(cfg, Run(cfg, before), Run(cfg, items), k);
  }

  lemma RunBounded(cfg: Config, items: seq<LogItem>)
    requires cfg.Valid() && Plain(items)
    ensures |Run(cfg, items).records| < cfg.maxRecords
  {
    RunKeeps(cfg, items);
  }

  /** Some run consists of `k` bursts of `maxRecords` + 1 records, one at every multiple of the gap. */
  lemma {:induction false} SalvoRests(cfg: Config, m: string, v: string, k: nat) returns (items: seq<LogItem>)
    requires Usable(cfg, m, v) && cfg.minLevel <= cfg.maxLevel
    ensures Admissible(cfg, items) && Rested(cfg, Run(cfg, items), k)
    decreases k
  {
    if k == 0 {
      items := [];
    } else {
      var before := SalvoRests(cfg, m, v, k - 1);
      items := SalvoStep(cfg, before, m, v, k - 1);
    }
  }

  /** One record more than fits has forced an event. */
  lemma PhaseEnds(cfg: Config, e: Engine, e': Engine, k: nat)
    requires Rested(cfg, e, k) && |e'.records| < cfg.maxRecords
    requires Phase(cfg, e', At(Gap(cfg), k), e.events, cfg.maxRecords + 1)
    ensures Rested(cfg, e', k + 1)
  {
    assert |e'.events| > |e.events|;
    DenseGrows(e.events, e'.events, Gap(cfg), k);
  }

  /** A watcher that can report and whose windows do not cover the interval has a run the limiter stops. */
  lemma StoppedRun(cfg: Config) returns (items: seq<LogItem>)
    requires cfg.Valid() && CanReport(cfg) && !QuietEnough(cfg)
    ensures Admissible(cfg, items) && !LogContinue(cfg, Run(cfg, items))
  {
    var m :| Matches(cfg.start, m);
    var v := "";
    if cfg.valid.Some? {
      v :| IsValidator(cfg, v);
    }
    items := SalvoStops(cfg, m, v);
  }

  lemma SalvoStops(cfg: Config, m: string, v: string) returns (items: seq<LogItem>)
    requires Usable(cfg, m, v) && cfg.minLevel <= cfg.maxLevel && !QuietEnough(cfg)
    ensures Admissible(cfg, items) && !LogContinue(cfg, Run(cfg, items))
  {
    items := SalvoRests(cfg, m, v, cfg.maxEventCount + 1);
    DenseStops(cfg, items);
  }

  lemma DenseStops(cfg: Config, items: seq<LogItem>)
    requires cfg.Valid() && Plain(items) && !QuietEnough(cfg)
    requires Dense(Run(cfg, items).events, Gap(cfg), cfg.maxEventCount + 1)
    ensures !LogContinue(cfg, Run(cfg, items))
  {
    RunLimit(cfg, items);
    DenseNarrow(cfg, Run(cfg, items).events);
  }

  lemma DenseNarrow(cfg: Config, events: seq<Event>)
    requires Dense(events, Gap(cfg), cfg.maxEventCount + 1) && !QuietEnough(cfg)
    ensures !Wide(cfg, events)
  {
    var n := |events|;
    assert events[n - 1 - cfg.maxEventCount].ts.Micros() >= 0 * Gap(cfg) == 0;
  }

  /**
   * Exactly when a watcher can be killed as noisy: some schedule does it, unless the
   * suspend windows cover the interval or the watcher can never report anything.
   */
  lemma NoisyExactly(cfg: Config)
    requires cfg.Valid()
    ensures (forall acts :: Outcome(cfg, Start(), acts).Some? ==> Outcome(cfg, Start(), acts).value.killReason != NOISY)
            <==> QuietEnough(cfg) || !CanReport(cfg)
  {
    if QuietEnough(cfg) || !CanReport(cfg) {
      forall acts | Outcome(cfg, Start(), acts).Some?
        ensures Outcome(cfg, Start(), acts).value.killReason != NOISY
      {
        NeverKilled(cfg, acts);
      }
    } else {
      var acts := NoisySchedule(cfg);
    }
  }

  lemma NoisySchedule(cfg: Config) returns (acts: seq<Action>)
    requires cfg.Valid() && CanReport(cfg) && !QuietEnough(cfg)
    ensures Outcome(cfg, Start(), acts).Some? && Outcome(cfg, Start(), acts).value.killReason == NOISY
  {
    var items := StoppedRun(cfg);
    acts := Drive(cfg, items);
    Safety(cfg, acts);
    RatesHold(cfg, acts);
  }

  // ---- Two events after a lazy kill ----

  /** Only the mailbox, its semaphore and the accepted items differ, by `n` items. */
  ghost predicate Stuffed(s: System, s': System, n: nat)
  {
    && s' == s.(mailbox := s'.mailbox, available := s'.available, accepted := s'.accepted)
    && |s'.mailbox| == |s.mailbox| + n && s'.available == s.available + n
  }

  /** While the worker is busy the reader can fill the mailbox. */
  lemma {:induction false} Stuff(cfg: Config, s: System, li: LogItem, n: nat) returns (acts: seq<Action>)
    requires cfg.Valid() && s.reader.Away? && s.acceptData && s.threadState == RUNNING && !OutOfLevel(cfg, li)
    requires |s.mailbox| + n <= cfg.mailboxMax + 1
    ensures Outcome(cfg, s, acts).Some? && Stuffed(s, Outcome(cfg, s, acts).value, n)
    decreases n
  {
    if n == 0 {
      acts := [];
    } else {
      acts := Stuff(cfg, s, li, n - 1);
      var more := EventWatch.FedIsSchedule(cfg, Outcome(cfg, s, acts).value, li);
      OutcomeSplit(cfg, s, acts, more);
      acts := acts + more;
    }
  }

  /** A watcher whose every start line reports the record before it. */
  ghost predicate Eager(cfg: Config)
  {
    && cfg.Valid() && cfg.valid.None? && cfg.maxItems >= 2 && cfg.maxRecords == 1 && cfg.suspendInterval == 0
    && cfg.minLevel <= cfg.maxLevel
  }

  lemma EagerOpens(cfg: Config, li: LogItem)
    requires Eager(cfg) && Opens(cfg, li)
    ensures Process(cfg, Initial(), li) == Initial().(record := Some(Opened(cfg, li)))
  {
    StartOpens(cfg, Initial(), li);
  }

  lemma EagerReports(cfg: Config, e: Engine, li: LogItem)
    requires Eager(cfg) && (Opens(cfg, li) || li.eof) && e.records == [] && e.record.Some? && e.record.value.valid
    ensures var e' := Process(cfg, e, li);
            && |e'.events| == |e.events| + 1 && e'.flushCount == e.flushCount + 1 && e'.records == []
            && (!li.eof ==> e'.record.Some? && e'.record.value.valid)
  {
    var c := CloseOpen(cfg, e);
    assert c.records == [e.record.value] && c.record.None?;
    if li.eof {
      assert Gather(cfg, e, li) == c;
    } else {
      StartOpens(cfg, e, li);
    }
  }

  /** Such a watcher with one record open and the next start line in the worker's hands. */
  lemma BusyWorker(cfg: Config, li: LogItem) returns (acts: seq<Action>)
    requires Eager(cfg) && Opens(cfg, li) && !OutOfLevel(cfg, li)
    ensures Outcome(cfg, Start(), acts).Some?
    ensures var s := Outcome(cfg, Start(), acts).value;
            && s.reader.Away? && s.acceptData && s.threadState == RUNNING && s.mailbox == [] && s.worker == Holding(li)
            && s.engine == Initial().(record := Some(Opened(cfg, li)))
  {
    acts := FeedAndTake(cfg, Start(), li);
    EventWatch.ChainOutcome(cfg, Start(), acts, Work);
    acts := acts + [Work];
    EagerOpens(cfg, li);
    var s := Outcome(cfg, Start(), acts).value;
    var more := FeedAndTake(cfg, s, li);
    OutcomeSplit(cfg, Start(), acts, more);
    acts := acts + more;
  }

  /** The kill, raised while the worker is busy. */
  lemma LazyKill(cfg: Config, s: System, li: LogItem) returns (acts: seq<Action>)
    requires cfg.Valid() && s.reader.Away? && s.acceptData && s.threadState == RUNNING && s.mailbox == []
    requires s.worker == Holding(li) && !li.eof && !OutOfLevel(cfg, li)
    ensures Outcome(cfg, s, acts).Some?
    ensures var s' := Outcome(cfg, s, acts).value;
            && !s'.acceptData && s'.killReason == LAZY && s'.mailbox == [SyntheticEof()] && s'.available > 0
            && s'.worker == s.worker && s'.engine == s.engine
            && s'.kill.events == |s.engine.events| && s'.kill.held
  {
    acts := Stuff(cfg, s, li, cfg.mailboxMax + 1);
    var more := EventWatch.FedIsSchedule(cfg, Outcome(cfg, s, acts).value, li);
    OutcomeSplit(cfg, s, acts, more);
    acts := acts + more;
  }

  /** After the kill the worker finishes with its item, then with the end-of-file. */
  lemma LastTwo(cfg: Config, s: System, li: LogItem) returns (acts: seq<Action>)
    requires Eager(cfg) && Opens(cfg, li) && s.worker == Holding(li)
    requires !s.acceptData && s.mailbox == [SyntheticEof()] && s.available > 0
    requires s.engine.records == [] && s.engine.record.Some? && s.engine.record.value.valid
    ensures Outcome(cfg, s, acts).Some?
    ensures var s' := Outcome(cfg, s, acts).value;
            |s'.engine.events| == |s.engine.events| + 2 && s'.killReason == s.killReason && s'.kill == s.kill
  {
    EagerReports(cfg, s.engine, li);
    acts := OnToEof(cfg, s, li);
    EagerReports(cfg, Process(cfg, s.engine, li), SyntheticEof());
    EventWatch.ChainOutcome(cfg, s, acts, Work);
    acts := acts + [Work];
  }

  /** From an item that causes a flush to the end-of-file behind it. */
  lemma OnToEof(cfg: Config, s: System, li: LogItem) returns (acts: seq<Action>)
    requires cfg.Valid() && s.worker == Holding(li) && !li.eof
    requires !s.acceptData && s.mailbox == [SyntheticEof()] && s.available > 0
    requires Process(cfg, s.engine, li).flushCount > s.engine.flushCount
    ensures Outcome(cfg, s, acts).Some?
    ensures var t := Outcome(cfg, s, acts).value;
            && t.worker == Holding(SyntheticEof()) && t.engine == Process(cfg, s.engine, li)
            && t.killReason == s.killReason && t.kill == s.kill
  {
    var e := Process(cfg, s.engine, li);
    EventWatch.ChainOutcome(cfg, s, [], Work);
    acts := [] + [Work];
    assert Outcome(cfg, s, acts) == Some(Finish(s, li, e));
    EventWatch.ChainOutcome(cfg, s, acts, Limit);
    acts := acts + [Limit];
    EventWatch.ChainOutcome(cfg, s, acts, Wait);
    acts := acts + [Wait];
    EventWatch.ChainOutcome(cfg, s, acts, Take);
    acts := acts + [Take];
  }

  /** Two events can follow a lazy kill, whatever the size of the mailbox. */
  lemma TwoAfterLazyKill(cfg: Config, m: string) returns (acts: seq<Action>)
    requires Eager(cfg) && Matches(cfg.start, m)
    ensures Outcome(cfg, Start(), acts).Some?
    ensures var s := Outcome(cfg, Start(), acts).value;
            s.killReason == LAZY && s.kill.held && |s.engine.events| == s.kill.events + 2
  {
    var li := LogItem(Seconds(0), cfg.minLevel, m, false);
    acts := BusyWorker(cfg, li);
    var s := Outcome(cfg, Start(), acts).value;
    var kill := LazyKill(cfg, s, li);
    OutcomeSplit(cfg, Start(), acts, kill);
    acts := acts + kill;
    var last := LastTwo(cfg, Outcome(cfg, Start(), acts).value, li);
    OutcomeSplit(cfg, Start(), acts, last);
    acts := acts + last;
  }

  /** And only then: without an item in the worker's hands at the kill, at most one follows. */
  lemma TwoNeedsItem(cfg: Config, acts: seq<Action>)
    requires cfg.Valid() && Outcome(cfg, Start(), acts).Some?
    ensures var s := Outcome(cfg, Start(), acts).value;
            !s.acceptData ==>
              && |s.engine.events| <= s.kill.events + (if s.kill.held then 2 else 1)
              && (s.kill.held ==> s.killReason == LAZY)
  {
    RatesHold(cfg, acts);
  }

  // ---- After a kill nothing is left to chance ----

  /** The items up to and including the first end-of-file. */
  function UpToEof(items: seq<LogItem>): seq<LogItem>
  {
    if items == [] then [] else if items[0].eof then [items[0]] else [items[0]] + UpToEof(items[1..])
  }

  lemma {:induction false} UpToEofIs(items: seq<LogItem>, n: nat)
    requires 0 < n <= |items| && items[n - 1].eof && forall i :: 0 <= i < n - 1 ==> !items[i].eof
    ensures UpToEof(items) == items[..n]
  {
    if n > 1 {
      UpToEofIs(items[1..], n - 1);
      assert items[..n] == [items[0]] + items[1..][..n - 1];
    } else {
      assert items[..1] == [items[0]];
    }
  }

  /** The items on their way do not change any more. */
  lemma KilledPipeline(cfg: Config, s: System, a: Action)
    requires cfg.Valid() && Channel(cfg, s) && !s.acceptData && Enabled(cfg, s, a)
    ensures Pipeline(Next(cfg, s, a)) == Pipeline(s)
  {
  }

  lemma {:induction false} PipelineStays(cfg: Config, acts: seq<Action>, more: seq<Action>)
    requires cfg.Valid() && Outcome(cfg, Start(), acts).Some? && !Outcome(cfg, Start(), acts).value.acceptData
    requires Outcome(cfg, Outcome(cfg, Start(), acts).value, more).Some?
    ensures Pipeline(Outcome(cfg, Outcome(cfg, Start(), acts).value, more).value) == Pipeline(Outcome(cfg, Start(), acts).value)
    decreases |more|
  {
    if more != [] {
      var front := more[..|more| - 1];
      PipelineStays(cfg, acts, front);
      KilledTerminates(cfg, acts, front);
      KilledPipeline(cfg, Outcome(cfg, Outcome(cfg, Start(), acts).value, front).value, more[|more| - 1]);
    }
  }

  /** What a kill leaves on its way: what was processed, what the worker holds, and the end-of-file. */
  lemma KillCuts(cfg: Config, s: System, a: Action)
    requires cfg.Valid() && s.acceptData && Enabled(cfg, s, a) && !Next(cfg, s, a).acceptData
    ensures Pipeline(Next(cfg, s, a)) == s.processed + InHand(s.worker) + [SyntheticEof()]
  {
  }

  /** A stopped worker has processed the pipeline up to its first end-of-file. */
  lemma StoppedHasAll(cfg: Config, s: System)
    requires cfg.Valid() && Channel(cfg, s) && s.worker.Gone?
    ensures s.processed == UpToEof(Pipeline(s))
  {
    var n := |s.processed|;
    assert Pipeline(s)[..n] == s.processed;
    UpToEofIs(Pipeline(s), n);
  }

  /**
   * The rest of a killed watcher's run is determined: when the worker has stopped, the
   * engine is that of a run over what had been processed at the kill, the item in hand
   * if there was one, and the end-of-file (unless the item in hand was one already).
   * So the events that follow the kill are exactly those of that run.
   */
  lemma KilledRunIs(cfg: Config, acts: seq<Action>, a: Action, more: seq<Action>)
    requires cfg.Valid() && Outcome(cfg, Start(), acts).Some? && Outcome(cfg, Start(), acts + [a]).Some?
    requires Outcome(cfg, Start(), acts).value.acceptData && !Outcome(cfg, Start(), acts + [a]).value.acceptData
    requires Outcome(cfg, Outcome(cfg, Start(), acts + [a]).value, more).Some?
    requires Outcome(cfg, Outcome(cfg, Start(), acts + [a]).value, more).value.worker.Gone?
    ensures var s, t := Outcome(cfg, Start(), acts).value, Outcome(cfg, Outcome(cfg, Start(), acts + [a]).value, more).value;
            && t.engine == Run(cfg, UpToEof(s.processed + InHand(s.worker) + [SyntheticEof()]))
            && s.engine == Run(cfg, s.processed)
  {
    var s := Outcome(cfg, Start(), acts).value;
    assert (acts + [a])[..|acts|] == acts;
    KillCuts(cfg, s, a);
    PipelineStays(cfg, acts + [a], more);
    KilledTerminates(cfg, acts + [a], more);
    StoppedHasAll(cfg, Outcome(cfg, Outcome(cfg, Start(), acts + [a]).value, more).value);
    Safety(cfg, acts);
  }

  // ---- Why a watcher was killed ----

  /**
   * The limiter's verdict, in events: a noisy kill found the events so far too close
   * together, a kill for too many events found exactly maxEventCount of them, and a
   * watcher not stopped by the limiter has neither.
   */
  ghost predicate Verdict(cfg: Config, s: System)
  {
    var n := |s.engine.events|;
    && s.kill.events <= n
    && (s.killReason == NOISY ==> cfg.maxEventInterval > 0 && !Wide(cfg, s.engine.events[..s.kill.events]))
    && (s.killReason == MAX_EVENTS ==> cfg.maxEventInterval == 0 && s.kill.events == cfg.maxEventCount)
    && (s.acceptData && !s.worker.AtLimiter? ==>
          if cfg.maxEventInterval > 0 then Wide(cfg, s.engine.events) else n < cfg.maxEventCount)
    && (s.acceptData && cfg.maxEventInterval == 0 ==> n <= cfg.maxEventCount)
  }

  lemma EventsOnlyGrow(cfg: Config, e: Engine, li: LogItem)
    requires cfg.Valid()
    ensures |Process(cfg, e, li).events| >= |e.events| && Process(cfg, e, li).events[..|e.events|] == e.events
  {
    GatherIsQuiet(cfg, e, li);
  }

  /** What the limiter decides on, for the events of a run. */
  ghost predicate Limits(cfg: Config, e: Engine)
    requires cfg.Valid()
  {
    LogContinue(cfg, e) <==> if cfg.maxEventInterval > 0 then Wide(cfg, e.events) else |e.events| < cfg.maxEventCount
  }

  lemma RunLimits(cfg: Config, items: seq<LogItem>)
    requires cfg.Valid() && StopsAtEof(items)
    ensures Limits(cfg, Run(cfg, items))
  {
    if cfg.maxEventInterval > 0 {
      RunLimit(cfg, items);
    } else {
      CapExactly(cfg, items);
    }
  }

  lemma LimitVerdict(cfg: Config, s: System)
    requires cfg.Valid() && Limits(cfg, s.engine) && Verdict(cfg, s) && s.worker.AtLimiter?
    ensures Verdict(cfg, Next(cfg, s, Limit))
  {
    assert s.engine.events[..|s.engine.events|] == s.engine.events;
  }

  lemma WorkVerdict(cfg: Config, s: System, e: Engine)
    requires Verdict(cfg, s) && s.worker.Holding?
    requires |e.events| >= |s.engine.events| && e.events[..|s.engine.events|] == s.engine.events
    requires SameLimits(s.engine, e) || (e.flushCount == s.engine.flushCount + 1 && |e.events| == |s.engine.events| + 1)
    ensures Verdict(cfg, Finish(s, s.worker.li, e))
  {
    assert e.events[..s.kill.events] == e.events[..|s.engine.events|][..s.kill.events];
  }

  lemma MoveVerdict(cfg: Config, s: System, a: Action)
    requires cfg.Valid() && Channel(cfg, s) && Verdict(cfg, s) && Enabled(cfg, s, a) && !a.Limit? && !a.Work?
    ensures Verdict(cfg, Next(cfg, s, a))
  {
  }

  lemma StepVerdict(cfg: Config, s: System, a: Action)
    requires cfg.Valid() && Inv(cfg, s) && Rates(cfg, s) && Verdict(cfg, s) && Enabled(cfg, s, a)
    ensures Verdict(cfg, Next(cfg, s, a))
  {
    match a
    case Limit =>
      RunLimits(cfg, s.processed);
      LimitVerdict(cfg, s);
    case Work =>
      EventsOnlyGrow(cfg, s.engine, s.worker.li);
      ProcessFlushesOnce(cfg, s.engine, s.worker.li);
      WorkVerdict(cfg, s, Process(cfg, s.engine, s.worker.li));
    case _ => MoveVerdict(cfg, s, a);
  }

  /** In every interleaving the limiter stops a watcher exactly when it should. */
  lemma {:induction false} VerdictHolds(cfg: Config, acts: seq<Action>)
    requires cfg.Valid() && Outcome(cfg, Start(), acts).Some?
    ensures Verdict(cfg, Outcome(cfg, Start(), acts).value)
  {
    if acts != [] {
      var before := acts[..|acts| - 1];
      VerdictHolds(cfg, before);
      Safety(cfg, before);
      RatesHold(cfg, before);
      StepVerdict(cfg, Outcome(cfg, Start(), before).value, acts[|acts| - 1]);
    }
  }

  /** So below maxEventCount events a watcher without an interval still accepts data, unless it was lazy. */
  lemma AllEventsAllowed(cfg: Config, acts: seq<Action>)
    requires cfg.Valid() && Outcome(cfg, Start(), acts).Some? && cfg.maxEventInterval == 0
    ensures var s := Outcome(cfg, Start(), acts).value;
            |s.engine.events| < cfg.maxEventCount ==> s.acceptData || s.killReason == LAZY
  {
    VerdictHolds(cfg, acts);
    Safety(cfg, acts);
  }

  // ---- The level filter and the mailbox ----

  /** An idle watcher accepts exactly the end of the file and the items within its levels. */
  lemma AcceptsExactly(cfg: Config, s: System, li: LogItem)
    requires cfg.Valid() && Idle(s)
    ensures EventWatch.Fed(cfg, s, li).accepted ==
            s.accepted + if li.eof || cfg.minLevel <= li.prio <= cfg.maxLevel then [li] else []
  {
  }

  /** A feed kills a running watcher as lazy exactly when the mailbox holds more than mailboxMax items. */
  lemma LazyExactly(cfg: Config, s: System, li: LogItem)
    requires cfg.Valid() && s.acceptData && s.threadState == RUNNING && s.killReason != LAZY
    requires li.eof || cfg.minLevel <= li.prio <= cfg.maxLevel
    ensures EventWatch.Fed(cfg, s, li).killReason == LAZY <==> |s.mailbox| > cfg.mailboxMax
  {
  }
}
