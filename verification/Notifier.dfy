/**
 * Notifying crashreport: any number of threads ask, at most three are in flight,
 * one of them may sleep for a last chance, and broadcasts are kept rare. The steps
 * are the critical sections of notify_crashreport_thread.
 */
module Notifier {
  import opened Sequences

  const MAX_THREAD := 3
  const MIN_WAIT := 60

  /** The three static variables guarded by the lock. */
  datatype Statics = Statics(lastNotify: int, threadCount: int, lastChance: bool)

  datatype Answer =
    | TooMany       // refused: three threads in flight
    | Already       // refused: a last-chance notification is pending
    | SendNow       // goes on to broadcast
    | SleepFirst    // sleeps MIN_WAIT, then broadcasts

  /** What the first critical section answers at time `now`. */
  function Decide(v: Statics, now: int): Answer
  {
    if v.threadCount >= MAX_THREAD then TooMany
    else if now < v.lastNotify + MIN_WAIT && v.lastChance then Already
    else if now >= v.lastNotify + MIN_WAIT then SendNow
    else SleepFirst
  }

  function Admitted(v: Statics, now: int): Statics
  {
    match Decide(v, now)
    case TooMany => v
    case Already => v
    case SendNow => v.(threadCount := v.threadCount + 1, lastNotify := now)
    case SleepFirst => v.(threadCount := v.threadCount + 1, lastChance := true)
  }

  /** What the critical section after the sleep leaves. */
  function Woken(v: Statics): Statics { v.(lastChance := false) }

  /** What the last critical section leaves. */
  function Left(v: Statics): Statics { v.(threadCount := v.threadCount - 1) }

  /** The function's static data and its three critical sections. */
  class CrashreportNotifier {
    var lastNotify: int
    var threadCount: int
    var lastChance: bool

    ghost function Values(): Statics reads this { Statics(lastNotify, threadCount, lastChance) }

    constructor ()
      ensures Values() == Statics(-MIN_WAIT, 0, false)
    {
      lastNotify, threadCount, lastChance := -MIN_WAIT, 0, false;
    }

    method Ask(now: int) returns (answer: Answer)
      modifies this
      ensures answer == Decide(old(Values()), now) && Values() == Admitted(old(Values()), now)
    {
      if threadCount >= MAX_THREAD {
        return TooMany;
      }
      if now < lastNotify + MIN_WAIT && lastChance {
        return Already;
      }
      threadCount := threadCount + 1;
      if now >= lastNotify + MIN_WAIT {
        lastNotify := now;
        return SendNow;
      }
      lastChance := true;
      return SleepFirst;
    }

    method WakeUp()
      modifies this
      ensures Values() == Woken(old(Values()))
    {
      lastChance := false;
    }

    method Leave()
      modifies this
      ensures Values() == Left(old(Values()))
    {
      threadCount := threadCount - 1;
    }
  }

  // ---- All threads together ----

  /** A thread in flight: asleep, or broadcasting since its commit. */
  datatype Phase = Sleeping(since: int) | Sending(commit: nat)

  /** A broadcast is committed when its thread is done with the lock; `late` after a sleep. */
  datatype Commit = Commit(time: int, late: bool)

  /** A request refused as already notified, with the number of commits made before it. */
  datatype Refusal = Refusal(time: int, commits: nat)

  datatype World = World(
    statics: Statics,
    clock: int,
    threads: map<nat, Phase>,
    commits: seq<Commit>,
    refusals: seq<Refusal>)

  function Boot(clock: nat): World
  {
    World(Statics(-MIN_WAIT, 0, false), clock, map[], [], [])
  }

  datatype Action = Tick(seconds: nat) | Request(t: nat) | Wake(t: nat) | Done(t: nat)

  predicate Enabled(w: World, a: Action)
  {
    match a
    case Tick(_) => true
    case Request(t) => t !in w.threads
    case Wake(t) => t in w.threads && w.threads[t].Sleeping? && w.clock >= w.threads[t].since + MIN_WAIT
    case Done(t) => t in w.threads && w.threads[t].Sending?
  }

  function Next(w: World, a: Action): World
    requires Enabled(w, a)
  {
    match a
    case Tick(seconds) => w.(clock := w.clock + seconds)
    case Request(t) =>
      (var w' := w.(statics := Admitted(w.statics, w.clock));
       match Decide(w.statics, w.clock)
       case TooMany => w'
       case Already => w'.(refusals := w.refusals + [Refusal(w.clock, |w.commits|)])
       case SendNow => w'.(threads := w.threads[t := Sending(|w.commits|)], commits := w.commits + [Commit(w.clock, false)])
       case SleepFirst => w'.(threads := w.threads[t := Sleeping(w.clock)]))
    case Wake(t) =>
      w.(statics := Woken(w.statics), threads := w.threads[t := Sending(|w.commits|)],
         commits := w.commits + [Commit(w.clock, true)])
    case Done(t) =>
      w.(statics := Left(w.statics), threads := w.threads - {t})
  }

  /** The critical sections of the class are the steps of the protocol. */
  method Perform(n: CrashreportNotifier, w: World, a: Action)
    requires n.Values() == w.statics && Enabled(w, a)
    modifies n
    ensures n.Values() == Next(w, a).statics
  {
    match a
    case Tick(_) =>
    case Request(_) => var _ := n.Ask(w.clock);
    case Wake(_) => n.WakeUp();
    case Done(_) => n.Leave();
  }

  /** Where a schedule leads, if every step is enabled when its turn comes. */
  function Outcome(w: World, acts: seq<Action>): Option<World>
    decreases |acts|
  {
    if acts == [] then Some(w)
    else
      var m := Outcome(w, acts[..|acts| - 1]);
      if m.Some? && Enabled(m.value, acts[|acts| - 1]) then Some(Next(m.value, acts[|acts| - 1])) else None
  }

  // ---- The invariant ----

  /** The flag says that some thread sleeps, and no two do. */
  ghost predicate OneSleeper(threads: map<nat, Phase>, sleeping: bool)
  {
    && (sleeping <==> exists t :: t in threads && threads[t].Sleeping?)
    && (forall t, u :: t in threads && u in threads && threads[t].Sleeping? && threads[u].Sleeping? ==> t == u)
  }

  /** thread_count counts the threads in flight; last_chance says that exactly one sleeps. */
  ghost predicate Counted(w: World)
  {
    w.statics.threadCount == |w.threads| <= MAX_THREAD && OneSleeper(w.threads, w.statics.lastChance)
  }

  /** Commits of one kind are MIN_WAIT apart, in time order, and none lies in the future. */
  ghost predicate Apart(commits: seq<Commit>, clock: int)
  {
    && (forall i, j :: 0 <= i < j < |commits| ==> commits[i].time <= commits[j].time)
    && (forall i :: 0 <= i < |commits| ==> commits[i].time <= clock)
    && (forall i, j :: 0 <= i < j < |commits| && commits[i].late == commits[j].late ==>
          commits[i].time + MIN_WAIT <= commits[j].time)
  }

  /** No commit of that kind is later than `time`. */
  ghost predicate Until(commits: seq<Commit>, late: bool, time: int)
  {
    forall i :: 0 <= i < |commits| && commits[i].late == late ==> commits[i].time <= time
  }

  ghost predicate Spread(w: World)
  {
    && Apart(w.commits, w.clock)
    && Until(w.commits, false, w.statics.lastNotify)
    && forall t :: t in w.threads && w.threads[t].Sleeping? ==> Until(w.commits, true, w.threads[t].since)
  }

  /** Every request refused as already notified is followed by a commit, or a sleeper will make one. */
  ghost predicate Covered(w: World)
  {
    forall k :: 0 <= k < |w.refusals| ==>
      && w.refusals[k].commits <= |w.commits|
      && (forall i :: w.refusals[k].commits <= i < |w.commits| ==> w.refusals[k].time <= w.commits[i].time)
      && w.refusals[k].time <= w.clock
      && (w.refusals[k].commits < |w.commits| || w.statics.lastChance)
  }

  /** Threads that broadcast have each their own commit. */
  ghost predicate InFlight(w: World)
  {
    && (forall t :: t in w.threads && w.threads[t].Sending? ==> w.threads[t].commit < |w.commits|)
    && (forall t, u :: t in w.threads && u in w.threads && w.threads[t].Sending? && w.threads[u].Sending? && t != u ==>
          w.threads[t].commit != w.threads[u].commit)
  }

  lemma StepInFlight(w: World, a: Action)
    requires InFlight(w) && Enabled(w, a)
    ensures InFlight(Next(w, a))
  {
  }

  lemma RequestCounts(w: World, t: nat)
    requires Counted(w) && Enabled(w, Request(t))
    ensures Counted(Next(w, Request(t)))
  {
    var w' := Next(w, Request(t));
    if w'.threads != w.threads {
      assert w'.threads.Keys == w.threads.Keys + {t};
      forall u | u in w.threads && w.threads[u].Sleeping?
        ensures u in w'.threads && w'.threads[u].Sleeping?
      {
      }
      assert t in w'.threads;
    }
  }

  lemma WakeCounts(w: World, t: nat)
    requires Counted(w) && Enabled(w, Wake(t))
    ensures Counted(Next(w, Wake(t)))
  {
    var w' := Next(w, Wake(t));
    assert w'.threads.Keys == w.threads.Keys;
    assert |w'.threads| == |w'.threads.Keys| == |w.threads|;
  }

  lemma DoneCounts(w: World, t: nat)
    requires Counted(w) && Enabled(w, Done(t))
    ensures Counted(Next(w, Done(t)))
  {
    var w' := Next(w, Done(t));
    assert w.threads.Keys == w'.threads.Keys + {t};
    assert |w'.threads| == |w'.threads.Keys| == |w.threads.Keys| - 1;
    forall u | u in w.threads && w.threads[u].Sleeping?
      ensures u in w'.threads && w'.threads[u].Sleeping?
    {
    }
  }

  lemma StepCounts(w: World, a: Action)
    requires Counted(w) && Enabled(w, a)
    ensures Counted(Next(w, a))
  {
    match a
    case Tick(_) =>
    case Request(t) => RequestCounts(w, t);
    case Wake(t) => WakeCounts(w, t);
    case Done(t) => DoneCounts(w, t);
  }

  /** A commit that is late enough for its kind keeps the spacing. */
  lemma CommitSpreads(commits: seq<Commit>, clock: int, late: bool, last: int)
    requires Apart(commits, clock) && Until(commits, late, last) && last + MIN_WAIT <= clock
    ensures Apart(commits + [Commit(clock, late)], clock)
  {
  }

  lemma CommitUntil(commits: seq<Commit>, c: Commit, late: bool, time: int)
    requires Until(commits, late, time) && (c.late == late ==> c.time <= time)
    ensures Until(commits + [c], late, time)
  {
  }

  lemma RequestSpreads(w: World, t: nat)
    requires Counted(w) && Spread(w) && Enabled(w, Request(t))
    ensures Spread(Next(w, Request(t)))
  {
    var w' := Next(w, Request(t));
    if Decide(w.statics, w.clock).SendNow? {
      CommitSpreads(w.commits, w.clock, false, w.statics.lastNotify);
      CommitUntil(w.commits, Commit(w.clock, false), false, w.clock);
      forall u | u in w'.threads && w'.threads[u].Sleeping?
        ensures Until(w'.commits, true, w'.threads[u].since)
      {
        CommitUntil(w.commits, Commit(w.clock, false), true, w.threads[u].since);
      }
    }
  }

  lemma WakeSpreads(w: World, t: nat)
    requires Counted(w) && Spread(w) && Enabled(w, Wake(t))
    ensures Spread(Next(w, Wake(t)))
  {
    CommitSpreads(w.commits, w.clock, true, w.threads[t].since);
    CommitUntil(w.commits, Commit(w.clock, true), false, w.statics.lastNotify);
  }

  lemma StepSpreads(w: World, a: Action)
    requires Counted(w) && Spread(w) && Enabled(w, a)
    ensures Spread(Next(w, a))
  {
    match a
    case Request(t) => RequestSpreads(w, t);
    case Wake(t) => WakeSpreads(w, t);
    case _ =>
  }

  lemma StepCovers(w: World, a: Action)
    requires Counted(w) && Spread(w) && Covered(w) && Enabled(w, a)
    ensures Covered(Next(w, a))
  {
  }

  /** In every interleaving, at every moment. */
  lemma {:induction false} Safety(clock: nat, acts: seq<Action>)
    requires Outcome(Boot(clock), acts).Some?
    ensures var w := Outcome(Boot(clock), acts).value; Counted(w) && InFlight(w) && Spread(w) && Covered(w)
  {
    if acts == [] {
    } else {
      var m := Outcome(Boot(clock), acts[..|acts| - 1]).value;
      Safety(clock, acts[..|acts| - 1]);
      StepCounts(m, acts[|acts| - 1]);
      StepInFlight(m, acts[|acts| - 1]);
      StepSpreads(m, acts[|acts| - 1]);
      StepCovers(m, acts[|acts| - 1]);
    }
  }

  /** Three commits do not fit in a half-open window of MIN_WAIT seconds. */
  lemma ThreeTooMany(c: seq<Commit>, clock: int, from: int, i: nat, j: nat, k: nat)
    requires Apart(c, clock) && i < j < k < |c|
    ensures !(from <= c[i].time && c[k].time < from + MIN_WAIT)
  {
    if c[i].late == c[j].late {
      assert c[i].time + MIN_WAIT <= c[j].time;
    } else if c[j].late == c[k].late {
      assert c[j].time + MIN_WAIT <= c[k].time;
    } else {
      assert c[i].time + MIN_WAIT <= c[k].time;
    }
  }

  /** Any half-open window of MIN_WAIT seconds holds at most two commits. */
  lemma WindowHoldsTwo(clock: nat, acts: seq<Action>, from: int, i: nat, j: nat, k: nat)
    requires Outcome(Boot(clock), acts).Some?
    requires i < j < k < |Outcome(Boot(clock), acts).value.commits|
    ensures var c := Outcome(Boot(clock), acts).value.commits;
            !(from <= c[i].time && c[k].time < from + MIN_WAIT)
  {
    Safety(clock, acts);
    var w := Outcome(Boot(clock), acts).value;
    ThreeTooMany(w.commits, w.clock, from, i, j, k);
  }

  // ---- What a request gets ----

  /** last_notify is the time of the newest commit made without a sleep. */
  ghost predicate Dated(w: World)
  {
    && w.clock >= 0 && Until(w.commits, false, w.statics.lastNotify)
    && (|| (w.statics.lastNotify == -MIN_WAIT && forall i :: 0 <= i < |w.commits| ==> w.commits[i].late)
        || exists i :: 0 <= i < |w.commits| && !w.commits[i].late && w.commits[i].time == w.statics.lastNotify)
  }

  lemma StepDated(w: World, a: Action)
    requires Dated(w) && Enabled(w, a)
    ensures Dated(Next(w, a))
  {
    var w' := Next(w, a);
    assert forall i :: 0 <= i < |w.commits| ==> w'.commits[i] == w.commits[i];
    if |w'.commits| > |w.commits| && !w'.commits[|w.commits|].late {
      assert w'.commits[|w.commits|].time == w'.statics.lastNotify;
    }
  }

  lemma {:induction false} DatedHolds(clock: nat, acts: seq<Action>)
    requires Outcome(Boot(clock), acts).Some?
    ensures Dated(Outcome(Boot(clock), acts).value)
  {
    if acts != [] {
      DatedHolds(clock, acts[..|acts| - 1]);
      StepDated(Outcome(Boot(clock), acts[..|acts| - 1]).value, acts[|acts| - 1]);
    }
  }

  /** A broadcast was sent without a sleep less than MIN_WAIT seconds ago. */
  ghost predicate JustSent(w: World)
  {
    exists i :: 0 <= i < |w.commits| && !w.commits[i].late && w.clock < w.commits[i].time + MIN_WAIT
  }

  ghost predicate SomeoneSleeps(w: World) { exists t :: t in w.threads && w.threads[t].Sleeping? }

  lemma JustSentExactly(w: World)
    requires Dated(w)
    ensures JustSent(w) <==> w.clock < w.statics.lastNotify + MIN_WAIT
  {
  }

  /**
   * What every request gets, in terms of the threads and the broadcasts alone: with three
   * threads in flight nothing; otherwise it is sent at once unless a broadcast was just
   * sent; then it sleeps, or is refused if another thread already does.
   */
  lemma RequestExactly(clock: nat, acts: seq<Action>, t: nat)
    requires Outcome(Boot(clock), acts).Some? && Enabled(Outcome(Boot(clock), acts).value, Request(t))
    ensures var w := Outcome(Boot(clock), acts).value;
            var w' := Next(w, Request(t));
            w' == w.(statics := w'.statics,
                     commits := if |w.threads| < MAX_THREAD && !JustSent(w) then w.commits + [Commit(w.clock, false)] else w.commits,
                     threads := if |w.threads| >= MAX_THREAD then w.threads
                                else if !JustSent(w) then w.threads[t := Sending(|w.commits|)]
                                else if SomeoneSleeps(w) then w.threads
                                else w.threads[t := Sleeping(w.clock)],
                     refusals := if |w.threads| < MAX_THREAD && JustSent(w) && SomeoneSleeps(w)
                                 then w.refusals + [Refusal(w.clock, |w.commits|)] else w.refusals)
  {
    Safety(clock, acts);
    DatedHolds(clock, acts);
    JustSentExactly(Outcome(Boot(clock), acts).value);
  }

  // ---- Broadcasts take a limited time ----

  /** The broadcast command is killed after this many seconds. */
  const BROADCAST_TIMEOUT: nat := 30

  /** No broadcast has been in flight for more than `limit` seconds. */
  ghost predicate InTime(limit: nat, w: World)
  {
    forall t :: t in w.threads && w.threads[t].Sending? ==>
      w.threads[t].commit < |w.commits| && w.clock <= w.commits[w.threads[t].commit].time + limit
  }

  /** The schedule can be followed, and no broadcast ever takes longer than `limit` seconds. */
  ghost predicate Timely(limit: nat, w: World, acts: seq<Action>)
    decreases |acts|
  {
    && Outcome(w, acts).Some? && InTime(limit, Outcome(w, acts).value)
    && (acts != [] ==> Timely(limit, w, acts[..|acts| - 1]))
  }

  // ---- What becomes of a refused request ----

  ghost predicate RequestFree(acts: seq<Action>)
  {
    forall i :: 0 <= i < |acts| ==> !acts[i].Request?
  }

  /** Without a further request, only a sleeper commits. */
  lemma {:induction false} QuietWithoutSleeper(w: World, acts: seq<Action>)
    requires Counted(w) && !w.statics.lastChance && RequestFree(acts) && Outcome(w, acts).Some?
    ensures var w' := Outcome(w, acts).value;
            Counted(w') && !w'.statics.lastChance && w'.commits == w.commits
  {
    if acts != [] {
      var a := acts[|acts| - 1];
      QuietWithoutSleeper(w, acts[..|acts| - 1]);
      StepCounts(Outcome(w, acts[..|acts| - 1]).value, a);
    }
  }

  lemma Then(limit: nat, w: World, acts: seq<Action>, a: Action)
    requires Timely(limit, w, acts) && Enabled(Outcome(w, acts).value, a)
    ensures Outcome(w, acts + [a]) == Some(Next(Outcome(w, acts).value, a))
    ensures InTime(limit, Next(Outcome(w, acts).value, a)) ==> Timely(limit, w, acts + [a])
  {
    assert (acts + [a])[..|acts + [a]| - 1] == acts;
  }

  /** How many threads broadcast. */
  ghost function Senders(w: World): set<nat> { set t | t in w.threads && w.threads[t].Sending? }

  /** All broadcasts end, one after the other, while the sleeper sleeps on. */
  lemma LetFinish(limit: nat, w: World) returns (acts: seq<Action>)
    requires InTime(limit, w)
    ensures RequestFree(acts) && Timely(limit, w, acts)
    ensures var w' := Outcome(w, acts).value;
            && w'.commits == w.commits && w'.clock == w.clock && Senders(w') == {}
            && forall t :: t in w.threads && w.threads[t].Sleeping? ==> t in w'.threads && w'.threads[t] == w.threads[t]
  {
    acts := [];
    while Senders(Outcome(w, acts).value) != {}
      invariant RequestFree(acts) && Timely(limit, w, acts)
      invariant var m := Outcome(w, acts).value;
                && m.commits == w.commits && m.clock == w.clock
                && forall t :: t in w.threads && w.threads[t].Sleeping? ==> t in m.threads && m.threads[t] == w.threads[t]
      decreases Senders(Outcome(w, acts).value)
    {
      var m := Outcome(w, acts).value;
      var t :| t in Senders(m);
      Then(limit, w, acts, Done(t));
      assert Senders(Next(m, Done(t))) == Senders(m) - {t};
      acts := acts + [Done(t)];
    }
  }

  /** A sleeper commits once its time is up. */
  lemma SleeperCommits(limit: nat, w: World) returns (acts: seq<Action>)
    requires Counted(w) && InTime(limit, w) && w.statics.lastChance
    ensures RequestFree(acts) && Timely(limit, w, acts)
    ensures |Outcome(w, acts).value.commits| == |w.commits| + 1
  {
    var t :| t in w.threads && w.threads[t].Sleeping?;
    acts := LetFinish(limit, w);
    var m := Outcome(w, acts).value;
    var due := m.threads[t].since + MIN_WAIT;
    var tick := Tick(if m.clock < due then due - m.clock else 0);
    OnlyWoken(limit, m, tick, t);
    Then(limit, w, acts, tick);
    acts := acts + [tick];
    Then(limit, w, acts, Wake(t));
    acts := acts + [Wake(t)];
  }

  /** With no other broadcast, waiting and waking are in time. */
  lemma OnlyWoken(limit: nat, m: World, tick: Action, t: nat)
    requires Senders(m) == {} && tick.Tick? && t in m.threads && m.threads[t].Sleeping?
    requires m.clock + tick.seconds >= m.threads[t].since + MIN_WAIT
    ensures InTime(limit, Next(m, tick)) && Enabled(Next(m, tick), Wake(t)) && InTime(limit, Next(Next(m, tick), Wake(t)))
  {
    assert forall u :: u in m.threads && m.threads[u].Sending? ==> u in Senders(m);
  }

  /** Some way to go on without any further request, and in time, commits another broadcast. */
  ghost predicate WillCommit(limit: nat, w: World)
  {
    exists acts :: RequestFree(acts) && Timely(limit, w, acts) && |Outcome(w, acts).value.commits| > |w.commits|
  }

  /** A request refused in this state is followed by a broadcast of its own exactly when a thread sleeps. */
  lemma CoveredExactly(limit: nat, w: World)
    requires Counted(w) && InTime(limit, w)
    ensures WillCommit(limit, w) <==> w.statics.lastChance
  {
    if w.statics.lastChance {
      var acts := SleeperCommits(limit, w);
    } else if WillCommit(limit, w) {
      var acts :| RequestFree(acts) && Timely(limit, w, acts) && |Outcome(w, acts).value.commits| > |w.commits|;
      QuietWithoutSleeper(w, acts);
      assert false;
    }
  }

  /** Three broadcasts younger than MIN_WAIT would be three commits in one window. */
  lemma NoThreeYoung(limit: nat, w: World, t: nat, u: nat, v: nat)
    requires limit < MIN_WAIT && InTime(limit, w) && InFlight(w) && Apart(w.commits, w.clock)
    requires t in w.threads && u in w.threads && v in w.threads && t != u && u != v && t != v
    ensures !(w.threads[t].Sending? && w.threads[u].Sending? && w.threads[v].Sending?)
  {
    if w.threads[t].Sending? && w.threads[u].Sending? && w.threads[v].Sending? {
      var a, b, c, from := w.threads[t].commit, w.threads[u].commit, w.threads[v].commit, w.clock - limit;
      var i, j, k := SortThree(a, b, c);
      ThreeTooMany(w.commits, w.clock, from, i, j, k);
      assert false;
    }
  }

  lemma SortThree(a: nat, b: nat, c: nat) returns (i: nat, j: nat, k: nat)
    requires a != b && b != c && a != c
    ensures i < j < k && {i, j, k} == {a, b, c}
  {
    i := if a < b && a < c then a else if b < c then b else c;
    k := if a > b && a > c then a else if b > c then b else c;
    j := if a != i && a != k then a else if b != i && b != k then b else c;
  }

  /** When broadcasts end before MIN_WAIT is over, three threads in flight are never all broadcasting. */
  lemma FullHasSleeper(limit: nat, w: World)
    requires limit < MIN_WAIT && Counted(w) && InFlight(w) && Apart(w.commits, w.clock) && InTime(limit, w)
    requires w.statics.threadCount >= MAX_THREAD
    ensures w.statics.lastChance
  {
    var all := w.threads.Keys;
    assert |all| == 3;
    var t :| t in all;
    var two := all - {t};
    assert |two| == 2;
    var u :| u in two;
    var one := two - {u};
    assert |one| == 1;
    var v :| v in one;
    NoThreeYoung(limit, w, t, u, v);
  }

  /** A refused request is followed by a broadcast, of either kind of refusal. */
  ghost predicate RefusalCovered(limit: nat, w: World)
  {
    Decide(w.statics, w.clock).TooMany? || Decide(w.statics, w.clock).Already? ==> WillCommit(limit, w)
  }

  lemma CoveredBelow(limit: nat, clock: nat, acts: seq<Action>)
    requires limit < MIN_WAIT && Timely(limit, Boot(clock), acts)
    ensures RefusalCovered(limit, Outcome(Boot(clock), acts).value)
  {
    var w := Outcome(Boot(clock), acts).value;
    Safety(clock, acts);
    CoveredExactly(limit, w);
    if Decide(w.statics, w.clock).TooMany? {
      FullHasSleeper(limit, w);
    }
  }

  /** The steps that lose a request, and the states between them. */
  function LossStep(k: nat): Action
  {
    match k
    case 0 => Request(0)
    case 1 => Request(1)
    case 2 => Tick(MIN_WAIT)
    case 3 => Wake(1)
    case _ => Request(2)
  }

  function LossState(k: nat): World
  {
    var c0, c1, c2 := Commit(0, false), Commit(MIN_WAIT, true), Commit(MIN_WAIT, false);
    match k
    case 0 => Boot(0)
    case 1 => World(Statics(0, 1, false), 0, map[0 := Sending(0)], [c0], [])
    case 2 => World(Statics(0, 2, true), 0, map[0 := Sending(0), 1 := Sleeping(0)], [c0], [])
    case 3 => World(Statics(0, 2, true), MIN_WAIT, map[0 := Sending(0), 1 := Sleeping(0)], [c0], [])
    case 4 => World(Statics(0, 2, false), MIN_WAIT, map[0 := Sending(0), 1 := Sending(1)], [c0, c1], [])
    case _ => World(Statics(MIN_WAIT, 3, false), MIN_WAIT, map[0 := Sending(0), 1 := Sending(1), 2 := Sending(2)], [c0, c1, c2], [])
  }

  lemma LossNext(limit: nat, k: nat)
    requires limit >= MIN_WAIT && k < 5
    ensures Enabled(LossState(k), LossStep(k)) && Next(LossState(k), LossStep(k)) == LossState(k + 1)
    ensures InTime(limit, LossState(k + 1))
  {
  }

  lemma {:induction false} LossRun(limit: nat, k: nat) returns (acts: seq<Action>)
    requires limit >= MIN_WAIT && k <= 5
    ensures Timely(limit, Boot(0), acts) && Outcome(Boot(0), acts) == Some(LossState(k))
    decreases k
  {
    if k == 0 {
      acts := [];
    } else {
      acts := LossRun(limit, k - 1);
      LossNext(limit, k - 1);
      Then(limit, Boot(0), acts, LossStep(k - 1));
      acts := acts + [LossStep(k - 1)];
    }
  }

  /**
   * With a broadcast in flight for MIN_WAIT seconds a request can be lost: the first
   * broadcast still runs when the sleeper wakes and a third request is let through.
   */
  lemma TooManyIsLost(limit: nat) returns (acts: seq<Action>)
    requires limit >= MIN_WAIT
    ensures Timely(limit, Boot(0), acts)
    ensures var w := Outcome(Boot(0), acts).value; Decide(w.statics, w.clock).TooMany? && !WillCommit(limit, w)
  {
    acts := LossRun(limit, 5);
    Safety(0, acts);
    CoveredExactly(limit, LossState(5));
  }

  /** Every refused request is covered exactly when no broadcast may stay in flight for MIN_WAIT seconds. */
  lemma RefusalsCoveredExactly(limit: nat)
    ensures (forall clock: nat, acts :: Timely(limit, Boot(clock), acts) ==> RefusalCovered(limit, Outcome(Boot(clock), acts).value))
            <==> limit < MIN_WAIT
  {
    if limit < MIN_WAIT {
      forall clock: nat, acts | Timely(limit, Boot(clock), acts)
        ensures RefusalCovered(limit, Outcome(Boot(clock), acts).value)
      {
        CoveredBelow(limit, clock, acts);
      }
    } else {
      var acts := TooManyIsLost(limit);
      assert !RefusalCovered(limit, Outcome(Boot(0), acts).value);
    }
  }

  /** So with the timeout of the command no request is lost. */
  lemma NoRequestIsLost(clock: nat, acts: seq<Action>)
    requires Timely(BROADCAST_TIMEOUT, Boot(clock), acts)
    ensures RefusalCovered(BROADCAST_TIMEOUT, Outcome(Boot(clock), acts).value)
  {
    CoveredBelow(BROADCAST_TIMEOUT, clock, acts);
  }
}
