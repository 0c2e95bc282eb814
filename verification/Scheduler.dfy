/** The scheduler of src/scheduler/scheduler.go: ticks, registration and run counts.
    Instants are nanoseconds on the clock, whole seconds in `lastFired` and `nextRun`. */
module Scheduler {
  import opened Wrappers
  import opened CronSchedule
  import opened CronHorizon
  import Calendar

  /** Go's zero time.Time is the first second of year 1. */
  const ZERO_TIME := 0

  function TimeOf(o: Option<int>): int {
    if o.None? then ZERO_TIME else o.value
  }

  /** The fields of a task that ticks read and write. */
  datatype Timing = Timing(sched: Schedule, lastFired: int, nextRun: int)

  /** The fields of a task that runs write. */
  datatype Counters = Counters(runCount: int, errorCount: int, lastError: string)

  // ---- One task ----

  predicate Due(t: Timing, now: int) {
    Match(t.sched, now) && t.lastFired != now
  }

  function Ticked(t: Timing, now: int): Timing {
    if Due(t, now) then t.(lastFired := now, nextRun := TimeOf(NextFire(t.sched, now))) else t
  }

  function Registered(sched: Schedule, second: int): Timing {
    Timing(sched, ZERO_TIME, TimeOf(NextFire(sched, second)))
  }

  /** A new task counts as last fired in the first second of year 1, and where no next time comes, that is shown. */
  lemma NeverFired(sched: Schedule, second: int)
    ensures Registered(sched, second).lastFired == Calendar.Time(1, 1, 1, 0, 0, 0) == TimeOf(None)
  {
    hide NextFire;
  }

  function Begun(c: Counters): Counters {
    c.(runCount := c.runCount + 1)
  }

  function Finished(c: Counters, failure: Option<string>): Counters {
    if failure.Some? then c.(errorCount := c.errorCount + 1, lastError := failure.value) else c.(lastError := "")
  }

  class Task {
    const name: string
    const schedule: string
    const sched: Schedule
    var lastRun: int
    var nextRun: int
    var runCount: int
    var errorCount: int
    var lastError: string
    var enabled: bool
    var lastFired: int

    ghost function When(): Timing
      reads this
    {
      Timing(sched, lastFired, nextRun)
    }

    ghost function Counts(): Counters
      reads this
    {
      Counters(runCount, errorCount, lastError)
    }

    constructor (name: string, schedule: string, sched: Schedule, nextRun: int)
      ensures this.name == name && this.schedule == schedule && enabled
      ensures When() == Timing(sched, ZERO_TIME, nextRun)
      ensures Counts() == Counters(0, 0, "") && lastRun == ZERO_TIME
    {
      this.name, this.schedule, this.sched := name, schedule, sched;
      this.nextRun, lastFired, lastRun := nextRun, ZERO_TIME, ZERO_TIME;
      runCount, errorCount, lastError, enabled := 0, 0, "", true;
    }

    /** The body of tick's loop. */
    method Tick(now: int) returns (due: bool)
      modifies this`lastFired, this`nextRun
      ensures due == Due(old(When()), now) && When() == Ticked(old(When()), now)
    {
      due := Match(sched, now) && lastFired != now;
      if due {
        lastFired := now;
        var next := Next(sched, now * NANOS);
        assert now * NANOS / NANOS == now;
        nextRun := TimeOf(next);
      }
    }

    /** runTask when nothing else runs; `failure` is what the handler returns. */
    method Run(start: int, failure: Option<string>)
      modifies this`lastRun, this`runCount, this`errorCount, this`lastError
      ensures Counts() == if enabled then Finished(Begun(old(Counts())), failure) else old(Counts())
      ensures lastRun == if enabled then start else old(lastRun)
    {
      if !enabled {
        return;
      }
      BeginRun(start);
      FinishRun(failure);
    }

    /** The first locked section of runTask. */
    method BeginRun(start: int)
      modifies this`lastRun, this`runCount
      ensures Counts() == Begun(old(Counts())) && runCount == old(runCount) + 1 && lastRun == start
    {
      lastRun := start;
      runCount := runCount + 1;
    }

    /** The second locked section of runTask, after the handler returned. */
    method FinishRun(failure: Option<string>)
      modifies this`errorCount, this`lastError
      ensures Counts() == Finished(old(Counts()), failure)
      ensures lastError == (if failure.Some? then failure.value else "")
      ensures errorCount == old(errorCount) + (if failure.Some? then 1 else 0)
    {
      if failure.Some? {
        errorCount := errorCount + 1;
        lastError := failure.value;
      } else {
        lastError := "";
      }
    }
  }

  // ---- The task table ----

  datatype SchedulerError = BadSchedule(error: CronError) | TaskNotFound

  class Scheduler {
    var tasks: map<string, Task>
    /** The tasks for which a runTask goroutine was started, in order. */
    var started: seq<Task>

    /** No task object stands under two names. */
    ghost predicate Valid()
      reads this
    {
      forall m, n | m in tasks && n in tasks && m != n :: tasks[m] != tasks[n]
    }

    constructor ()
      ensures Valid() && tasks == map[] && started == []
    {
      tasks, started := map[], [];
    }

    method RegisterTask(name: string, schedule: string, clock: int) returns (r: Result<Task, SchedulerError>)
      requires Valid()
      modifies this`tasks
      ensures Valid()
      ensures ReadCron(schedule).Failure? ==> r == Failure(BadSchedule(ReadCron(schedule).error)) && tasks == old(tasks)
      ensures ReadCron(schedule).Success? ==>
                && r.Success? && fresh(r.value) && tasks == old(tasks)[name := r.value]
                && r.value.name == name && r.value.enabled && r.value.Counts() == Counters(0, 0, "")
                && r.value.When() == Registered(ScheduleOf(ReadCron(schedule).value), clock / 1_000_000_000)
    {
      hide NextFire, ReadCron, ScheduleOf;
      var sched := ParseCron(schedule);
      if sched.Failure? {
        return Failure(BadSchedule(sched.error));
      }
      var next := Next(sched.value, clock);
      var task := new Task(name, schedule, sched.value, TimeOf(next));
      tasks := tasks[name := task];
      return Success(task);
    }

    /** Every task is ticked once, and one run of each due task is started, in the order the map was walked. */
    method Tick(clock: int)
      requires Valid()
      modifies this`started, (set n | n in tasks :: tasks[n])`lastFired, (set n | n in tasks :: tasks[n])`nextRun
      ensures forall n | n in tasks :: tasks[n].When() == Ticked(old(tasks[n].When()), clock / 1_000_000_000)
      ensures old(started) <= started
      ensures var runs := started[|old(started)|..];
              && (forall i, j | 0 <= i < j < |runs| :: runs[i] != runs[j])
              && (forall n | n in tasks :: tasks[n] in runs <==> Due(old(tasks[n].When()), clock / 1_000_000_000))
              && (forall t | t in runs :: exists n :: n in tasks && tasks[n] == t)
    {
      hide Match, NextFire, Due, Ticked;
      var now := clock / NANOS;
      var due: seq<Task> := [];
      var rest := tasks.Keys;
      while rest != {}
        invariant rest <= tasks.Keys && started == old(started)
        invariant forall n | n in rest :: tasks[n].When() == old(tasks[n].When()) && tasks[n] !in due
        invariant forall n | n in tasks && n !in rest ::
                    && tasks[n].When() == Ticked(old(tasks[n].When()), now)
                    && (tasks[n] in due <==> Due(old(tasks[n].When()), now))
        invariant forall t | t in due :: exists n :: n in tasks && tasks[n] == t
        invariant forall i, j | 0 <= i < j < |due| :: due[i] != due[j]
        decreases rest
      {
        var n :| n in rest;
        var fires := tasks[n].Tick(now);
        if fires {
          due := due + [tasks[n]];
        }
        rest := rest - {n};
      }
      started := started + due;
      assert started[|old(started)|..] == due;
    }

    method EnableTask(name: string) returns (r: Option<SchedulerError>)
      modifies (if name in tasks then {tasks[name]} else {})`enabled
      ensures r == if name in tasks then None else Some(TaskNotFound)
      ensures name in tasks ==> tasks[name].enabled
    {
      if name !in tasks {
        return Some(TaskNotFound);
      }
      tasks[name].enabled := true;
      return None;
    }

    method DisableTask(name: string) returns (r: Option<SchedulerError>)
      modifies (if name in tasks then {tasks[name]} else {})`enabled
      ensures r == if name in tasks then None else Some(TaskNotFound)
      ensures name in tasks ==> !tasks[name].enabled
    {
      if name !in tasks {
        return Some(TaskNotFound);
      }
      tasks[name].enabled := false;
      return None;
    }

    /** Starts a run of the task, enabled or not. */
    method RunTaskNow(name: string) returns (r: Option<SchedulerError>)
      modifies this`started
      ensures name !in tasks ==> r == Some(TaskNotFound) && started == old(started)
      ensures name in tasks ==> r == None && started == old(started) + [tasks[name]]
    {
      if name !in tasks {
        return Some(TaskNotFound);
      }
      started := started + [tasks[name]];
      return None;
    }
  }

  // ---- Runs of ticks ----

  /** A dispatch, with the next run that was announced before it. */
  datatype Dispatch = Dispatch(at: int, announced: int)

  datatype History = History(timing: Timing, log: seq<Dispatch>)

  function Run(t: Timing, ticks: seq<int>): History {
    if ticks == [] then History(t, []) else
    var h := Run(t, ticks[..|ticks| - 1]);
    var now := ticks[|ticks| - 1];
    History(Ticked(h.timing, now),
            if Due(h.timing, now) then h.log + [Dispatch(now, h.timing.nextRun)] else h.log)
  }

  ghost predicate Nondecreasing(ticks: seq<int>) {
    forall i | 0 < i < |ticks| :: ticks[i - 1] <= ticks[i]
  }

  /** With nondecreasing ticks no second is dispatched twice, and only matching seconds are. */
  lemma {:induction false} AtMostOncePerSecond(t: Timing, ticks: seq<int>)
    requires Nondecreasing(ticks)
    ensures var log := Run(t, ticks).log;
            && (forall i | 0 < i < |log| :: log[i - 1].at < log[i].at)
            && (forall i | 0 <= i < |log| :: Match(t.sched, log[i].at))
            && (log != [] ==> Run(t, ticks).timing.lastFired == log[|log| - 1].at <= ticks[|ticks| - 1])
            && Run(t, ticks).timing.sched == t.sched
  {
    hide Match, NextFire;
    if ticks == [] {
    } else {
      AtMostOncePerSecond(t, ticks[..|ticks| - 1]);
    }
  }

  ghost predicate Dispatched(log: seq<Dispatch>, s: int) {
    exists i | 0 <= i < |log| :: log[i].at == s
  }

  /** Whatever seconds the ticks miss: a task not fired since before the first tick is dispatched at
      exactly those of the ticks that match. */
  lemma {:induction false} DispatchedAtMatchingTicks(t: Timing, ticks: seq<int>, s: int)
    requires Nondecreasing(ticks) && (ticks != [] ==> t.lastFired < ticks[0])
    ensures Dispatched(Run(t, ticks).log, s) <==> s in ticks && Match(t.sched, s)
  {
    hide Match, NextFire;
    if ticks == [] {
    } else {
      var n := |ticks| - 1;
      DispatchedAtMatchingTicks(t, ticks[..n], s);
      AtMostOncePerSecond(t, ticks[..n]);
      FiredBefore(t, ticks[..n]);
      var h, now := Run(t, ticks[..n]), ticks[n];
      assert ticks == ticks[..n] + [now];
      if Due(h.timing, now) {
        LogGrows(h.log, Dispatch(now, h.timing.nextRun), s);
      } else if Match(t.sched, now) {
        FirstIsLeast(ticks);
        assert h.log[|h.log| - 1].at == now;
      }
    }
  }

  lemma {:induction false} FirstIsLeast(ticks: seq<int>)
    requires Nondecreasing(ticks) && ticks != []
    ensures ticks[0] <= ticks[|ticks| - 1]
  {
    if |ticks| == 1 {
    } else {
      FirstIsLeast(ticks[..|ticks| - 1]);
    }
  }

  lemma LogGrows(log: seq<Dispatch>, d: Dispatch, s: int)
    ensures Dispatched(log + [d], s) <==> Dispatched(log, s) || d.at == s
  {
    var longer := log + [d];
    assert longer[|log|] == d;
    assert forall i | 0 <= i < |log| :: longer[i] == log[i];
  }

  /** Until a task is dispatched its last firing stays as it was. */
  lemma {:induction false} FiredBefore(t: Timing, ticks: seq<int>)
    ensures Run(t, ticks).log == [] ==> Run(t, ticks).timing.lastFired == t.lastFired
  {
    hide Match, NextFire;
    if ticks == [] {
    } else {
      FiredBefore(t, ticks[..|ticks| - 1]);
    }
  }

  /** The matching seconds of [lo, hi), in order. */
  function MatchingSeconds(c: Schedule, lo: int, hi: int): seq<int>
    decreases hi - lo
  {
    if lo >= hi then [] else
    MatchingSeconds(c, lo, hi - 1) + if Match(c, hi - 1) then [hi - 1] else []
  }

  /** Ticks that miss no second after `second`. The first may be stamped earlier: a tick takes the lock only
      after the ticker fired, and RegisterTask reads the clock and computes the next run under that lock. */
  ghost predicate Covering(ticks: seq<int>, second: int) {
    && ticks != [] && ZERO_TIME < ticks[0] <= second + 1
    && forall i | 0 < i < |ticks| :: ticks[i - 1] <= ticks[i] <= ticks[i - 1] + 1
  }

  function Seconds(log: seq<Dispatch>): seq<int> {
    seq(|log|, i requires 0 <= i < |log| => log[i].at)
  }

  /** The second the current `nextRun` was computed from. */
  function Reference(log: seq<Dispatch>, second: int): int {
    if log == [] then second else log[|log| - 1].at
  }

  /** The dispatch was announced by the next run stored before it, unless that was the zero time. */
  predicate Announced(d: Dispatch) {
    d.announced in {d.at, ZERO_TIME}
  }

  ghost predicate Quiet(c: Schedule, lo: int, hi: int) {
    forall u | lo <= u < hi :: !Match(c, u)
  }

  /** The first dispatch goes to the first match, announced by the next run of the registration; every later
      one is announced in time. */
  ghost predicate FirstMayBeEarly(c: Schedule, second: int, first: int, log: seq<Dispatch>) {
    && (log != [] ==> Match(c, log[0].at) && Quiet(c, first, log[0].at))
    && (log != [] ==> log[0].announced == TimeOf(NextFire(c, second)))
    && (forall i | 1 <= i < |log| :: Announced(log[i]))
  }

  /** What holds after ticks from `first` to `last` that miss no second since registration. */
  ghost predicate OnSchedule(c: Schedule, second: int, first: int, h: History, last: int) {
    var log := h.log;
    && h.timing.sched == c
    && Seconds(log) == MatchingSeconds(c, first, last + 1)
    && h.timing.lastFired == (if log == [] then ZERO_TIME else log[|log| - 1].at)
    && h.timing.nextRun == TimeOf(NextFire(c, Reference(log, second)))
    && (log != [] ==> first <= log[0].at && first <= log[|log| - 1].at <= last)
    && Quiet(c, if log == [] then first else log[|log| - 1].at + 1, last + 1)
    && FirstMayBeEarly(c, second, first, log)
  }

  lemma TickOnSchedule(c: Schedule, second: int, first: int, h: History, last: int, now: int, h': History)
    requires ZERO_TIME < first <= now && last <= now <= last + 1 && OnSchedule(c, second, first, h, last)
    requires h' == History(Ticked(h.timing, now),
                           if Due(h.timing, now) then h.log + [Dispatch(now, h.timing.nextRun)] else h.log)
    ensures OnSchedule(c, second, first, h', now)
  {
    hide Match, NextFire, FirstMayBeEarly;
    if now == last {
      assert Match(c, last) ==> h.timing.lastFired == last;
    } else if Match(c, now) {
      FireOnSchedule(c, second, first, h, last);
    }
  }

  lemma FireOnSchedule(c: Schedule, second: int, first: int, h: History, last: int)
    requires ZERO_TIME < first <= last + 1 && OnSchedule(c, second, first, h, last) && Match(c, last + 1)
    ensures Due(h.timing, last + 1)
    ensures OnSchedule(c, second, first, History(Ticked(h.timing, last + 1),
                                                 h.log + [Dispatch(last + 1, h.timing.nextRun)]), last + 1)
  {
    var d := Dispatch(last + 1, h.timing.nextRun);
    FiredAnnounced(c, second, first, h, last);
    FiredFirst(c, second, first, h.log, d);
    hide Match, NextFire, Announced, FirstMayBeEarly, Seconds, MatchingSeconds, Quiet;
    FiredSeconds(c, first, h.log, d, last);
    NothingQuiet(c, last + 2);
    assert (h.log + [d])[|h.log|] == d;
  }

  lemma NothingQuiet(c: Schedule, t: int)
    ensures Quiet(c, t, t)
  {}

  /** A dispatch after another one is announced in time. */
  lemma FiredAnnounced(c: Schedule, second: int, first: int, h: History, last: int)
    requires OnSchedule(c, second, first, h, last) && Match(c, last + 1)
    ensures h.log != [] ==> Announced(Dispatch(last + 1, h.timing.nextRun))
  {
    hide Match, NextFire, Seconds, MatchingSeconds, FirstMayBeEarly;
    if h.log != [] {
      AnnouncedInTime(c, Reference(h.log, second), last + 1);
    }
  }

  lemma FiredFirst(c: Schedule, second: int, first: int, log: seq<Dispatch>, d: Dispatch)
    requires FirstMayBeEarly(c, second, first, log) && (log != [] ==> Announced(d))
    requires log == [] ==> Match(c, d.at) && Quiet(c, first, d.at) && d.announced == TimeOf(NextFire(c, second))
    ensures FirstMayBeEarly(c, second, first, log + [d])
  {
    hide Match, NextFire, Announced, Quiet, TimeOf;
  }

  lemma FiredSeconds(c: Schedule, first: int, log: seq<Dispatch>, d: Dispatch, last: int)
    requires Seconds(log) == MatchingSeconds(c, first, last + 1) && first <= last + 1
    requires d.at == last + 1 && Match(c, last + 1)
    ensures Seconds(log + [d]) == MatchingSeconds(c, first, last + 2)
  {
    hide Match;
    assert Seconds(log + [d]) == Seconds(log) + [last + 1];
  }

  /** The first match after a reference second is what `next` gave there, or it gave up. */
  lemma AnnouncedInTime(c: Schedule, reference: int, t: int)
    requires reference < t && Match(c, t) && Quiet(c, reference + 1, t)
    ensures TimeOf(NextFire(c, reference)) in {t, ZERO_TIME}
  {
    hide Match, NextFire, Horizon;
    NextFireIsEarliest(c, reference);
  }

  lemma {:induction false} TicksOnSchedule(c: Schedule, second: int, ticks: seq<int>)
    requires Covering(ticks, second)
    ensures OnSchedule(c, second, ticks[0], Run(Registered(c, second), ticks), ticks[|ticks| - 1])
    ensures ticks[|ticks| - 1] >= ticks[0]
  {
    hide Match, NextFire, OnSchedule;
    var n := |ticks| - 1;
    var before := if n == 0 then ticks[0] - 1 else ticks[n - 1];
    if n == 0 {
      StartOnSchedule(c, second, ticks[0]);
    } else {
      TicksOnSchedule(c, second, ticks[..n]);
    }
    TickOnSchedule(c, second, ticks[0], Run(Registered(c, second), ticks[..n]), before, ticks[n],
                   Run(Registered(c, second), ticks));
  }

  lemma StartOnSchedule(c: Schedule, second: int, first: int)
    ensures OnSchedule(c, second, first, History(Registered(c, second), []), first - 1)
  {}

  /** A task registered in `second` and ticked at every later second, perhaps after ticks stamped up to that
      second, is dispatched at exactly the matching seconds from the first tick on. */
  lemma DispatchedOnSchedule(c: Schedule, second: int, ticks: seq<int>)
    requires Covering(ticks, second)
    ensures Seconds(Run(Registered(c, second), ticks).log) == MatchingSeconds(c, ticks[0], ticks[|ticks| - 1] + 1)
  {
    TicksOnSchedule(c, second, ticks);
  }

  ghost predicate AllAnnounced(log: seq<Dispatch>) {
    forall i | 0 <= i < |log| :: Announced(log[i])
  }

  /** Some tick is stamped with a matching second that is not after the one of registration. */
  ghost predicate EarlyMatch(c: Schedule, second: int, first: int, last: int) {
    exists u | first <= u <= second && u <= last :: Match(c, u)
  }

  /** A first dispatch at or before `second` is announced only by the zero time. */
  lemma EarlyAnnounced(c: Schedule, second: int, d: Dispatch)
    requires ZERO_TIME < d.at <= second && d.announced == TimeOf(NextFire(c, second))
    ensures Announced(d) <==> NextFire(c, second).None?
  {
    NextFireIsEarliest(c, second);
    hide Match, NextFire, Horizon;
  }

  lemma FirstAnnounced(c: Schedule, second: int, first: int, log: seq<Dispatch>, last: int)
    requires FirstMayBeEarly(c, second, first, log) && log != []
    requires ZERO_TIME < first <= second + 1 && first <= log[0].at <= last
    ensures Announced(log[0]) <==> !(NextFire(c, second).Some? && EarlyMatch(c, second, first, last))
  {
    var d := log[0];
    if d.at <= second {
      EarlyAnnounced(c, second, d);
    } else {
      AnnouncedInTime(c, second, d.at);
    }
    hide Match, NextFire, Horizon, Announced;
  }

  lemma NoneEarly(c: Schedule, second: int, first: int, last: int)
    requires Quiet(c, first, last + 1)
    ensures !EarlyMatch(c, second, first, last)
  {
    hide Match;
  }

  lemma AnnouncedButFirst(c: Schedule, second: int, first: int, log: seq<Dispatch>)
    requires FirstMayBeEarly(c, second, first, log)
    ensures AllAnnounced(log) <==> log == [] || Announced(log[0])
  {
    hide Match, NextFire, Quiet, Announced;
  }

  lemma {:induction false} FirstAtMostLast(log: seq<Dispatch>)
    requires log != [] && forall i | 0 < i < |log| :: log[i - 1].at < log[i].at
    ensures log[0].at <= log[|log| - 1].at
  {
    if |log| == 1 {
    } else {
      FirstAtMostLast(log[..|log| - 1]);
    }
  }

  lemma AnnouncedLog(c: Schedule, second: int, first: int, log: seq<Dispatch>, last: int)
    requires FirstMayBeEarly(c, second, first, log) && ZERO_TIME < first <= second + 1
    requires if log == [] then Quiet(c, first, last + 1) else first <= log[0].at <= last
    ensures AllAnnounced(log) <==> !(NextFire(c, second).Some? && EarlyMatch(c, second, first, last))
  {
    hide *;
    AnnouncedButFirst(c, second, first, log);
    if log == [] {
      NoneEarly(c, second, first, last);
    } else {
      FirstAnnounced(c, second, first, log, last);
    }
  }

  lemma LogBounds(c: Schedule, second: int, ticks: seq<int>)
    requires Covering(ticks, second)
    ensures var log, first, last := Run(Registered(c, second), ticks).log, ticks[0], ticks[|ticks| - 1];
            && FirstMayBeEarly(c, second, first, log)
            && if log == [] then Quiet(c, first, last + 1) else first <= log[0].at <= last
  {
    TicksOnSchedule(c, second, ticks);
    AtMostOncePerSecond(Registered(c, second), ticks);
    hide Match, NextFire, Seconds, MatchingSeconds, Run, Registered, FirstMayBeEarly, Quiet, TimeOf, Reference;
    var log := Run(Registered(c, second), ticks).log;
    if log != [] {
      FirstAtMostLast(log);
    }
  }

  /** Every dispatch is announced by the next run stored before it, or that was the zero time, exactly
      unless some tick is stamped with a matching second not after that of registration and `next` finds
      a time after it. */
  lemma AnnouncedExactly(c: Schedule, second: int, ticks: seq<int>)
    requires Covering(ticks, second)
    ensures AllAnnounced(Run(Registered(c, second), ticks).log)
            <==> !(NextFire(c, second).Some? && EarlyMatch(c, second, ticks[0], ticks[|ticks| - 1]))
  {
    LogBounds(c, second, ticks);
    FirstTick(ticks, second);
    hide *;
    AnnouncedLog(c, second, ticks[0], Run(Registered(c, second), ticks).log, ticks[|ticks| - 1]);
  }

  lemma FirstTick(ticks: seq<int>, second: int)
    requires Covering(ticks, second)
    ensures ticks != [] && ZERO_TIME < ticks[0] <= second + 1
  {}

  /** A matching tick stamped in the second of registration or before dispatches the task while its stored
      next run is another time. */
  lemma EarlyTick(c: Schedule, second: int, tick: int)
    requires ZERO_TIME < tick <= second && Match(c, tick)
    ensures var d := Dispatch(tick, TimeOf(NextFire(c, second)));
            Run(Registered(c, second), [tick]).log == [d] && d.announced != tick
  {
    NextFireIsEarliest(c, second);
    hide Match, NextFire, Horizon;
    assert [tick][..0] == [];
  }

  // ---- Concurrent runs of one task ----

  /** Where a runTask goroutine stands. */
  datatype Pc = Spawned | Admitted | Running | Succeeded | Failed | Skipped

  datatype Shared = Shared(enabled: bool, counters: Counters, runs: seq<Pc>)

  datatype Step = Spawn | Check(i: nat) | Begin(i: nat) | Finish(i: nat, failure: Option<string>) | SetEnabled(on: bool)

  ghost predicate CanStep(s: Shared, a: Step) {
    match a
    case Spawn => true
    case Check(i) => i < |s.runs| && s.runs[i] == Spawned
    case Begin(i) => i < |s.runs| && s.runs[i] == Admitted
    case Finish(i, _) => i < |s.runs| && s.runs[i] == Running
    case SetEnabled(_) => true
  }

  ghost function After(s: Shared, a: Step): Shared
    requires CanStep(s, a)
  {
    match a
    case Spawn => s.(runs := s.runs + [Spawned])
    case Check(i) => s.(runs := s.runs[i := if s.enabled then Admitted else Skipped])
    case Begin(i) => s.(runs := s.runs[i := Running], counters := Begun(s.counters))
    case Finish(i, f) => s.(runs := s.runs[i := if f.Some? then Failed else Succeeded], counters := Finished(s.counters, f))
    case SetEnabled(on) => s.(enabled := on)
  }

  /** A run of the task's goroutines, interleaved in any way. */
  ghost predicate Interleaving(states: seq<Shared>, steps: seq<Step>) {
    && |states| == |steps| + 1
    && states[0].counters == Counters(0, 0, "") && states[0].runs == []
    && forall i | 0 <= i < |steps| :: CanStep(states[i], steps[i]) && states[i + 1] == After(states[i], steps[i])
  }

  ghost function Count(runs: seq<Pc>, pc: Pc): nat {
    if runs == [] then 0 else Count(runs[..|runs| - 1], pc) + if runs[|runs| - 1] == pc then 1 else 0
  }

  /** RunCount counts the runs that began, ErrorCount those that failed; skipped runs count nowhere. */
  ghost predicate CountsRuns(s: Shared) {
    && s.counters.runCount == Count(s.runs, Running) + Count(s.runs, Succeeded) + Count(s.runs, Failed)
    && s.counters.errorCount == Count(s.runs, Failed)
  }

  lemma {:induction false} Moved(runs: seq<Pc>, i: nat, to: Pc, pc: Pc)
    requires i < |runs|
    ensures Count(runs[i := to], pc)
            == Count(runs, pc) - (if pc == runs[i] then 1 else 0) + (if pc == to then 1 else 0)
  {
    var n := |runs| - 1;
    if i == n {
      assert runs[i := to][..n] == runs[..n];
    } else {
      Moved(runs[..n], i, to, pc);
      assert runs[i := to][..n] == runs[..n][i := to];
    }
  }

  lemma MovedAll(runs: seq<Pc>, i: nat, to: Pc)
    requires i < |runs|
    ensures forall pc | pc in {Running, Succeeded, Failed} ::
              Count(runs[i := to], pc)
              == Count(runs, pc) - (if pc == runs[i] then 1 else 0) + (if pc == to then 1 else 0)
  {
    Moved(runs, i, to, Running);
    Moved(runs, i, to, Succeeded);
    Moved(runs, i, to, Failed);
  }

  lemma StepCounts(s: Shared, a: Step)
    requires CountsRuns(s) && CanStep(s, a)
    ensures CountsRuns(After(s, a))
  {
    match a
    case Spawn =>
      assert (s.runs + [Spawned])[..|s.runs|] == s.runs;
    case Check(i) =>
      MovedAll(s.runs, i, if s.enabled then Admitted else Skipped);
    case Begin(i) =>
      MovedAll(s.runs, i, Running);
    case Finish(i, f) =>
      MovedAll(s.runs, i, if f.Some? then Failed else Succeeded);
    case SetEnabled(_) =>
  }

  lemma {:induction false} RunCounts(states: seq<Shared>, steps: seq<Step>, k: nat)
    requires Interleaving(states, steps) && k < |states|
    ensures CountsRuns(states[k])
    ensures states[k].counters.errorCount <= states[k].counters.runCount
  {
    if k == 0 {
    } else {
      RunCounts(states, steps, k - 1);
      StepCounts(states[k - 1], steps[k - 1]);
      assert states[k] == After(states[k - 1], steps[k - 1]);
    }
  }

  /** A run that finds the task disabled changes no counter and never does later. */
  lemma {:induction false} DisabledRunsAreSkipped(states: seq<Shared>, steps: seq<Step>, i: nat, k: nat, j: nat)
    requires Interleaving(states, steps) && k < j < |states|
    requires steps[k] == Check(i) && !states[k].enabled
    ensures states[k + 1].counters == states[k].counters
    ensures i < |states[j].runs| && states[j].runs[i] == Skipped
    decreases j
  {
    assert CanStep(states[k], steps[k]) && states[k + 1] == After(states[k], steps[k]);
    if k + 1 == j {
    } else {
      DisabledRunsAreSkipped(states, steps, i, k, j - 1);
      assert CanStep(states[j - 1], steps[j - 1]) && states[j] == After(states[j - 1], steps[j - 1]);
    }
  }

  /** A run that finds the task enabled is admitted, and is counted once it has begun. */
  lemma {:induction false} EnabledRunsAreAdmitted(states: seq<Shared>, steps: seq<Step>, i: nat, k: nat, j: nat)
    requires Interleaving(states, steps) && k < j < |states|
    requires steps[k] == Check(i) && states[k].enabled
    ensures i < |states[j].runs| && states[j].runs[i] !in {Spawned, Skipped}
    decreases j
  {
    assert CanStep(states[k], steps[k]) && states[k + 1] == After(states[k], steps[k]);
    if k + 1 == j {
    } else {
      EnabledRunsAreAdmitted(states, steps, i, k, j - 1);
      assert CanStep(states[j - 1], steps[j - 1]) && states[j] == After(states[j - 1], steps[j - 1]);
    }
  }

  /** A task is enabled or disabled until it is told otherwise. */
  lemma {:induction false} StaysEnabled(states: seq<Shared>, steps: seq<Step>, k: nat, j: nat)
    requires Interleaving(states, steps) && k < j < |states| && steps[k].SetEnabled?
    requires forall m | k < m < j :: !steps[m].SetEnabled?
    ensures states[j].enabled == steps[k].on
    decreases j
  {
    assert CanStep(states[j - 1], steps[j - 1]) && states[j] == After(states[j - 1], steps[j - 1]);
    if k + 1 == j {
    } else {
      StaysEnabled(states, steps, k, j - 1);
    }
  }

  // ---- What the counters tell of the past ----

  /** How many runs have begun. */
  function Begins(steps: seq<Step>): nat {
    if steps == [] then 0 else Begins(steps[..|steps| - 1]) + if steps[|steps| - 1].Begin? then 1 else 0
  }

  predicate Fails(a: Step) {
    a.Finish? && a.failure.Some?
  }

  function Failures(steps: seq<Step>): nat {
    if steps == [] then 0 else Failures(steps[..|steps| - 1]) + if Fails(steps[|steps| - 1]) then 1 else 0
  }

  /** In every interleaving RunCount is the number of runs begun and ErrorCount that of runs failed so far. */
  lemma {:induction false} CountsThePast(states: seq<Shared>, steps: seq<Step>, k: nat)
    requires Interleaving(states, steps) && k < |states|
    ensures states[k].counters.runCount == Begins(steps[..k]) && states[k].counters.errorCount == Failures(steps[..k])
  {
    if k == 0 {
    } else {
      CountsThePast(states, steps, k - 1);
      assert CanStep(states[k - 1], steps[k - 1]) && states[k] == After(states[k - 1], steps[k - 1]);
      assert steps[..k][..k - 1] == steps[..k - 1];
    }
  }

  ghost predicate NoneFinished(steps: seq<Step>, lo: nat, hi: nat) {
    forall m | lo <= m < hi && m < |steps| :: !steps[m].Finish?
  }

  /** LastError is what the run that finished last failed with, and empty when it succeeded. */
  lemma {:induction false} LastErrorIsTheLast(states: seq<Shared>, steps: seq<Step>, j: nat, k: nat)
    requires Interleaving(states, steps) && j < k < |states|
    requires steps[j].Finish? && NoneFinished(steps, j + 1, k)
    ensures states[k].counters.lastError == match steps[j].failure case Some(error) => error case None => ""
    decreases k
  {
    assert CanStep(states[k - 1], steps[k - 1]) && states[k] == After(states[k - 1], steps[k - 1]);
    if j == k - 1 {
    } else {
      LastErrorIsTheLast(states, steps, j, k - 1);
      assert !steps[k - 1].Finish?;
    }
  }

  /** It is empty while no run has finished. */
  lemma {:induction false} NoErrorAtFirst(states: seq<Shared>, steps: seq<Step>, k: nat)
    requires Interleaving(states, steps) && k < |states| && NoneFinished(steps, 0, k)
    ensures states[k].counters.lastError == ""
  {
    if k == 0 {
    } else {
      NoErrorAtFirst(states, steps, k - 1);
      assert CanStep(states[k - 1], steps[k - 1]) && states[k] == After(states[k - 1], steps[k - 1]);
      assert !steps[k - 1].Finish?;
    }
  }
}
