/** The fixed-window rate limiter of src/server/ratelimiter.go.
    Times and durations are in nanoseconds; `now` stands for time.Now(). */
module RateLimiter {
  import opened Wrappers

  datatype Entry = Entry(count: int, resetTime: int, lastAccess: int)

  datatype Config = Config(limit: int, window: int, cleanupInterval: int)

  type Entries = map<string, Entry>

  const FIVE_MINUTES := 300_000_000_000

  // ---- One call each ----

  datatype Decision = Decision(allowed: bool, entry: Entry)

  function Decide(c: Config, e: Option<Entry>, now: int): Decision {
    if e.None? || now > e.value.resetTime then Decision(true, Entry(1, now + c.window, now))
    else if e.value.count >= c.limit then Decision(false, e.value.(lastAccess := now))
    else Decision(true, e.value.(count := e.value.count + 1, lastAccess := now))
  }

  function Lookup(m: Entries, id: string): Option<Entry> {
    if id in m then Some(m[id]) else None
  }

  function Remaining(c: Config, e: Option<Entry>, now: int): int {
    if e.None? || now > e.value.resetTime then c.limit
    else if c.limit - e.value.count < 0 then 0
    else c.limit - e.value.count
  }

  predicate Stale(c: Config, e: Entry, now: int) {
    now - e.lastAccess > c.cleanupInterval * 2
  }

  function Cleaned(c: Config, m: Entries, now: int): Entries {
    map id | id in m && !Stale(c, m[id], now) :: m[id]
  }

  datatype Op = Allow(id: string) | GetRemaining(id: string) | Reset(id: string) | Cleanup

  /** An operation with the time it reads. */
  datatype Call = Call(op: Op, now: int)

  datatype Answer = Allowed(ok: bool) | Left(n: int) | Done

  function Perform(c: Config, m: Entries, call: Call): (Entries, Answer) {
    match call.op
    case Allow(id) =>
      var d := Decide(c, Lookup(m, id), call.now);
      (m[id := d.entry], Allowed(d.allowed))
    case GetRemaining(id) => (m, Left(Remaining(c, Lookup(m, id), call.now)))
    case Reset(id) => (m - {id}, Done)
    case Cleanup => (Cleaned(c, m, call.now), Done)
  }

  // ---- The limiter ----

  class RateLimiter {
    var requests: Entries
    const limit: int
    const window: int
    const cleanupInterval: int

    function Settings(): Config {
      Config(limit, window, cleanupInterval)
    }

    constructor (limit: int, window: int)
      ensures requests == map[] && Settings() == Config(limit, window, 300_000_000_000)
    {
      this.limit, this.window, cleanupInterval := limit, window, FIVE_MINUTES;
      requests := map[];
    }

    method Allow(identifier: string, now: int) returns (allowed: bool)
      modifies this
      ensures requests == old(requests)[identifier := Decide(Settings(), Lookup(old(requests), identifier), now).entry]
      ensures Perform(Settings(), old(requests), Call(Op.Allow(identifier), now)) == (requests, Allowed(allowed))
    {
      if identifier !in requests {
        requests := requests[identifier := Entry(1, now + window, now)];
        return true;
      }
      var entry := requests[identifier];
      if now > entry.resetTime {
        entry := entry.(count := 1, resetTime := now + window, lastAccess := now);
        requests := requests[identifier := entry];
        return true;
      }
      entry := entry.(lastAccess := now);
      requests := requests[identifier := entry];
      if entry.count >= limit {
        return false;
      }
      requests := requests[identifier := entry.(count := entry.count + 1)];
      return true;
    }

    method Reset(identifier: string)
      modifies this
      ensures requests == old(requests) - {identifier}
      ensures forall now :: Perform(Settings(), old(requests), Call(Op.Reset(identifier), now)) == (requests, Done)
    {
      requests := requests - {identifier};
    }

    method Cleanup(now: int)
      modifies this
      ensures Perform(Settings(), old(requests), Call(Op.Cleanup, now)) == (requests, Done)
    {
      ghost var before := requests;
      var ids := requests.Keys;
      while ids != {}
        invariant ids <= before.Keys && ids <= requests.Keys
        invariant forall id | id in requests :: id in before && requests[id] == before[id]
        invariant forall id | id in before && id !in ids :: id in requests <==> !Stale(Settings(), before[id], now)
        decreases ids
      {
        var id :| id in ids;
        if now - requests[id].lastAccess > cleanupInterval * 2 {
          requests := requests - {id};
        }
        ids := ids - {id};
      }
      assert requests == Cleaned(Settings(), before, now);
    }

    method GetRemaining(identifier: string, now: int) returns (r: int)
      ensures identifier !in requests || now > requests[identifier].resetTime ==> r == limit
      ensures identifier in requests && now <= requests[identifier].resetTime ==>
                r == if requests[identifier].count > limit then 0 else limit - requests[identifier].count
      ensures Perform(Settings(), requests, Call(Op.GetRemaining(identifier), now)) == (requests, Left(r))
    {
      if identifier !in requests {
        return limit;
      }
      var entry := requests[identifier];
      if now > entry.resetTime {
        return limit;
      }
      var remaining := limit - entry.count;
      if remaining < 0 {
        return 0;
      }
      return remaining;
    }
  }

  // ---- Runs ----

  /** The answers of a run, cleanups left out. */
  function Answers(c: Config, m: Entries, calls: seq<Call>): seq<Answer>
    decreases |calls|
  {
    if calls == [] then [] else
    var (m', a) := Perform(c, m, calls[0]);
    (if calls[0].op.Cleanup? then [] else [a]) + Answers(c, m', calls[1..])
  }

  /** The same run without its cleanups. */
  function WithoutCleanup(calls: seq<Call>): seq<Call> {
    if calls == [] then [] else
    (if calls[0].op.Cleanup? then [] else [calls[0]]) + WithoutCleanup(calls[1..])
  }

  ghost predicate Monotone(calls: seq<Call>) {
    forall i, j | 0 <= i <= j < |calls| :: calls[i].now <= calls[j].now
  }

  // ---- Cleanup is invisible exactly when the window is at most twice its interval ----

  /** m is n after cleanups: it lacks only entries whose window is over, and n keeps the clock's order. */
  ghost predicate Hidden(c: Config, m: Entries, n: Entries, now: int) {
    && (forall id | id in m :: id in n && n[id] == m[id])
    && (forall id | id in n && id !in m :: n[id].resetTime < now)
    && (forall id | id in n :: n[id].resetTime - c.window <= n[id].lastAccess <= now)
  }

  lemma PerformHidden(c: Config, m: Entries, n: Entries, call: Call, before: int)
    requires c.window <= 2 * c.cleanupInterval
    requires Hidden(c, m, n, before) && before <= call.now
    ensures var (m', a) := Perform(c, m, call);
            if call.op.Cleanup? then Hidden(c, m', n, call.now)
            else var (n', b) := Perform(c, n, call); a == b && Hidden(c, m', n', call.now)
  {}

  lemma AnswersStep(c: Config, m: Entries, call: Call, rest: seq<Call>)
    ensures var (m', a) := Perform(c, m, call);
            Answers(c, m, [call] + rest) == if call.op.Cleanup? then Answers(c, m', rest) else [a] + Answers(c, m', rest)
    ensures Answers(c, m, []) == []
  {
    hide Perform;
    assert ([call] + rest)[1..] == rest;
    var after := Answers(c, Perform(c, m, call).0, rest);
    assert [] + after == after;
  }

  lemma WithoutStep(call: Call, rest: seq<Call>)
    ensures WithoutCleanup([call] + rest)
            == if call.op.Cleanup? then WithoutCleanup(rest) else [call] + WithoutCleanup(rest)
  {
    assert ([call] + rest)[1..] == rest;
    assert [] + WithoutCleanup(rest) == WithoutCleanup(rest);
  }

  lemma {:induction false} RunHidden(c: Config, m: Entries, n: Entries, calls: seq<Call>, before: int)
    requires c.window <= 2 * c.cleanupInterval
    requires Hidden(c, m, n, before) && Monotone(calls) && (calls != [] ==> before <= calls[0].now)
    ensures Answers(c, m, calls) == Answers(c, n, WithoutCleanup(calls))
    decreases |calls|
  {
    if calls == [] {
    } else {
      var call, rest := calls[0], calls[1..];
      assert calls == [call] + rest && Monotone(rest) && (rest != [] ==> call.now <= rest[0].now);
      hide *;
      PerformHidden(c, m, n, call, before);
      AnswersStep(c, m, call, rest);
      WithoutStep(call, rest);
      var m' := Perform(c, m, call).0;
      if call.op.Cleanup? {
        RunHidden(c, m', n, rest, call.now);
      } else {
        RunHidden(c, m', Perform(c, n, call).0, rest, call.now);
        AnswersStep(c, n, call, WithoutCleanup(rest));
      }
    }
  }

  /** No caller can tell whether or when cleanups ran. */
  lemma CleanupInvisible(c: Config, calls: seq<Call>)
    requires c.window <= 2 * c.cleanupInterval && Monotone(calls)
    ensures Answers(c, map[], calls) == Answers(c, map[], WithoutCleanup(calls))
  {
    if calls != [] {
      RunHidden(c, map[], map[], calls, calls[0].now);
    }
  }

  lemma ShowsAfter(c: Config, m: Entries, first: Call, clean: Call, probe: Call)
    requires !first.op.Cleanup? && clean.op.Cleanup? && !probe.op.Cleanup?
    requires var used := Perform(c, m, first).0;
             Perform(c, Perform(c, used, clean).0, probe).1 != Perform(c, used, probe).1
    ensures var calls := [first] + ([clean] + ([probe] + []));
            Answers(c, m, calls) != Answers(c, m, WithoutCleanup(calls))
  {
    hide *;
    var used := Perform(c, m, first).0;
    var cleaned := Perform(c, used, clean).0;
    WithoutStep(first, [clean] + ([probe] + []));
    WithoutStep(clean, [probe] + []);
    WithoutStep(probe, []);
    NothingLeft(c, Perform(c, cleaned, probe).0);
    NothingLeft(c, Perform(c, used, probe).0);
    AnswersStep(c, m, first, [clean] + ([probe] + []));
    AnswersStep(c, used, clean, [probe] + []);
    AnswersStep(c, cleaned, probe, []);
    AnswersStep(c, m, first, [probe] + []);
    AnswersStep(c, used, probe, []);
    SameButLast(Perform(c, m, first).1, Perform(c, cleaned, probe).1, Perform(c, used, probe).1);
  }

  lemma NothingLeft(c: Config, m: Entries)
    ensures WithoutCleanup([]) == [] && Answers(c, m, []) == []
  {}

  lemma SameButLast(a: Answer, b: Answer, b': Answer)
    requires b != b'
    ensures [a] + ([b] + []) != [a] + ([b'] + [])
  {
    assert ([a] + ([b] + []))[1] == b && ([a] + ([b'] + []))[1] == b';
  }

  /** A window still open after its entry was cleaned up: a second request tells when the limit is one,
      GetRemaining otherwise. */
  lemma ProbeDiffers(c: Config, t: int)
    requires c.cleanupInterval > 0 && c.window > 2 * c.cleanupInterval && t == 2 * c.cleanupInterval + 1
    ensures var used := Perform(c, map[], Call(Allow("a"), 0)).0;
            var probe := Call(if c.limit <= 1 then Allow("a") else GetRemaining("a"), t);
            Perform(c, Perform(c, used, Call(Cleanup, t)).0, probe).1 != Perform(c, used, probe).1
  {
    var m: Entries := map["a" := Entry(1, c.window, 0)];
    assert Perform(c, map[], Call(Allow("a"), 0)).0 == m;
    assert Perform(c, m, Call(Cleanup, t)).0 == map[];
  }

  /** With a longer window some caller can. */
  lemma CleanupVisible(c: Config) returns (calls: seq<Call>)
    requires c.cleanupInterval > 0 && c.window > 2 * c.cleanupInterval
    ensures Monotone(calls) && Answers(c, map[], calls) != Answers(c, map[], WithoutCleanup(calls))
  {
    hide Perform, Answers, WithoutCleanup;
    var t := 2 * c.cleanupInterval + 1;
    var first, clean := Call(Allow("a"), 0), Call(Cleanup, t);
    var probe := Call(if c.limit <= 1 then Allow("a") else GetRemaining("a"), t);
    ProbeDiffers(c, t);
    ShowsAfter(c, map[], first, clean, probe);
    calls := [first] + ([clean] + ([probe] + []));
  }

  /** Cleanup is invisible exactly up to that window. */
  lemma CleanupThreshold(c: Config)
    requires c.cleanupInterval > 0
    ensures (forall calls | Monotone(calls) :: Answers(c, map[], calls) == Answers(c, map[], WithoutCleanup(calls)))
            <==> c.window <= 2 * c.cleanupInterval
  {
    hide *;
    if c.window <= 2 * c.cleanupInterval {
      forall calls | Monotone(calls)
        ensures Answers(c, map[], calls) == Answers(c, map[], WithoutCleanup(calls))
      {
        CleanupInvisible(c, calls);
      }
    } else {
      var calls := CleanupVisible(c);
    }
  }

  // ---- How many requests get through ----

  function Most(limit: int): int {
    if limit < 1 then 1 else limit
  }

  /** Whether a call with this answer lets a request of `id` through in [a, b]. */
  function Passed(call: Call, answer: Answer, id: string, a: int, b: int): nat {
    if call.op == Allow(id) && answer == Allowed(true) && a <= call.now <= b then 1 else 0
  }

  /** The requests of `id` allowed at times in [a, b], of calls with these answers. */
  function AllowedWithin(calls: seq<Call>, answers: seq<Answer>, id: string, a: int, b: int): nat
    requires |calls| == |answers|
  {
    if calls == [] then 0 else
    AllowedWithin(calls[..|calls| - 1], answers[..|answers| - 1], id, a, b)
    + Passed(calls[|calls| - 1], answers[|answers| - 1], id, a, b)
  }

  /** The limiter after a run, with the answer of every call. */
  function After(c: Config, calls: seq<Call>): (Entries, seq<Answer>) {
    if calls == [] then (map[], []) else
    var (m, answers) := After(c, calls[..|calls| - 1]);
    var (m', a) := Perform(c, m, calls[|calls| - 1]);
    (m', answers + [a])
  }

  /** With `allowed` requests of one identifier let through in [a, a + window] so far: its current
      window opened at s = resetTime - window, and only the window before s can overlap [a, a + window]
      too. When a cleanup has dropped the entry, that window is over. */
  ghost predicate Bounded(c: Config, e: Option<Entry>, a: int, allowed: nat, now: int) {
    var most := Most(c.limit);
    && (allowed > 0 ==> c.window >= 0)
    && if e.None? then
      allowed == 0 || (a < now && allowed <= if now <= a + c.window then most else 2 * most)
    else
      var Entry(count, resetTime, lastAccess) := e.value;
      var s := resetTime - c.window;
      && s <= lastAccess <= now
      && 1 <= count <= most
      && allowed <= (if s <= a then count else if s <= a + c.window then most + count else 2 * most)
      && (allowed > 0 ==> a <= resetTime)
  }

  lemma DecideBounded(c: Config, e: Option<Entry>, a: int, allowed: nat, now: int)
    requires Bounded(c, e, a, allowed, now)
    ensures var d := Decide(c, e, now);
            Bounded(c, Some(d.entry), a, allowed + (if d.allowed && a <= now <= a + c.window then 1 else 0), now)
  {}

  lemma CleanupBounded(c: Config, m: Entries, id: string, a: int, allowed: nat, now: int)
    requires c.window <= 2 * c.cleanupInterval && Bounded(c, Lookup(m, id), a, allowed, now)
    ensures Bounded(c, Lookup(Cleaned(c, m, now), id), a, allowed, now)
  {}

  lemma LaterBounded(c: Config, e: Option<Entry>, a: int, allowed: nat, before: int, now: int)
    requires Bounded(c, e, a, allowed, before) && before <= now
    ensures Bounded(c, e, a, allowed, now)
  {}

  ghost predicate NoReset(calls: seq<Call>) {
    forall i | 0 <= i < |calls| :: !calls[i].op.Reset?
  }

  /** Cleanups are harmless, or there are none. */
  ghost predicate SafeCleanups(c: Config, calls: seq<Call>) {
    c.window <= 2 * c.cleanupInterval || forall i | 0 <= i < |calls| :: !calls[i].op.Cleanup?
  }

  lemma CallBounded(c: Config, m: Entries, call: Call, id: string, a: int, allowed: nat)
    requires !call.op.Reset? && (call.op.Cleanup? ==> c.window <= 2 * c.cleanupInterval)
    requires Bounded(c, Lookup(m, id), a, allowed, call.now)
    ensures var (m', r) := Perform(c, m, call);
            Bounded(c, Lookup(m', id), a, allowed + Passed(call, r, id, a, a + c.window), call.now)
  {
    hide Bounded, Decide, Cleaned;
    if call.op == Allow(id) {
      DecideBounded(c, Lookup(m, id), a, allowed, call.now);
    } else if call.op.Cleanup? {
      CleanupBounded(c, m, id, a, allowed, call.now);
    }
  }

  lemma {:induction false} RunBounded(c: Config, calls: seq<Call>, id: string, a: int, now: int)
    requires Monotone(calls) && NoReset(calls) && SafeCleanups(c, calls)
    requires calls != [] ==> calls[|calls| - 1].now <= now
    ensures |After(c, calls).1| == |calls|
    ensures var (m, answers) := After(c, calls);
            Bounded(c, Lookup(m, id), a, AllowedWithin(calls, answers, id, a, a + c.window), now)
  {
    hide Bounded, Perform;
    if calls == [] {
      NothingBounded(c, id, a, now);
    } else {
      var last := calls[|calls| - 1];
      var prefix := calls[..|calls| - 1];
      RunBounded(c, prefix, id, a, last.now);
      var (m, answers) := After(c, prefix);
      var (m', r) := Perform(c, m, last);
      var allowed := AllowedWithin(prefix, answers, id, a, a + c.window);
      assert (answers + [r])[..|answers|] == answers;
      CallBounded(c, m, last, id, a, allowed);
      LaterBounded(c, Lookup(m', id), a, AllowedWithin(calls, answers + [r], id, a, a + c.window), last.now, now);
    }
  }

  lemma NothingBounded(c: Config, id: string, a: int, now: int)
    ensures Bounded(c, Lookup(map[], id), a, 0, now)
  {}

  /** Without resets, at most 2 * max(limit, 1) requests get through in any time span of one window. */
  lemma TwiceTheLimit(c: Config, calls: seq<Call>, id: string, a: int)
    requires Monotone(calls) && NoReset(calls) && SafeCleanups(c, calls)
    ensures |After(c, calls).1| == |calls|
    ensures AllowedWithin(calls, After(c, calls).1, id, a, a + c.window) <= 2 * Most(c.limit)
  {
    var now := if calls == [] then 0 else calls[|calls| - 1].now;
    RunBounded(c, calls, id, a, now);
  }

  /** In the limiter's own window, which runs up to the entry's resetTime, at most max(limit, 1) do. */
  lemma TheLimitPerWindow(c: Config, calls: seq<Call>, id: string)
    requires Monotone(calls) && NoReset(calls) && SafeCleanups(c, calls)
    requires id in After(c, calls).0
    ensures |After(c, calls).1| == |calls|
    ensures var (m, answers) := After(c, calls);
            AllowedWithin(calls, answers, id, m[id].resetTime - c.window, m[id].resetTime) <= Most(c.limit)
  {
    var (m, answers) := After(c, calls);
    var now := if calls == [] then 0 else calls[|calls| - 1].now;
    RunBounded(c, calls, id, m[id].resetTime - c.window, now);
  }

  // ---- When a request is refused ----

  /** The requests that an entry counts were let through since its window opened, which was not after `last`. */
  ghost predicate Filled(c: Config, e: Option<Entry>, a: int, allowed: nat, last: int) {
    e.Some? ==>
      && e.value.count >= 1 && e.value.resetTime - c.window <= last
      && (a <= e.value.resetTime - c.window ==> e.value.count <= allowed)
  }

  lemma AllowFilled(c: Config, e: Option<Entry>, a: int, allowed: nat, last: int, time: int)
    requires Filled(c, e, a, allowed, last) && last <= time
    ensures var d := Decide(c, e, time);
            Filled(c, Some(d.entry), a, allowed + (if d.allowed && a <= time then 1 else 0), time)
  {}

  lemma CallFilled(c: Config, m: Entries, call: Call, id: string, a: int, now: int, allowed: nat, last: int)
    requires Filled(c, Lookup(m, id), a, allowed, last) && last <= call.now <= now
    ensures var (m', r) := Perform(c, m, call);
            Filled(c, Lookup(m', id), a, allowed + Passed(call, r, id, a, now), call.now)
  {
    if call.op == Allow(id) {
      AllowFilled(c, Lookup(m, id), a, allowed, last, call.now);
      hide Filled, Decide;
    } else {
      hide Decide;
    }
  }

  lemma {:induction false} RunFilled(c: Config, calls: seq<Call>, id: string, a: int, now: int)
    requires calls != [] && Monotone(calls) && calls[|calls| - 1].now <= now
    ensures |After(c, calls).1| == |calls|
    ensures var (m, answers) := After(c, calls);
            Filled(c, Lookup(m, id), a, AllowedWithin(calls, answers, id, a, now), calls[|calls| - 1].now)
  {
    var last := calls[|calls| - 1];
    var prefix := calls[..|calls| - 1];
    assert calls == prefix + [last];
    assert prefix != [] ==> prefix[|prefix| - 1].now <= last.now && Monotone(prefix);
    hide *;
    var before := if prefix == [] then last.now else prefix[|prefix| - 1].now;
    if prefix == [] {
      StartFilled(c, id, a, now, last.now);
    } else {
      RunFilled(c, prefix, id, a, now);
    }
    OneMoreFilled(c, prefix, last, id, a, now, before);
  }

  lemma StartFilled(c: Config, id: string, a: int, now: int, last: int)
    ensures |After(c, []).1| == 0
    ensures Filled(c, Lookup(After(c, []).0, id), a, AllowedWithin([], After(c, []).1, id, a, now), last)
  {}

  lemma OneMoreFilled(c: Config, prefix: seq<Call>, last: Call, id: string, a: int, now: int, before: int)
    requires before <= last.now <= now && |After(c, prefix).1| == |prefix|
    requires Filled(c, Lookup(After(c, prefix).0, id), a, AllowedWithin(prefix, After(c, prefix).1, id, a, now), before)
    ensures |After(c, prefix + [last]).1| == |prefix| + 1
    ensures var (m, answers) := After(c, prefix + [last]);
            Filled(c, Lookup(m, id), a, AllowedWithin(prefix + [last], answers, id, a, now), last.now)
  {
    hide Filled, Perform;
    var calls := prefix + [last];
    var (m, answers) := After(c, prefix);
    assert calls[..|prefix|] == prefix;
    var (m', r) := Perform(c, m, last);
    assert After(c, calls) == (m', answers + [r]);
    assert (answers + [r])[..|answers|] == answers;
    CallFilled(c, m, last, id, a, now, AllowedWithin(prefix, answers, id, a, now), before);
  }

  lemma NothingFilled(c: Config, id: string, a: int, last: int)
    ensures Filled(c, Lookup(map[], id), a, 0, last)
  {}

  lemma RefusedEntry(c: Config, m: Entries, id: string, now: int, allowed: nat, last: int)
    requires Filled(c, Lookup(m, id), now - c.window, allowed, last)
    requires Perform(c, m, Call(Allow(id), now)).1 == Allowed(false)
    ensures allowed >= Most(c.limit)
  {}

  /** A request is refused only when the window that ends with it is full, after any run, with cleanups and
      resets: whoever has used less than the limit in the last window gets through. */
  lemma RefusedOnlyWhenFull(c: Config, calls: seq<Call>, id: string, now: int)
    requires Monotone(calls) && (calls != [] ==> calls[|calls| - 1].now <= now)
    ensures |After(c, calls).1| == |calls|
    ensures Perform(c, After(c, calls).0, Call(Allow(id), now)).1 == Allowed(false) ==>
              AllowedWithin(calls, After(c, calls).1, id, now - c.window, now) >= Most(c.limit)
  {
    if calls == [] {
      NothingFilled(c, id, now - c.window, now);
    } else {
      RunFilled(c, calls, id, now - c.window, now);
    }
    hide Filled, Perform, Most;
    var (m, answers) := After(c, calls);
    if Perform(c, m, Call(Allow(id), now)).1 == Allowed(false) {
      RefusedEntry(c, m, id, now, AllowedWithin(calls, answers, id, now - c.window, now),
                   if calls == [] then now else calls[|calls| - 1].now);
    }
  }

  /** After a reset an identifier starts anew, whatever it had used, and others notice nothing. */
  lemma ResetStartsAnew(c: Config, m: Entries, id: string, other: string, time: int, now: int)
    requires other != id
    ensures var reset := Perform(c, m, Call(Reset(id), time)).0;
            && Perform(c, reset, Call(Allow(id), now)).1 == Allowed(true)
            && Perform(c, reset, Call(GetRemaining(id), now)).1 == Left(c.limit)
            && Perform(c, reset, Call(Allow(other), now)).1 == Perform(c, m, Call(Allow(other), now)).1
  {}

  /** When an identifier called Allow last. */
  function LastCall(calls: seq<Call>, id: string): Option<int> {
    if calls == [] then None
    else if calls[|calls| - 1].op == Allow(id) then Some(calls[|calls| - 1].now)
    else LastCall(calls[..|calls| - 1], id)
  }

  /** An entry remembers the identifier's last call, refused or not; cleanups go by this. */
  lemma {:induction false} LastAccessIsLastCall(c: Config, calls: seq<Call>, id: string)
    ensures id in After(c, calls).0 ==> LastCall(calls, id) == Some(After(c, calls).0[id].lastAccess)
  {
    if calls == [] {
    } else {
      LastAccessIsLastCall(c, calls[..|calls| - 1], id);
    }
  }

  // ---- GetRemaining ----

  /** How many of k requests made at one instant are let through. */
  function Granted(c: Config, e: Option<Entry>, now: int, k: nat): nat
    decreases k
  {
    if k == 0 then 0 else
    var d := Decide(c, e, now);
    (if d.allowed then 1 else 0) + Granted(c, Some(d.entry), now, k - 1)
  }

  function Min(x: int, y: int): int {
    if x <= y then x else y
  }

  lemma {:induction false} RemainingGranted(c: Config, e: Option<Entry>, now: int, k: nat)
    requires c.limit >= 1 && c.window >= 0
    ensures Granted(c, e, now, k) == Min(k, Remaining(c, e, now))
    decreases k
  {
    if k == 0 {
    } else {
      RemainingGranted(c, Some(Decide(c, e, now).entry), now, k - 1);
    }
  }

  lemma {:induction false} AllGranted(c: Config, e: Option<Entry>, now: int, k: nat)
    requires c.window < 0 && (e.None? || now > e.value.resetTime)
    ensures Granted(c, e, now, k) == k
    decreases k
  {
    if k == 0 {
    } else {
      AllGranted(c, Some(Decide(c, e, now).entry), now, k - 1);
    }
  }

  /** GetRemaining is the number of further requests that get through at the same instant, in every
      state, exactly for a positive limit and a window that is not negative. */
  lemma RemainingIsExact(c: Config)
    ensures (forall e, now, k: nat :: Granted(c, e, now, k) == Min(k, Remaining(c, e, now)))
            <==> c.limit >= 1 && c.window >= 0
  {
    if c.limit >= 1 && c.window >= 0 {
      forall e, now, k: nat
        ensures Granted(c, e, now, k) == Min(k, Remaining(c, e, now))
      {
        RemainingGranted(c, e, now, k);
      }
    } else if c.limit < 1 {
      assert Granted(c, Some(Decide(c, None, 0).entry), 0, 0) == 0;
      assert Granted(c, None, 0, 1) == 1;
      assert Min(1, Remaining(c, None, 0)) <= 0;
    } else {
      AllGranted(c, None, 0, c.limit + 1);
      assert Granted(c, None, 0, c.limit + 1) != Min(c.limit + 1, Remaining(c, None, 0));
    }
  }
}
