/** The notification queue of src/service/notifications.go. */
module Notifications {

  datatype Kind =
    | Emergency
    | Certificate
    | BugReport
    | UserRegistration
    | DomainVerification
    | BackupStatus
    | HighTraffic
    | Other(name: string)

  datatype Preferences = Preferences(
    emergency: bool,
    certificate: bool,
    bugReport: bool,
    userRegistration: bool,
    domainVerification: bool,
    backupStatus: bool,
    highTraffic: bool)

  datatype Notification = Notification(
    kind: Kind,
    recipient: string,
    title: string,
    message: string,
    severity: string,
    priority: int)

  const PRIORITY_EMERGENCY := 5

  function IsEnabled(p: Preferences, kind: Kind): bool {
    match kind
    case Emergency => p.emergency
    case Certificate => p.certificate
    case BugReport => p.bugReport
    case UserRegistration => p.userRegistration
    case DomainVerification => p.domainVerification
    case BackupStatus => p.backupStatus
    case HighTraffic => p.highTraffic
    case Other(_) => true
  }

  /** Each of the seven kinds has its own preference, and any other kind is always enabled. */
  lemma EnabledExactly(p: Preferences, kind: Kind)
    ensures IsEnabled(p, kind) <==>
              && (kind == Emergency ==> p.emergency) && (kind == Certificate ==> p.certificate)
              && (kind == BugReport ==> p.bugReport) && (kind == UserRegistration ==> p.userRegistration)
              && (kind == DomainVerification ==> p.domainVerification) && (kind == BackupStatus ==> p.backupStatus)
              && (kind == HighTraffic ==> p.highTraffic)
  {}

  // ---- The three things done to the queue, alone or in interleavings ----

  function Enqueued<T>(queue: seq<T>, n: T): seq<T> {
    queue + [n]
  }

  /** The batch a locked section takes, and the queue it leaves. */
  function Drained<T>(queue: seq<T>): (seq<T>, seq<T>) {
    (queue, [])
  }

  function HandedOver<T>(handed: seq<T>, n: T): seq<T> {
    handed + [n]
  }

  class NotificationManager {
    var preferences: Preferences
    var queue: seq<Notification>
    var running: bool
    /** The notifications given to sendNotification, in order. */
    var handed: seq<Notification>

    constructor (preferences: Preferences)
      ensures this.preferences == preferences && queue == handed == [] && !running
    {
      this.preferences, queue, handed, running := preferences, [], [], false;
    }

    method Queue(n: Notification)
      modifies this
      ensures preferences == old(preferences) && running == old(running)
      ensures var accepted := IsEnabled(preferences, n.kind);
              var urgent := n.priority == 5;
              && handed == (if accepted && urgent then HandedOver(old(handed), n) else old(handed))
              && queue == (if accepted && !urgent then Enqueued(old(queue), n) else old(queue))
    {
      if !IsEnabled(preferences, n.kind) {
        return;
      }
      if n.priority == PRIORITY_EMERGENCY {
        SendNotification(n);
        return;
      }
      queue := queue + [n];
    }

    method SendNotification(n: Notification)
      modifies this`handed
      ensures handed == HandedOver(old(handed), n)
    {
      handed := handed + [n];
    }

    /** The locked section of processQueue. */
    method TakeBatch() returns (batch: seq<Notification>)
      modifies this`queue
      ensures (batch, queue) == Drained(old(queue))
    {
      batch := queue;
      queue := [];
    }

    /** Run alone, it hands over the whole queue in order; what may happen meanwhile is below. */
    method ProcessQueue()
      modifies this`queue, this`handed
      ensures queue == [] && handed == old(handed) + old(queue)
    {
      var notifications := TakeBatch();
      if |notifications| == 0 {
        return;
      }
      for i := 0 to |notifications|
        invariant queue == [] && handed == old(handed) + notifications[..i]
      {
        SendNotification(notifications[i]);
      }
    }

    method Start()
      modifies this`running
      ensures running
    {
      running := true;
    }

    method Stop()
      modifies this`running, this`queue, this`handed
      ensures !running
      ensures if old(running) then queue == [] && handed == old(handed) + old(queue)
              else queue == old(queue) && handed == old(handed)
    {
      if !running {
        return;
      }
      running := false;
      ProcessQueue();
    }
  }

  // ---- Queue and processQueue interleaved ----

  /** A goroutine inside processQueue: whether it has taken its batch, and what is left to hand over. */
  datatype Worker = Worker(taken: bool, rest: seq<nat>)

  /** Accepted notifications are numbered in order of acceptance. Worker 0 is the loop, which exists
      while `running`; each Stop adds a worker that drains the queue after the loop has stopped. */
  datatype State = State(accepted: nat, queue: seq<nat>, running: bool, workers: seq<Worker>, handed: seq<nat>)

  const INITIAL := State(0, [], false, [Worker(true, [])], [])

  datatype Step = Accept | Start | Stop | Take(w: nat) | Send(w: nat)

  predicate CanStep(s: State, a: Step) {
    && s.workers != []
    && match a
       case Accept => true
       case Start => !s.running
       // The loop receives the stop signal only between batches.
       case Stop => s.running && s.workers[0].rest == []
       case Take(w) => w < |s.workers| && if w == 0 then s.running && s.workers[0].rest == [] else !s.workers[w].taken
       case Send(w) => w < |s.workers| && s.workers[w].rest != []
  }

  function After(s: State, a: Step): State
    requires CanStep(s, a)
  {
    match a
    case Accept => s.(queue := Enqueued(s.queue, s.accepted), accepted := s.accepted + 1)
    case Start => s.(running := true)
    case Stop => s.(running := false, workers := s.workers + [Worker(false, [])])
    case Take(w) => s.(queue := Drained(s.queue).1, workers := s.workers[w := Worker(true, Drained(s.queue).0)])
    case Send(w) =>
      var rest := s.workers[w].rest;
      s.(handed := HandedOver(s.handed, rest[0]), workers := s.workers[w := Worker(true, rest[1..])])
  }

  /** From s the steps can be taken one after another. */
  predicate CanRun(s: State, steps: seq<Step>)
    decreases |steps|
  {
    steps == [] || (CanStep(s, steps[0]) && CanRun(After(s, steps[0]), steps[1..]))
  }

  /** The state they lead to. The states an execution goes through are those of its prefixes. */
  function Run(s: State, steps: seq<Step>): State
    requires CanRun(s, steps)
    decreases |steps|
  {
    if steps == [] then s else Run(After(s, steps[0]), steps[1..])
  }

  lemma RunStep(s: State, a: Step, rest: seq<Step>)
    ensures CanRun(s, [a] + rest) <==> CanStep(s, a) && CanRun(After(s, a), rest)
    ensures CanRun(s, [a] + rest) ==> Run(s, [a] + rest) == Run(After(s, a), rest)
  {
    hide CanStep, After;
    assert ([a] + rest)[1..] == rest;
  }

  // ---- Conservation ----

  /** How often n occurs in a sequence. */
  ghost function Count(s: seq<nat>, n: nat): nat {
    multiset(s)[n]
  }

  /** How often n occurs in the batches in flight. */
  ghost function InFlight(workers: seq<Worker>, n: nat): nat {
    if workers == [] then 0 else InFlight(workers[..|workers| - 1], n) + Count(workers[|workers| - 1].rest, n)
  }

  /** Queue, batches in flight and hand-overs together hold every accepted notification once. */
  ghost predicate Conserved(s: State, n: nat) {
    && Count(s.queue, n) + InFlight(s.workers, n) + Count(s.handed, n) == (if n < s.accepted then 1 else 0)
    && forall w | 0 <= w < |s.workers| && !s.workers[w].taken :: s.workers[w].rest == []
  }

  lemma {:induction false} InFlightUpdate(workers: seq<Worker>, w: nat, to: Worker, n: nat)
    requires w < |workers|
    ensures InFlight(workers[w := to], n) + Count(workers[w].rest, n) == InFlight(workers, n) + Count(to.rest, n)
  {
    hide Count;
    var m := |workers| - 1;
    if w == m {
      assert workers[w := to][..m] == workers[..m];
    } else {
      InFlightUpdate(workers[..m], w, to, n);
      assert workers[w := to][..m] == workers[..m][w := to];
    }
  }

  lemma CountAppend(a: seq<nat>, b: seq<nat>, n: nat)
    ensures Count(a + b, n) == Count(a, n) + Count(b, n)
    ensures Count([], n) == 0
    ensures forall k: nat :: Count([k], n) == if k == n then 1 else 0
  {}

  lemma StepConserves(s: State, a: Step, n: nat)
    requires CanStep(s, a) && Conserved(s, n)
    ensures Conserved(After(s, a), n)
  {
    hide Count;
    match a
    case Accept =>
      CountAppend(s.queue, [s.accepted], n);
    case Start =>
    case Stop =>
      CountAppend([], [], n);
      assert (s.workers + [Worker(false, [])])[..|s.workers|] == s.workers;
    case Take(w) =>
      CountAppend([], [], n);
      InFlightUpdate(s.workers, w, Worker(true, s.queue), n);
    case Send(w) =>
      var rest := s.workers[w].rest;
      assert rest == [rest[0]] + rest[1..];
      CountAppend([rest[0]], rest[1..], n);
      CountAppend(s.handed, [rest[0]], n);
      InFlightUpdate(s.workers, w, Worker(true, rest[1..]), n);
  }

  lemma {:induction false} RunConserves(s: State, steps: seq<Step>, n: nat)
    requires CanRun(s, steps) && Conserved(s, n)
    ensures Conserved(Run(s, steps), n)
    decreases |steps|
  {
    hide Conserved, CanStep, After;
    if steps == [] {
    } else {
      StepConserves(s, steps[0], n);
      RunConserves(After(s, steps[0]), steps[1..], n);
    }
  }

  lemma NothingAtFirst(n: nat)
    ensures Conserved(INITIAL, n)
  {
    assert INITIAL.workers[..0] == [];
    assert InFlight(INITIAL.workers, n) == InFlight(INITIAL.workers[..0], n) + Count([], n);
  }

  /** In every interleaving each accepted notification is in exactly one place, so none is lost and
      none is handed over twice. */
  lemma ExactlyOnePlace(steps: seq<Step>, n: nat)
    requires CanRun(INITIAL, steps)
    ensures Conserved(Run(INITIAL, steps), n)
  {
    NothingAtFirst(n);
    RunConserves(INITIAL, steps, n);
  }

  // ---- Order ----

  function Iota(n: nat): (s: seq<nat>)
    ensures |s| == n && forall i | 0 <= i < n :: s[i] == i
  {
    if n == 0 then [] else Iota(n - 1) + [n - 1]
  }

  predicate Finished(w: Worker) {
    w.taken && w.rest == []
  }

  /** Every Stop so far has returned. */
  predicate StopsReturned(s: State) {
    forall w | 0 < w < |s.workers| :: Finished(s.workers[w])
  }

  /** Start is called only when every earlier Stop has returned. */
  predicate Disciplined(s: State, steps: seq<Step>)
    requires CanRun(s, steps)
    decreases |steps|
  {
    steps == [] || ((steps[0] == Start ==> StopsReturned(s)) && Disciplined(After(s, steps[0]), steps[1..]))
  }

  /** The one batch that can be in flight: the loop's while running, the last drain's otherwise. */
  function Batch(s: State): seq<nat>
    requires s.workers != []
  {
    if s.running then s.workers[0].rest else s.workers[|s.workers| - 1].rest
  }

  /** At most one worker is busy, and what was handed over, is in its hands and is queued follows
      the order of acceptance. */
  ghost predicate InOrder(s: State) {
    && s.workers != []
    && (forall w | 0 < w < |s.workers| - 1 :: Finished(s.workers[w]))
    && (s.running ==> |s.workers| == 1 || Finished(s.workers[|s.workers| - 1]))
    && (!s.running ==> s.workers[0].rest == [])
    && (forall w | 0 <= w < |s.workers| && !s.workers[w].taken :: s.workers[w].rest == [])
    && s.handed + Batch(s) + s.queue == Iota(s.accepted)
  }

  lemma TakeInOrder(s: State, w: nat)
    requires CanStep(s, Take(w)) && InOrder(s)
    ensures InOrder(After(s, Take(w)))
  {
    hide Iota;
    assert Batch(s) == [];
    assert s.handed + [] + s.queue == s.handed + s.queue + [];
    assert Batch(After(s, Take(w))) == s.queue;
  }

  lemma SendInOrder(s: State, w: nat)
    requires CanStep(s, Send(w)) && InOrder(s)
    ensures InOrder(After(s, Send(w)))
  {
    hide Iota;
    var rest := s.workers[w].rest;
    assert Batch(s) == rest && Batch(After(s, Send(w))) == rest[1..];
    HandOverOne(s.handed, rest, s.queue);
  }

  lemma HandOverOne(handed: seq<nat>, rest: seq<nat>, queue: seq<nat>)
    requires rest != []
    ensures handed + [rest[0]] + rest[1..] + queue == handed + rest + queue
  {
    assert rest == [rest[0]] + rest[1..];
  }

  lemma StepInOrder(s: State, a: Step)
    requires CanStep(s, a) && InOrder(s) && (a == Start ==> StopsReturned(s))
    ensures InOrder(After(s, a))
  {
    match a
    case Accept =>
      assert s.handed + Batch(s) + (s.queue + [s.accepted]) == s.handed + Batch(s) + s.queue + [s.accepted];
    case Start =>
    case Stop =>
    case Take(w) =>
      TakeInOrder(s, w);
    case Send(w) =>
      SendInOrder(s, w);
  }

  lemma {:induction false} RunInOrder(s: State, steps: seq<Step>)
    requires CanRun(s, steps) && Disciplined(s, steps) && InOrder(s)
    ensures InOrder(Run(s, steps))
    decreases |steps|
  {
    hide InOrder, CanStep, After, StopsReturned;
    if steps == [] {
    } else {
      StepInOrder(s, steps[0]);
      RunInOrder(After(s, steps[0]), steps[1..]);
    }
  }

  /** The notifications handed over so far are the first ones accepted, in order. */
  predicate Orderly(s: State) {
    s.handed <= Iota(s.accepted)
  }

  /** Then notifications are handed over in the order in which they were accepted. */
  lemma HandedInOrder(steps: seq<Step>)
    requires CanRun(INITIAL, steps) && Disciplined(INITIAL, steps)
    ensures InOrder(Run(INITIAL, steps)) && Orderly(Run(INITIAL, steps))
  {
    assert InOrder(INITIAL);
    RunInOrder(INITIAL, steps);
    hide CanRun, Run, Iota;
  }

  // ---- Exactly the undisciplined Starts break the order ----

  /** After a Start now these steps, with no further Start, lead out of order. */
  predicate Overtakes(s: State, more: seq<Step>) {
    && Start !in more
    && CanRun(s, [Start] + more)
    && !Orderly(Run(s, [Start] + more))
  }

  lemma {:induction false} NoStartDisciplined(s: State, steps: seq<Step>)
    requires CanRun(s, steps) && Start !in steps
    ensures Disciplined(s, steps)
    decreases |steps|
  {
    hide CanStep, After, StopsReturned;
    if steps == [] {
    } else {
      NoStartDisciplined(After(s, steps[0]), steps[1..]);
    }
  }

  lemma DisciplinedStart(s: State, more: seq<Step>)
    requires InOrder(s) && StopsReturned(s) && CanRun(s, [Start] + more) && Start !in more
    ensures Orderly(Run(s, [Start] + more))
  {
    RunStep(s, Start, more);
    StepInOrder(s, Start);
    NoStartDisciplined(After(s, Start), more);
    RunInOrder(After(s, Start), more);
    hide CanRun, Run, Iota, After;
  }

  const OVERTAKE := [Accept] + ([Take(0)] + ([Send(0)] + []))

  /** While a drain still holds notifications, the loop hands over one that was accepted later. */
  lemma BusyDrain(s: State, rest: seq<nat>)
    requires s.running && s.workers != [] && s.workers[0].rest == []
    requires rest != [] && s.handed + rest + s.queue == Iota(s.accepted)
    ensures CanRun(s, OVERTAKE) && !Orderly(Run(s, OVERTAKE))
  {
    var a := After(s, Accept);
    var b := After(a, Take(0));
    var c := After(b, Send(0));
    var first := a.queue[0];
    assert first == if s.queue == [] then s.accepted else s.queue[0];
    LaterInLine(s.handed, rest, s.queue, s.accepted);
    assert c.handed == s.handed + [first] && c.accepted == s.accepted + 1;
    assert c.handed[|s.handed|] == first != |s.handed|;
    hide CanStep, After, CanRun, Run;
    RunStep(b, Send(0), []);
    RunStep(a, Take(0), [Send(0)] + []);
    RunStep(s, Accept, [Take(0)] + ([Send(0)] + []));
    EmptyRun(c);
  }

  lemma EmptyRun(s: State)
    ensures CanRun(s, []) && Run(s, []) == s
  {}

  lemma LaterInLine(handed: seq<nat>, rest: seq<nat>, queue: seq<nat>, n: nat)
    requires rest != [] && handed + rest + queue == Iota(n)
    ensures |handed| < n && (queue != [] ==> queue[0] != |handed|)
  {
    var all := handed + rest + queue;
    assert |all| == n;
    if queue != [] {
      assert all[|handed| + |rest|] == queue[0];
    }
  }

  /** The last drain has not taken its batch yet: it takes one, and the loop the next. */
  lemma WaitingDrain(s: State) returns (more: seq<Step>)
    requires InOrder(s) && !s.running && |s.workers| > 1 && !s.workers[|s.workers| - 1].taken
    ensures Overtakes(s, more)
  {
    var w := |s.workers| - 1;
    var a := After(s, Start);
    var b := After(a, Accept);
    var c := After(b, Take(w));
    assert s.handed + Batch(s) + s.queue == s.handed + s.queue;
    assert c.handed + (s.queue + [s.accepted]) + c.queue == (s.handed + s.queue) + [s.accepted];
    BusyDrain(c, s.queue + [s.accepted]);
    more := [Accept] + ([Take(w)] + OVERTAKE);
    hide CanStep, After, CanRun, Run, Orderly;
    RunStep(b, Take(w), OVERTAKE);
    RunStep(a, Accept, [Take(w)] + OVERTAKE);
    RunStep(s, Start, more);
  }

  lemma HoldingDrain(s: State) returns (more: seq<Step>)
    requires InOrder(s) && !s.running && |s.workers| > 1 && s.workers[|s.workers| - 1].rest != []
    ensures Overtakes(s, more)
  {
    BusyDrain(After(s, Start), Batch(s));
    more := OVERTAKE;
    hide CanStep, After, CanRun, Run, Orderly;
    RunStep(s, Start, more);
  }

  /** In an orderly stopped state a Start lets some continuation without further Starts hand over out of
      order exactly when some Stop has not returned. */
  lemma StartOvertakes(s: State)
    requires InOrder(s) && !s.running
    ensures (exists more :: Overtakes(s, more)) <==> !StopsReturned(s)
  {
    if StopsReturned(s) {
      forall more | Start !in more && CanRun(s, [Start] + more)
        ensures Orderly(Run(s, [Start] + more))
      {
        DisciplinedStart(s, more);
      }
    } else if s.workers[|s.workers| - 1].rest != [] {
      var more := HoldingDrain(s);
    } else {
      var more := WaitingDrain(s);
    }
  }

  const STOPPING := [Start] + ([Accept] + ([Stop] + []))

  /** A notification is accepted and Stop is called: a Start before this Stop returns can let a later
      notification overtake it. */
  lemma Overtaking()
    ensures CanRun(INITIAL, STOPPING) && Disciplined(INITIAL, STOPPING)
    ensures exists more :: Overtakes(Run(INITIAL, STOPPING), more)
  {
    var a := After(INITIAL, Start);
    var b := After(a, Accept);
    var c := After(b, Stop);
    hide CanRun, Run;
    EmptyRun(c);
    RunStep(b, Stop, []);
    RunStep(a, Accept, [Stop] + []);
    RunStep(INITIAL, Start, [Accept] + ([Stop] + []));
    assert STOPPING[1..] == [Accept] + ([Stop] + []);
    NoStartDisciplined(a, [Accept] + ([Stop] + []));
    HandedInOrder(STOPPING);
    StartOvertakes(c);
  }
}
