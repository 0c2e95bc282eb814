/** Whole runs of the session manager, GetSession split where src/server/session.go lets go of its lock:
    when a cleanup can be noticed, and whether expiry is final. */
module SessionRuns {
  import opened Wrappers
  import opened Sessions

  /** The answers of a run, cleanups left out. */
  function Answers(s: State, calls: seq<Call>): seq<Answer>
    decreases |calls|
  {
    if calls == [] then [] else
    var (s', a) := Perform(s, calls[0]);
    (if calls[0].op.Cleanup? then [] else [a]) + Answers(s', calls[1..])
  }

  function WithoutCleanup(calls: seq<Call>): seq<Call> {
    if calls == [] then [] else
    (if calls[0].op.Cleanup? then [] else [calls[0]]) + WithoutCleanup(calls[1..])
  }

  ghost predicate Monotone(calls: seq<Call>) {
    forall i, j | 0 <= i <= j < |calls| :: calls[i].now <= calls[j].now
  }

  const EMPTY: State := Store([], map[], 0, map[])

  function Start(timeout: int): State {
    EMPTY.(timeout := timeout)
  }

  // ---- Revivals ----

  /** The table holds this object. */
  predicate Holds(s: State, o: nat)
    requires o < |s.objects|
  {
    var id := s.objects[o].id;
    id in s.table && s.table[id] == o
  }

  predicate IsExpired(s: State, o: nat, now: int)
    requires o < |s.objects|
  {
    s.objects[o].expiresAt < now
  }

  /** An operation that does not check the expiry meets an expired session that is not cleaned up yet:
      ExtendSession, or UpdateSessionActivity or the second section of a GetSession past its check, these two
      with an expiry that has not passed. */
  predicate Revives(s: State, call: Call) {
    match call.op
    case Update(id, _, later) => id in s.table && IsExpired(s, s.table[id], call.now) && call.now <= later + s.timeout
    case Extend(id, _) => id in s.table && IsExpired(s, s.table[id], call.now)
    case Touch(g, _, later) =>
      var r := RequestOf(s, g);
      r.Live? && Holds(s, r.ref) && IsExpired(s, r.ref, call.now) && call.now <= later + s.timeout
    case _ => false
  }

  /** A GetSession acts on a session that is no longer the stored one, and another can tell: it prolongs an
      expired object that was removed while a second GetSession still looks at it, or it removes a new session
      of the same ID. */
  predicate Strays(s: State, call: Call) {
    match call.op
    case Touch(g, _, later) =>
      var r := RequestOf(s, g);
      && r.Live? && !Holds(s, r.ref) && IsExpired(s, r.ref, call.now) && call.now <= later + s.timeout
      && exists g' | g' in s.requests :: s.requests[g'] == Found(r.ref)
    case Remove(g) =>
      var r := RequestOf(s, g);
      r.Expired? && s.objects[r.ref].id in s.table && !Holds(s, r.ref)
    case _ => false
  }

  /** No call of the run revives or strays. */
  ghost predicate Regular(s: State, calls: seq<Call>)
    decreases |calls|
  {
    calls != [] ==> !Revives(s, calls[0]) && !Strays(s, calls[0]) && Regular(Perform(s, calls[0]).0, calls[1..])
  }

  // ---- What cleanups can change without being noticed ----

  /** The same session, with the same expiry and activity, or expired and unstored so that nobody can tell. */
  predicate SameObject(s: State, t: State, o: nat, now: int)
    requires o < |s.objects| == |t.objects|
  {
    var x, y := s.objects[o], t.objects[o];
    x == y || (x == Touched(y, x.lastActivity, x.expiresAt) && x.expiresAt < now && y.expiresAt < now && !Holds(s, o))
  }

  /** An object that a request found because no cleanup had come: expired, and gone in s. */
  predicate Gone(s: State, t: State, o: nat, now: int)
    requires o < |s.objects| == |t.objects|
  {
    !Holds(s, o) && t.objects[o].expiresAt < now
  }

  predicate SameRequest(s: State, t: State, a: Request, b: Request, now: int)
    requires |s.objects| == |t.objects| && HasObject(b, |t.objects|)
  {
    || a == b
    || (a == Missing && b.Found? && Gone(s, t, b.ref, now))
    || (a == Over && b.Expired? && !Holds(s, b.ref))
  }

  ghost predicate SameTable(s: State, t: State, now: int) {
    && (forall id | id in s.table :: id in t.table && t.table[id] == s.table[id])
    && (forall id | id in t.table && id !in s.table :: IsExpired(t, t.table[id], now))
  }

  /** s is t after cleanups: nobody can tell them apart from `now` on, unless a session is revived. */
  ghost predicate Hidden(s: State, t: State, now: int) {
    && s.timeout == t.timeout && |s.objects| == |t.objects|
    && (forall o: nat | o < |s.objects| :: SameObject(s, t, o, now))
    && SameTable(s, t, now)
    && (forall g: nat :: SameRequest(s, t, RequestOf(s, g), RequestOf(t, g), now))
  }

  lemma HiddenLater(s: State, t: State, before: int, now: int)
    requires Hidden(s, t, before) && before <= now
    ensures Hidden(s, t, now)
  {
    hide Holds;
    forall o: nat | o < |s.objects|
      ensures SameObject(s, t, o, now)
    {
      assert SameObject(s, t, o, before);
    }
    forall g: nat
      ensures SameRequest(s, t, RequestOf(s, g), RequestOf(t, g), now)
    {
      assert SameRequest(s, t, RequestOf(s, g), RequestOf(t, g), before);
    }
  }

  lemma HiddenSelf(s: State, now: int)
    ensures Hidden(s, s, now)
  {
    hide Holds;
  }

  lemma CleanupHidden(s: State, t: State, now: int)
    requires Hidden(s, t, now)
    ensures Hidden(Cleaned(s, now), t, now)
  {
    var s' := Cleaned(s, now);
    forall o: nat | o < |s'.objects|
      ensures SameObject(s', t, o, now)
    {
      assert SameObject(s, t, o, now);
    }
    forall g: nat
      ensures SameRequest(s', t, RequestOf(s', g), RequestOf(t, g), now)
    {
      assert SameRequest(s, t, RequestOf(s, g), RequestOf(t, g), now);
      assert RequestOf(s', g) == RequestOf(s, g);
    }
    forall id | id in t.table && id !in s'.table
      ensures IsExpired(t, t.table[id], now)
    {
      if id in s.table {
        assert SameObject(s, t, s.table[id], now);
      }
    }
  }

  lemma HiddenRows(s: State, t: State, now: int)
    requires Hidden(s, t, now)
    ensures forall id | id in Rows(s) :: id in Rows(t) && Rows(t)[id] == Rows(s)[id]
    ensures forall id | id in Rows(t) && id !in Rows(s) :: Rows(t)[id].expiresAt < now
  {
    forall id | id in s.table
      ensures t.objects[t.table[id]] == s.objects[s.table[id]]
    {
      assert SameObject(s, t, s.table[id], now);
    }
  }

  lemma HiddenViews(s: State, t: State, userId: string, now: int)
    requires Hidden(s, t, now)
    ensures ActiveIds(Rows(s), now) == ActiveIds(Rows(t), now)
    ensures UserIds(Rows(s), userId, now) == UserIds(Rows(t), userId, now)
    ensures ActiveUsers(Rows(s), now) == ActiveUsers(Rows(t), now)
  {
    HiddenRows(s, t, now);
    hide Hidden, Rows;
    assert ActiveIds(Rows(s), now) == ActiveIds(Rows(t), now);
  }

  /** One call on both sides: they answer alike and stay related. */
  ghost predicate Alike(s: State, t: State, call: Call) {
    && Perform(s, call).1 == Perform(t, call).1
    && Hidden(Perform(s, call).0, Perform(t, call).0, call.now)
  }

  // ---- Calls that write an object ----

  /** Writing the same to both keeps them related, if it makes no object unexpired that only t has a use for. */
  lemma WriteBoth(s: State, t: State, o: nat, x: Session, now: int)
    requires Hidden(s, t, now) && o < |s.objects| && x.id == s.objects[o].id == t.objects[o].id
    requires x.expiresAt < now || Holds(s, o)
             || (!Holds(t, o) && forall g: nat :: RequestOf(s, g) == RequestOf(t, g) || RequestOf(t, g) != Found(o))
    ensures Hidden(Written(s, o, x), Written(t, o, x), now)
  {
    var s', t' := Written(s, o, x), Written(t, o, x);
    forall k: nat | k < |s'.objects|
      ensures SameObject(s', t', k, now)
    {
      assert SameObject(s, t, k, now);
    }
    forall g: nat
      ensures SameRequest(s', t', RequestOf(s', g), RequestOf(t', g), now)
    {
      assert SameRequest(s, t, RequestOf(s, g), RequestOf(t, g), now);
      assert RequestOf(s', g) == RequestOf(s, g) && RequestOf(t', g) == RequestOf(t, g);
    }
  }

  /** Writing an expired session that only t holds. */
  lemma WriteHidden(s: State, t: State, o: nat, x: Session, now: int)
    requires Hidden(s, t, now) && o < |t.objects| && !Holds(s, o) && IsExpired(t, o, now)
    requires x == Touched(t.objects[o], x.lastActivity, x.expiresAt) && x.expiresAt < now
    ensures Hidden(s, Written(t, o, x), now)
  {
    var t' := Written(t, o, x);
    forall k: nat | k < |s.objects|
      ensures SameObject(s, t', k, now)
    {
      assert SameObject(s, t, k, now);
    }
    forall g: nat
      ensures SameRequest(s, t', RequestOf(s, g), RequestOf(t', g), now)
    {
      assert SameRequest(s, t, RequestOf(s, g), RequestOf(t, g), now);
      assert RequestOf(t', g) == RequestOf(t, g);
    }
  }

  /** The same object under the same ID, as nobody else can hold it. */
  lemma HeldAlike(s: State, t: State, id: string, now: int)
    requires Hidden(s, t, now)
    ensures id in s.table ==> id in t.table && t.table[id] == s.table[id] && Holds(s, s.table[id]) && Holds(t, s.table[id])
                              && s.objects[s.table[id]] == t.objects[s.table[id]]
    ensures id in t.table && id !in s.table ==>
              && Holds(t, t.table[id]) && IsExpired(t, t.table[id], now) && !Holds(s, t.table[id])
              && s.objects[t.table[id]].id == id
  {
    if id in t.table {
      assert SameObject(s, t, t.table[id], now);
    }
  }

  function UpdatedSession(s: State, call: Call): Session
    requires call.op.Update? && call.op.id in s.table
  {
    Touched(s.objects[s.table[call.op.id]], call.op.activity, call.op.later + s.timeout)
  }

  lemma UpdateResult(s: State, call: Call)
    requires call.op.Update?
    ensures call.op.id in s.table ==> Perform(s, call) == (Written(s, s.table[call.op.id], UpdatedSession(s, call)), Done)
    ensures call.op.id !in s.table ==> Perform(s, call) == (s, Done)
  {}

  lemma UpdateRevives(t: State, call: Call)
    requires call.op.Update? && !Revives(t, call)
    ensures call.op.id in t.table && IsExpired(t, t.table[call.op.id], call.now) ==> call.op.later + t.timeout < call.now
  {}

  lemma UpdateBoth(s: State, t: State, call: Call)
    requires Hidden(s, t, call.now) && call.op.Update? && call.op.id in s.table
    ensures Alike(s, t, call)
  {
    var id := call.op.id;
    HeldAlike(s, t, id, call.now);
    UpdateResult(s, call);
    UpdateResult(t, call);
    SameTimeout(s, t, call.now);
    hide Hidden, Holds, Perform, Written, Rows;
    WriteBoth(s, t, t.table[id], UpdatedSession(t, call), call.now);
  }

  lemma UpdateUnstored(s: State, t: State, call: Call)
    requires Hidden(s, t, call.now) && call.op.Update? && !Revives(t, call)
    requires call.op.id in t.table && call.op.id !in s.table
    ensures Alike(s, t, call)
  {
    var id := call.op.id;
    HeldAlike(s, t, id, call.now);
    UpdateResult(s, call);
    UpdateResult(t, call);
    UpdateRevives(t, call);
    SameTimeout(s, t, call.now);
    hide Hidden, Holds, Perform, Written, Revives, Rows;
    WriteHidden(s, t, t.table[id], UpdatedSession(t, call), call.now);
  }

  lemma UpdateHidden(s: State, t: State, call: Call)
    requires Hidden(s, t, call.now) && call.op.Update? && !Revives(t, call)
    ensures Alike(s, t, call)
  {
    hide *;
    if call.op.id in s.table {
      UpdateBoth(s, t, call);
    } else if call.op.id in t.table {
      UpdateUnstored(s, t, call);
    } else {
      UpdateResult(s, call);
      UpdateResult(t, call);
      AlikeIf(s, t, call);
    }
  }

  lemma AlikeIf(s: State, t: State, call: Call)
    requires Perform(s, call).1 == Perform(t, call).1 && Hidden(Perform(s, call).0, Perform(t, call).0, call.now)
    ensures Alike(s, t, call)
  {
    hide Perform, Hidden;
  }

  lemma SameTimeout(s: State, t: State, now: int)
    requires Hidden(s, t, now)
    ensures s.timeout == t.timeout && |s.objects| == |t.objects|
  {}

  lemma TableBelow(s: State, t: State, id: string, now: int)
    requires Hidden(s, t, now) && id !in t.table
    ensures id !in s.table
  {}

  lemma ExtendHidden(s: State, t: State, call: Call)
    requires Hidden(s, t, call.now) && call.op.Extend? && !Revives(t, call)
    ensures Alike(s, t, call)
  {
    var id := call.op.id;
    HeldAlike(s, t, id, call.now);
    hide Hidden, Holds;
    if id in t.table {
      var o := t.table[id];
      WriteBoth(s, t, o, t.objects[o].(expiresAt := call.op.expiry), call.now);
    } else {
      TableBelow(s, t, id, call.now);
    }
  }

  // ---- The sections of GetSession ----

  lemma MoveBoth(s: State, t: State, g: nat, a: Request, b: Request, now: int)
    requires Hidden(s, t, now) && HasObject(a, |s.objects|) && HasObject(b, |t.objects|) && SameRequest(s, t, a, b, now)
    ensures Hidden(Moved(s, g, a), Moved(t, g, b), now)
  {
    var s', t' := Moved(s, g, a), Moved(t, g, b);
    forall k: nat | k < |s'.objects|
      ensures SameObject(s', t', k, now)
    {
      assert SameObject(s, t, k, now);
    }
    forall h: nat
      ensures SameRequest(s', t', RequestOf(s', h), RequestOf(t', h), now)
    {
      assert SameRequest(s, t, RequestOf(s, h), RequestOf(t, h), now);
    }
  }

  lemma FindHidden(s: State, t: State, call: Call)
    requires Hidden(s, t, call.now) && call.op.Find?
    ensures Alike(s, t, call)
  {
    var id := call.op.id;
    HeldAlike(s, t, id, call.now);
    SameTimeout(s, t, call.now);
    hide Hidden, Holds;
    var a := if id in s.table then Found(s.table[id]) else Missing;
    var b := if id in t.table then Found(t.table[id]) else Missing;
    if id !in t.table {
      TableBelow(s, t, id, call.now);
    }
    MoveBoth(s, t, call.op.g, a, b, call.now);
  }

  /** The requests of one GetSession on both sides. */
  lemma RequestsOf(s: State, t: State, g: nat, now: int)
    requires Hidden(s, t, now)
    ensures |s.objects| == |t.objects| && s.timeout == t.timeout
    ensures SameRequest(s, t, RequestOf(s, g), RequestOf(t, g), now)
  {}

  lemma ObjectsOf(s: State, t: State, o: nat, now: int)
    requires Hidden(s, t, now) && o < |s.objects|
    ensures |s.objects| == |t.objects| && SameObject(s, t, o, now)
  {}

  lemma TestHidden(s: State, t: State, call: Call)
    requires Hidden(s, t, call.now) && call.op.Test?
    ensures Alike(s, t, call)
  {
    var g := call.op.g;
    RequestsOf(s, t, g, call.now);
    hide Hidden;
    var a, b := RequestOf(s, g), RequestOf(t, g);
    if a.Found? {
      ObjectsOf(s, t, a.ref, call.now);
      MoveBoth(s, t, g, Expired(a.ref), Expired(a.ref), call.now);
      MoveBoth(s, t, g, Live(a.ref), Live(a.ref), call.now);
    } else if a.Missing? && b.Found? {
      MoveBoth(s, t, g, Over, Expired(b.ref), call.now);
    } else if a.Missing? {
      MoveBoth(s, t, g, Over, Over, call.now);
    }
  }

  lemma TouchHidden(s: State, t: State, call: Call)
    requires Hidden(s, t, call.now) && call.op.Touch? && !Revives(t, call)
    requires !Strays(t, call) || s.requests == t.requests
    ensures Alike(s, t, call)
  {
    var g := call.op.g;
    RequestsOf(s, t, g, call.now);
    var r := RequestOf(t, g);
    if r.Live? {
      ObjectsOf(s, t, r.ref, call.now);
      TouchAllowed(s, t, call);
      hide Hidden, Holds;
      var x := Touched(t.objects[r.ref], call.op.activity, call.op.later + t.timeout);
      WriteBoth(s, t, r.ref, x, call.now);
      MoveBoth(Written(s, r.ref, x), Written(t, r.ref, x), g, Over, Over, call.now);
    }
  }

  lemma TouchAllowed(s: State, t: State, call: Call)
    requires Hidden(s, t, call.now) && call.op.Touch? && !Revives(t, call)
    requires !Strays(t, call) || s.requests == t.requests
    requires RequestOf(t, call.op.g).Live?
    ensures var o := RequestOf(t, call.op.g).ref;
            || call.op.later + t.timeout < call.now || Holds(s, o)
            || (!Holds(t, o) && forall h: nat :: RequestOf(s, h) == RequestOf(t, h) || RequestOf(t, h) != Found(o))
  {
    var o := RequestOf(t, call.op.g).ref;
    ObjectsOf(s, t, o, call.now);
    if Holds(t, o) {
      HeldAlike(s, t, t.objects[o].id, call.now);
    } else if call.now <= call.op.later + t.timeout {
      forall h: nat
        ensures RequestOf(s, h) == RequestOf(t, h) || RequestOf(t, h) != Found(o)
      {
        RequestsOf(s, t, h, call.now);
      }
    }
  }

  // ---- Calls that change the table ----

  lemma DropBoth(s: State, t: State, ids: set<string>, now: int)
    requires Hidden(s, t, now)
    ensures Hidden(s.(table := s.table - ids), t.(table := t.table - ids), now)
  {
    var s': State, t': State := s.(table := s.table - ids), t.(table := t.table - ids);
    forall k: nat | k < |s'.objects|
      ensures SameObject(s', t', k, now)
    {
      assert SameObject(s, t, k, now);
    }
    forall h: nat
      ensures SameRequest(s', t', RequestOf(s', h), RequestOf(t', h), now)
    {
      assert SameRequest(s, t, RequestOf(s, h), RequestOf(t, h), now);
    }
  }

  lemma DestroyHidden(s: State, t: State, call: Call)
    requires Hidden(s, t, call.now) && call.op.Destroy?
    ensures Alike(s, t, call)
  {
    DropBoth(s, t, {call.op.id}, call.now);
    hide Hidden;
  }

  /** The stored sessions of a user, as objects of t. */
  function IdsOf(t: State, userId: string): set<string> {
    set id | id in t.table && t.objects[t.table[id]].login.userId == userId
  }

  lemma UserDropped(s: State, userId: string, ids: set<string>)
    requires forall id | id in s.table :: id in ids <==> s.objects[s.table[id]].login.userId == userId
    ensures WithoutUser(s, userId) == s.(table := s.table - ids)
  {
    assert WithoutUser(s, userId).table == s.table - ids;
  }

  lemma DestroyUserHidden(s: State, t: State, call: Call)
    requires Hidden(s, t, call.now) && call.op.DestroyUser?
    ensures Alike(s, t, call)
  {
    var ids := IdsOf(t, call.op.userId);
    hide Hidden, WithoutUser, Holds;
    forall id | id in s.table
      ensures id in ids <==> s.objects[s.table[id]].login.userId == call.op.userId
    {
      HeldAlike(s, t, id, call.now);
    }
    UserDropped(s, call.op.userId, ids);
    UserDropped(t, call.op.userId, ids);
    DropBoth(s, t, ids, call.now);
  }

  lemma RemoveHidden(s: State, t: State, call: Call)
    requires Hidden(s, t, call.now) && call.op.Remove?
    requires !Strays(t, call) || s.requests == t.requests
    ensures Alike(s, t, call)
  {
    var g := call.op.g;
    RequestsOf(s, t, g, call.now);
    if RequestOf(t, g).Expired? {
      RemoveExpired(s, t, call);
    } else {
      hide Hidden;
      assert !RequestOf(s, g).Expired?;
    }
  }

  lemma RemoveBoth(s: State, t: State, id: string, now: int)
    requires Hidden(s, t, now)
    ensures Hidden(Removed(s, id), Removed(t, id), now)
  {
    DropBoth(s, t, {id}, now);
    hide Hidden;
  }

  lemma RemoveExpired(s: State, t: State, call: Call)
    requires Hidden(s, t, call.now) && call.op.Remove? && RequestOf(t, call.op.g).Expired?
    requires !Strays(t, call) || s.requests == t.requests
    ensures Alike(s, t, call)
  {
    var g := call.op.g;
    RequestsOf(s, t, g, call.now);
    var a, b := RequestOf(s, g), RequestOf(t, g);
    ObjectsOf(s, t, b.ref, call.now);
    var id := t.objects[b.ref].id;
    HeldAlike(s, t, id, call.now);
    RemoveBoth(s, t, id, call.now);
    hide Hidden, Holds, SameObject, Removed;
    MoveBoth(Removed(s, id), Removed(t, id), g, Over, Over, call.now);
    if a == Over {
      NothingRemoved(s, id, g);
    }
  }

  lemma NothingRemoved(s: State, id: string, g: nat)
    requires id !in s.table && RequestOf(s, g) == Over
    ensures Moved(Removed(s, id), g, Over) == s == Removing(s, g)
  {
    assert s.table - {id} == s.table && s.requests - {g} == s.requests;
  }

  lemma HeldBefore(s: State, x: Session, o: nat)
    requires o < |s.objects|
    ensures Added(s, x).objects[o] == s.objects[o] && (Holds(Added(s, x), o) ==> Holds(s, o))
  {}

  lemma CreateHidden(s: State, t: State, call: Call)
    requires Hidden(s, t, call.now) && call.op.Create?
    ensures Alike(s, t, call)
  {
    AddBoth(s, t, call.op.session, call.now);
    hide Hidden;
  }

  lemma AddBoth(s: State, t: State, x: Session, now: int)
    requires Hidden(s, t, now)
    ensures Hidden(Added(s, x), Added(t, x), now)
  {
    var s', t' := Added(s, x), Added(t, x);
    forall k: nat | k < |s'.objects|
      ensures SameObject(s', t', k, now)
    {
      if k < |s.objects| {
        AddedObject(s, t, x, k, now);
      }
    }
    forall h: nat
      ensures SameRequest(s', t', RequestOf(s', h), RequestOf(t', h), now)
    {
      AddedRequest(s, t, x, h, now);
    }
    hide SameObject, SameRequest, Holds;
  }

  lemma AddedObject(s: State, t: State, x: Session, k: nat, now: int)
    requires |s.objects| == |t.objects| && k < |s.objects| && SameObject(s, t, k, now)
    ensures SameObject(Added(s, x), Added(t, x), k, now)
  {
    HeldBefore(s, x, k);
    hide Holds;
  }

  lemma AddedRequest(s: State, t: State, x: Session, h: nat, now: int)
    requires |s.objects| == |t.objects| && SameRequest(s, t, RequestOf(s, h), RequestOf(t, h), now)
    ensures var s', t' := Added(s, x), Added(t, x);
            SameRequest(s', t', RequestOf(s', h), RequestOf(t', h), now)
  {
    var b := RequestOf(t, h);
    if b.Found? || b.Expired? {
      HeldBefore(s, x, b.ref);
    }
    hide Holds;
  }

  lemma TimeoutHidden(s: State, t: State, call: Call)
    requires Hidden(s, t, call.now) && call.op.SetTimeout?
    ensures Alike(s, t, call)
  {
    var s': State, t': State := s.(timeout := call.op.timeout), t.(timeout := call.op.timeout);
    forall k: nat | k < |s'.objects|
      ensures SameObject(s', t', k, call.now)
    {
      assert SameObject(s, t, k, call.now);
    }
    forall h: nat
      ensures SameRequest(s', t', RequestOf(s', h), RequestOf(t', h), call.now)
    {
      assert SameRequest(s, t, RequestOf(s, h), RequestOf(t, h), call.now);
      assert RequestOf(s', h) == RequestOf(s, h) && RequestOf(t', h) == RequestOf(t, h);
    }
  }

  lemma QueryHidden(s: State, t: State, call: Call)
    requires Hidden(s, t, call.now) && (call.op.ListUser? || call.op.CountSessions? || call.op.CountUsers?)
    ensures Alike(s, t, call)
  {
    HiddenViews(s, t, if call.op.ListUser? then call.op.userId else "", call.now);
    hide ActiveIds, UserIds, ActiveUsers, Hidden, Rows;
  }

  lemma PerformHidden(s: State, t: State, call: Call, before: int)
    requires Hidden(s, t, before) && before <= call.now && !call.op.Cleanup?
    requires !Revives(t, call) && (!Strays(t, call) || s.requests == t.requests)
    ensures Alike(s, t, call)
  {
    HiddenLater(s, t, before, call.now);
    hide *;
    match call.op
    case Create(_) => CreateHidden(s, t, call);
    case Find(_, _) => FindHidden(s, t, call);
    case Test(_) => TestHidden(s, t, call);
    case Touch(_, _, _) => TouchHidden(s, t, call);
    case Remove(_) => RemoveHidden(s, t, call);
    case Destroy(_) => DestroyHidden(s, t, call);
    case DestroyUser(_) => DestroyUserHidden(s, t, call);
    case SetTimeout(_) => TimeoutHidden(s, t, call);
    case Update(_, _, _) => UpdateHidden(s, t, call);
    case Extend(_, _) => ExtendHidden(s, t, call);
    case _ => QueryHidden(s, t, call);
  }

  // ---- Runs with and without cleanups ----

  lemma AnswersStep(s: State, call: Call, rest: seq<Call>)
    ensures var (s', a) := Perform(s, call);
            Answers(s, [call] + rest) == if call.op.Cleanup? then Answers(s', rest) else [a] + Answers(s', rest)
    ensures Answers(s, []) == []
  {
    hide Perform;
    assert ([call] + rest)[1..] == rest;
    var after := Answers(Perform(s, call).0, rest);
    assert [] + after == after;
  }

  lemma WithoutStep(call: Call, rest: seq<Call>)
    ensures WithoutCleanup([call] + rest)
            == if call.op.Cleanup? then WithoutCleanup(rest) else [call] + WithoutCleanup(rest)
  {
    assert ([call] + rest)[1..] == rest;
    assert [] + WithoutCleanup(rest) == WithoutCleanup(rest);
  }

  lemma RegularStep(t: State, call: Call, rest: seq<Call>)
    requires Regular(t, WithoutCleanup([call] + rest))
    ensures call.op.Cleanup? ==> Regular(t, WithoutCleanup(rest))
    ensures !call.op.Cleanup? ==> !Revives(t, call) && !Strays(t, call) && Regular(Perform(t, call).0, WithoutCleanup(rest))
  {
    WithoutStep(call, rest);
    hide Perform, WithoutCleanup, Revives, Strays;
    assert ([call] + WithoutCleanup(rest))[1..] == WithoutCleanup(rest);
  }

  lemma CleanupStep(s: State, t: State, call: Call, before: int)
    requires Hidden(s, t, before) && before <= call.now && call.op.Cleanup?
    ensures Hidden(Perform(s, call).0, t, call.now)
  {
    HiddenLater(s, t, before, call.now);
    hide Hidden, Cleaned;
    CleanupHidden(s, t, call.now);
  }

  lemma AlikeStep(s: State, t: State, call: Call)
    requires Alike(s, t, call)
    ensures Perform(s, call).1 == Perform(t, call).1 && Hidden(Perform(s, call).0, Perform(t, call).0, call.now)
  {
    hide Perform, Hidden;
  }

  lemma {:induction false} RunHidden(s: State, t: State, calls: seq<Call>, before: int)
    requires Hidden(s, t, before)
    requires Monotone(calls) && Regular(t, WithoutCleanup(calls)) && (calls != [] ==> before <= calls[0].now)
    ensures Answers(s, calls) == Answers(t, WithoutCleanup(calls))
    decreases |calls|
  {
    hide Hidden, Regular, Perform;
    if calls == [] {
    } else {
      var call, rest := calls[0], calls[1..];
      assert calls == [call] + rest && Monotone(rest) && (rest != [] ==> call.now <= rest[0].now);
      hide *;
      RegularStep(t, call, rest);
      AnswersStep(s, call, rest);
      WithoutStep(call, rest);
      if call.op.Cleanup? {
        CleanupStep(s, t, call, before);
        RunHidden(Perform(s, call).0, t, rest, call.now);
      } else {
        PerformHidden(s, t, call, before);
        AlikeStep(s, t, call);
        RunHidden(Perform(s, call).0, Perform(t, call).0, rest, call.now);
        AnswersStep(t, call, WithoutCleanup(rest));
      }
    }
  }

  /** Eager cleanup changes no answer of a run that, without its cleanups, is regular: lazy and eager removal
      agree, whatever comes between the sections of a GetSession. */
  lemma CleanupInvisible(timeout: int, calls: seq<Call>)
    requires Monotone(calls) && Regular(Start(timeout), WithoutCleanup(calls))
    ensures Answers(Start(timeout), calls) == Answers(Start(timeout), WithoutCleanup(calls))
  {
    if calls != [] {
      HiddenSelf(Start(timeout), calls[0].now);
      RunHidden(Start(timeout), Start(timeout), calls, calls[0].now);
    }
  }

  // ---- Exactly the revivals make cleanups show ----

  /** Some request number is not in use. */
  lemma {:induction false} FreshRequest(used: set<nat>) returns (g: nat)
    ensures forall h | h in used :: h < g
    decreases |used|
  {
    if h :| h in used {
      var k := FreshRequest(used - {h});
      g := if h < k then k else h + 1;
      forall x | x in used
        ensures x < g
      {
        assert x == h || x in used - {h};
      }
    } else {
      g := 0;
    }
  }

  /** Looking up an ID tells whether an unexpired session is stored under it. */
  lemma LookUp(s: State, g: nat, id: string, now: int)
    ensures var found := Perform(s, Call(Find(g, id), now)).0;
            Perform(found, Call(Test(g), now)).1
            == if id in s.table && now <= s.objects[s.table[id]].expiresAt then Done else Invalid
  {}

  /** The ID a reviving call is about. */
  function Revived(s: State, call: Call): string
    requires Revives(s, call)
  {
    match call.op
    case Update(id, _, _) => id
    case Extend(id, _) => id
    case Touch(g, _, _) => s.objects[RequestOf(s, g).ref].id
  }

  lemma RevivedStored(t: State, call: Call)
    requires Revives(t, call)
    ensures var id, t' := Revived(t, call), Perform(t, call).0;
            if call.op.Extend? then Perform(t, call).1 == Done
            else id in t'.table && call.now <= t'.objects[t'.table[id]].expiresAt
  {}

  lemma CleanedLacks(t: State, call: Call)
    requires Revives(t, call)
    ensures var id, cleaned := Revived(t, call), Cleaned(t, call.now);
            if call.op.Extend? then Perform(cleaned, call).1 == Invalid else id !in Perform(cleaned, call).0.table
  {}

  /** After a revival the lookup of a new request at the same instant, or the revival's own answer, tells
      whether a cleanup came right before it. */
  lemma RevivalShows(t: State, call: Call) returns (rest: seq<Call>)
    requires Revives(t, call)
    ensures Lookup(rest, call.now)
    ensures Answers(Cleaned(t, call.now), [call] + rest) != Answers(t, [call] + rest)
  {
    var cleaned, id := Cleaned(t, call.now), Revived(t, call);
    RevivedStored(t, call);
    CleanedLacks(t, call);
    assert !call.op.Cleanup?;
    var s', t' := Perform(cleaned, call).0, Perform(t, call).0;
    if call.op.Extend? {
      hide *;
      AnswerDiffers(cleaned, t, call);
      rest := [];
      NoLookup(call.now);
    } else {
      var g := FreshRequest(t.requests.Keys);
      LookUp(s', g, id, call.now);
      LookUp(t', g, id, call.now);
      hide *;
      var find, test := Call(Find(g, id), call.now), Call(Test(g), call.now);
      LookupDiffers(cleaned, t, call, find, test);
      rest := [find] + ([test] + []);
      OneLookup(g, id, call.now);
    }
  }

  /** No call, or the two calls with which one GetSession begins. */
  ghost predicate Lookup(rest: seq<Call>, now: int) {
    rest == [] || exists g, id :: rest == [Call(Find(g, id), now)] + ([Call(Test(g), now)] + [])
  }

  lemma NoLookup(now: int)
    ensures Lookup([], now)
  {}

  lemma OneLookup(g: nat, id: string, now: int)
    ensures Lookup([Call(Find(g, id), now)] + ([Call(Test(g), now)] + []), now)
  {}

  lemma AnswerDiffers(s: State, t: State, call: Call)
    requires !call.op.Cleanup? && Perform(s, call).1 != Perform(t, call).1
    ensures Answers(s, [call] + []) != Answers(t, [call] + [])
  {
    hide *;
    AnswersStep(s, call, []);
    AnswersStep(t, call, []);
    var x, y := Perform(s, call).1, Perform(t, call).1;
    assert ([x] + Answers(Perform(s, call).0, []))[0] == x && ([y] + Answers(Perform(t, call).0, []))[0] == y;
  }

  lemma LookupDiffers(s: State, t: State, call: Call, find: Call, test: Call)
    requires !call.op.Cleanup? && !find.op.Cleanup? && !test.op.Cleanup?
    requires Perform(Perform(Perform(s, call).0, find).0, test).1 != Perform(Perform(Perform(t, call).0, find).0, test).1
    ensures Answers(s, [call] + ([find] + ([test] + []))) != Answers(t, [call] + ([find] + ([test] + [])))
  {
    hide *;
    ThirdAnswer(s, call, find, test);
    ThirdAnswer(t, call, find, test);
  }

  lemma ThirdAnswer(s: State, a: Call, b: Call, c: Call)
    requires !a.op.Cleanup? && !b.op.Cleanup? && !c.op.Cleanup?
    ensures |Answers(s, [a] + ([b] + ([c] + [])))| == 3
    ensures Answers(s, [a] + ([b] + ([c] + [])))[2] == Perform(Perform(Perform(s, a).0, b).0, c).1
  {
    hide *;
    var s1 := Perform(s, a).0;
    var s2 := Perform(s1, b).0;
    AnswersStep(s, a, [b] + ([c] + []));
    AnswersStep(s1, b, [c] + []);
    AnswersStep(s2, c, []);
    AnswersStep(Perform(s2, c).0, c, []);
  }

  lemma LookupRegular(t: State, rest: seq<Call>, now: int)
    requires Lookup(rest, now)
    ensures WithoutCleanup(rest) == rest && Regular(t, rest)
    ensures forall i | 0 <= i < |rest| :: rest[i].now == now
  {
    hide Perform;
    if rest != [] {
      var g, id :| rest == [Call(Find(g, id), now)] + ([Call(Test(g), now)] + []);
      WithoutStep(rest[0], [rest[1]] + []);
      WithoutStep(rest[1], []);
      assert rest[1..] == [rest[1]] && rest[1..][1..] == [];
      assert Regular(Perform(t, rest[0]).0, rest[1..]);
    }
  }

  /** In any state, a cleanup right before a call is unobservable, by this call and all regular calls that
      follow, exactly when the call revives no session. */
  lemma CleanupShowsAtRevivals(t: State, call: Call)
    requires !call.op.Cleanup?
    ensures (forall rest | Monotone([call] + rest) && Regular(Perform(t, call).0, WithoutCleanup(rest)) ::
               Answers(Cleaned(t, call.now), [call] + rest) == Answers(t, [call] + rest))
            <==> !Revives(t, call)
  {
    var cleaned := Cleaned(t, call.now);
    hide Perform, Cleaned, Revives, Regular, Answers, WithoutCleanup, Lookup;
    if Revives(t, call) {
      var rest := RevivalShows(t, call);
      LookupRegular(Perform(t, call).0, rest, call.now);
      assert Monotone([call] + rest);
    } else {
      HiddenSelf(t, call.now);
      CleanupHidden(t, t, call.now);
      CleanedRequests(t, call.now);
      hide Hidden;
      forall rest | Monotone([call] + rest) && Regular(Perform(t, call).0, WithoutCleanup(rest))
        ensures Answers(cleaned, [call] + rest) == Answers(t, [call] + rest)
      {
        AnswersAfter(cleaned, t, call, rest);
      }
    }
  }

  lemma CleanedRequests(t: State, now: int)
    ensures Cleaned(t, now).requests == t.requests
  {}

  lemma MonotoneTail(call: Call, rest: seq<Call>)
    requires Monotone([call] + rest)
    ensures Monotone(rest) && (rest != [] ==> call.now <= rest[0].now)
  {
    var calls := [call] + rest;
    assert forall i | 0 <= i < |rest| :: calls[i + 1] == rest[i];
    assert calls[0] == call;
  }

  lemma AnswersAfter(s: State, t: State, call: Call, rest: seq<Call>)
    requires Hidden(s, t, call.now) && s.requests == t.requests && !call.op.Cleanup? && !Revives(t, call)
    requires Monotone([call] + rest) && Regular(Perform(t, call).0, WithoutCleanup(rest))
    ensures Answers(s, [call] + rest) == Answers(t, [call] + rest)
  {
    MonotoneTail(call, rest);
    hide *;
    var s', t' := Perform(s, call).0, Perform(t, call).0;
    PerformHidden(s, t, call, call.now);
    AlikeStep(s, t, call);
    HiddenSelf(t', call.now);
    RunHidden(s', t', rest, call.now);
    RunHidden(t', t', rest, call.now);
    AnswersStep(s, call, rest);
    AnswersStep(t, call, rest);
  }

  lemma ShowsAfter(s: State, make: Call, clean: Call, touch: Call, rest: seq<Call>)
    requires !make.op.Cleanup? && clean.op.Cleanup? && !touch.op.Cleanup? && WithoutCleanup(rest) == rest
    requires var made := Perform(s, make).0;
             Answers(Perform(made, clean).0, [touch] + rest) != Answers(made, [touch] + rest)
    ensures var calls := [make] + ([clean] + ([touch] + rest));
            Answers(s, calls) != Answers(s, WithoutCleanup(calls))
  {
    hide *;
    var made := Perform(s, make).0;
    WithoutStep(make, [clean] + ([touch] + rest));
    WithoutStep(clean, [touch] + rest);
    WithoutStep(touch, rest);
    AnswersStep(s, make, [clean] + ([touch] + rest));
    AnswersStep(made, clean, [touch] + rest);
    AnswersStep(s, make, [touch] + rest);
    var x, a, b := Perform(s, make).1, Answers(Perform(made, clean).0, [touch] + rest), Answers(made, [touch] + rest);
    assert ([x] + a)[1..] == a && ([x] + b)[1..] == b;
  }

  lemma MadeRevives(timeout: int, login: Login)
    requires timeout > 0
    ensures var made := Perform(Start(timeout), Call(Create(Session("s", login, 0, timeout, 0)), 0)).0;
            var t := timeout + 1;
            Revives(made, Call(Update("s", t, t), t)) && Perform(made, Call(Cleanup, t)).0 == Cleaned(made, t)
  {}

  /** UpdateSessionActivity revives an expired session unless a cleanup came first. */
  lemma CleanupVisible(timeout: int, login: Login) returns (calls: seq<Call>)
    requires timeout > 0
    ensures Monotone(calls)
    ensures Answers(Start(timeout), calls) != Answers(Start(timeout), WithoutCleanup(calls))
  {
    hide Perform, Answers, WithoutCleanup, Revives, Regular, Lookup, Cleaned;
    var empty, t := Start(timeout), timeout + 1;
    var make := Call(Create(Session("s", login, 0, timeout, 0)), 0);
    var clean, touch := Call(Cleanup, t), Call(Update("s", t, t), t);
    var made := Perform(empty, make).0;
    MadeRevives(timeout, login);
    var rest := RevivalShows(made, touch);
    LookupRegular(made, rest, t);
    ShowsAfter(empty, make, clean, touch, rest);
    calls := [make] + ([clean] + ([touch] + rest));
  }

  /** A GetSession whose check passes at the last moment revives the session: it is not counted before the
      second section and is counted again afterwards. */
  lemma GetRevives(timeout: int, login: Login)
    requires timeout > 1
    ensures var made := Perform(Start(timeout), Call(Create(Session("s", login, 0, timeout, 0)), 0)).0;
            var found := Perform(made, Call(Find(0, "s"), timeout)).0;
            var (live, checked) := Perform(found, Call(Test(0), timeout));
            var touch := Call(Touch(0, timeout + 1, timeout + 1), timeout + 1);
            && checked == Done && Revives(live, touch)
            && Perform(live, Call(CountSessions, timeout + 1)).1 == Number(0)
            && Perform(Perform(live, touch).0, Call(CountSessions, timeout + 2)).1 == Number(1)
  {
    var x := Session("s", login, 0, timeout, 0);
    MadeLive(timeout, x);
    LiveTouched(timeout, x);
    OneSession(OneLive(timeout, x), timeout + 1);
    OneSession(OneOver(timeout, Touched(x, timeout + 1, timeout + 1 + timeout)), timeout + 2);
    hide Perform, Rows, ActiveIds;
    CountAnswer(OneLive(timeout, x), timeout + 1);
    CountAnswer(OneOver(timeout, Touched(x, timeout + 1, timeout + 1 + timeout)), timeout + 2);
  }

  function OneLive(timeout: int, x: Session): State {
    Store([x], map[x.id := 0], timeout, map[0 := Live(0)])
  }

  function OneOver(timeout: int, x: Session): State {
    Store([x], map[x.id := 0], timeout, map[])
  }

  lemma CountAnswer(s: State, now: int)
    ensures Perform(s, Call(CountSessions, now)).1 == Number(|ActiveIds(Rows(s), now)|)
  {}

  lemma MadeLive(timeout: int, x: Session)
    requires timeout > 0 && x.id == "s" && x.expiresAt == timeout
    ensures var made := Perform(Start(timeout), Call(Create(x), 0)).0;
            var found := Perform(made, Call(Find(0, "s"), timeout)).0;
            Perform(found, Call(Test(0), timeout)) == (OneLive(timeout, x), Done)
  {
    var made := Perform(Start(timeout), Call(Create(x), 0)).0;
    assert made == Store([x], map["s" := 0], timeout, map[]);
    var found := Perform(made, Call(Find(0, "s"), timeout)).0;
    assert found == Store([x], map["s" := 0], timeout, map[0 := Found(0)]);
    assert map[0 := Found(0)][0 := Live(0)] == map[0 := Live(0)];
  }

  lemma LiveTouched(timeout: int, x: Session)
    requires timeout > 0 && x.expiresAt == timeout
    ensures var touch := Call(Touch(0, timeout + 1, timeout + 1), timeout + 1);
            && Revives(OneLive(timeout, x), touch)
            && Perform(OneLive(timeout, x), touch).0 == OneOver(timeout, Touched(x, timeout + 1, timeout + 1 + timeout))
  {
    assert OneLive(timeout, x).requests - {0} == map[];
    assert [x][0 := Touched(x, timeout + 1, timeout + 1 + timeout)] == [Touched(x, timeout + 1, timeout + 1 + timeout)];
  }

  lemma OneSession(s: State, now: int)
    requires |s.objects| == 1 && s.table == map[s.objects[0].id := 0]
    ensures |ActiveIds(Rows(s), now)| == if now < s.objects[0].expiresAt then 1 else 0
  {
    var id := s.objects[0].id;
    assert ActiveIds(Rows(s), now) == if now < s.objects[0].expiresAt then {id} else {};
  }

  /** A second GetSession finds the expired session, which is then destroyed: the first one, past its check,
      prolongs the object under the second one's eyes. No call revives, but a cleanup at the start shows. */
  lemma StrayShows(timeout: int, x: Session)
    requires timeout > 0 && x.id == "s" && x.expiresAt == timeout
    ensures var t, now := OneLive(timeout, x), timeout + 1;
            var find, destroy, touch, test := Call(Find(1, "s"), now), Call(Destroy("s"), now),
                                              Call(Touch(0, now, now), now), Call(Test(1), now);
            var t1 := Perform(t, find).0;
            var t2 := Perform(t1, destroy).0;
            var s2 := Perform(Perform(Cleaned(t, now), find).0, destroy).0;
            && !Revives(t, find) && !Revives(t1, destroy) && !Revives(t2, touch) && Strays(t2, touch)
            && Perform(Perform(t2, touch).0, test).1 == Done
            && Perform(Perform(s2, touch).0, test).1 == Invalid
  {
    var now := timeout + 1;
    TwoRequests(timeout, x, true);
    TwoRequests(timeout, x, false);
    TouchUnstored(timeout, x, Found(0));
    TouchUnstored(timeout, x, Missing);
    hide Perform, Cleaned;
  }

  /** Request 0 past its check and request 1 behind its first section, nothing stored. */
  function Unstored(timeout: int, x: Session, second: Request): State
    requires second in {Found(0), Missing}
  {
    Store([x], map[], timeout, map[0 := Live(0), 1 := second])
  }

  lemma TwoRequests(timeout: int, x: Session, cleaned: bool)
    requires timeout > 0 && x.id == "s" && x.expiresAt == timeout
    ensures var now := timeout + 1;
            var t := if cleaned then Cleaned(OneLive(timeout, x), now) else OneLive(timeout, x);
            Perform(Perform(t, Call(Find(1, "s"), now)).0, Call(Destroy("s"), now)).0
            == Unstored(timeout, x, if cleaned then Missing else Found(0))
  {
    assert map["s" := 0] - {"s"} == map[];
    var nothing: map<string, nat> := map[];
    assert nothing - {"s"} == nothing;
    assert map[0 := Live(0)][1 := Found(0)] == map[0 := Live(0), 1 := Found(0)];
    assert map[0 := Live(0)][1 := Missing] == map[0 := Live(0), 1 := Missing];
    assert Cleaned(OneLive(timeout, x), timeout + 1).table == map[];
  }

  lemma TouchUnstored(timeout: int, x: Session, second: Request)
    requires timeout > 0 && x.expiresAt == timeout && second in {Found(0), Missing}
    ensures var u, now := Unstored(timeout, x, second), timeout + 1;
            var touch := Call(Touch(0, now, now), now);
            && !Revives(u, touch) && (second == Found(0) ==> Strays(u, touch))
            && Perform(Perform(u, touch).0, Call(Test(1), now)).1 == if second == Found(0) then Done else Invalid
  {
    var u := Unstored(timeout, x, second);
    assert 1 in u.requests;
    assert u.requests[1] == second;
  }

  // ---- Expiry is final ----

  /** The session stored under an ID, if any, has expired, and no GetSession of it is past its check. */
  ghost predicate Dead(s: State, id: string, now: int) {
    id in s.table ==> IsExpired(s, s.table[id], now) && forall g | g in s.requests :: s.requests[g] != Live(s.table[id])
  }

  /** The state after a run. */
  function After(s: State, calls: seq<Call>): State {
    if calls == [] then s else Perform(After(s, calls[..|calls| - 1]), calls[|calls| - 1]).0
  }

  /** Operations that give a session a new expiry without looking at the old one. */
  predicate Renews(op: Op, id: string) {
    || (op.Create? && op.session.id == id)
    || ((op.Update? || op.Extend?) && op.id == id)
  }

  lemma TestDead(s: State, g: nat, id: string, now: int)
    requires Dead(s, id, now)
    ensures Dead(Testing(s, g, now).0, id, now)
  {}

  lemma TouchDead(s: State, g: nat, activity: int, later: int, id: string, now: int)
    requires Dead(s, id, now)
    ensures Dead(Touching(s, g, activity, later).0, id, now)
  {}

  lemma RemovalDead(s: State, call: Call, id: string)
    requires Dead(s, id, call.now)
    requires call.op.Remove? || call.op.Destroy? || call.op.DestroyUser? || call.op.Cleanup?
    ensures Dead(Perform(s, call).0, id, call.now)
  {}

  lemma WriteDead(s: State, call: Call, id: string)
    requires Dead(s, id, call.now) && !Renews(call.op, id) && (call.op.Create? || call.op.Update? || call.op.Extend?)
    ensures Dead(Perform(s, call).0, id, call.now)
  {}

  lemma OtherDead(s: State, call: Call, id: string)
    requires Dead(s, id, call.now)
    requires call.op.Find? || call.op.ListUser? || call.op.CountSessions? || call.op.CountUsers? || call.op.SetTimeout?
    ensures Dead(Perform(s, call).0, id, call.now)
  {
    hide ActiveIds, UserIds, ActiveUsers, Rows;
  }

  lemma StaysDead(s: State, call: Call, id: string)
    requires Dead(s, id, call.now) && !Renews(call.op, id)
    ensures Dead(Perform(s, call).0, id, call.now)
  {
    hide Dead, Renews, Testing, Touching, Removing, Updating, Extending, Finding;
    match call.op
    case Test(g) => TestDead(s, g, id, call.now);
    case Touch(g, activity, later) => TouchDead(s, g, activity, later, id, call.now);
    case Remove(_) => RemovalDead(s, call, id);
    case Destroy(_) => RemovalDead(s, call, id);
    case DestroyUser(_) => RemovalDead(s, call, id);
    case Cleanup => RemovalDead(s, call, id);
    case Create(_) => WriteDead(s, call, id);
    case Update(_, _, _) => WriteDead(s, call, id);
    case Extend(_, _) => WriteDead(s, call, id);
    case _ => OtherDead(s, call, id);
  }

  /** A session that has expired, or was destroyed, is never active again and no new GetSession finds it valid,
      unless its own ID is created anew or prolonged unchecked, or a GetSession of it was past its check. */
  lemma {:induction false} ExpiryIsFinal(s: State, calls: seq<Call>, id: string, before: int, now: int)
    requires Dead(s, id, before) && Monotone(calls)
    requires forall i | 0 <= i < |calls| :: before <= calls[i].now <= now && !Renews(calls[i].op, id)
    requires before <= now
    ensures Dead(After(s, calls), id, now)
    ensures !IsActive(Rows(After(s, calls)), id, now)
    ensures forall g, activity, later :: GetAlone(After(s, calls), g, id, now, activity, later).1 == Invalid
  {
    if calls == [] {
    } else {
      var last := calls[|calls| - 1];
      ExpiryIsFinal(s, calls[..|calls| - 1], id, before, last.now);
      hide Perform, GetAlone;
      StaysDead(After(s, calls[..|calls| - 1]), last, id);
    }
    DeadAnswers(After(s, calls), id, now);
  }

  lemma DeadAnswers(s: State, id: string, now: int)
    requires Dead(s, id, now)
    ensures !IsActive(Rows(s), id, now)
    ensures forall g, activity, later :: GetAlone(s, g, id, now, activity, later).1 == Invalid
  {}
}
