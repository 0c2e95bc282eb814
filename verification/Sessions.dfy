/** The session manager of src/server/session.go. Times and durations are in nanoseconds; every reading of
    the clock is a parameter. A *Session is the position of its object in a sequence that only grows: requests
    keep such pointers between the locked sections of GetSession. */
module Sessions {
  import opened Wrappers

  /** What the caller of CreateSession says about the user and the client. */
  datatype Login = Login(userId: string, username: string, role: string, ipAddress: string, userAgent: string)

  datatype Session = Session(id: string, login: Login, createdAt: int, expiresAt: int, lastActivity: int)

  /** The stored sessions by ID. */
  type Sessions = map<string, Session>

  const MINUTE := 60_000_000_000

  predicate IsActive(m: Sessions, id: string, now: int) {
    id in m && now < m[id].expiresAt
  }

  function ActiveIds(m: Sessions, now: int): set<string> {
    set id | id in m && IsActive(m, id, now)
  }

  function UserIds(m: Sessions, userId: string, now: int): set<string> {
    set id | id in m && m[id].login.userId == userId && IsActive(m, id, now)
  }

  function ActiveUsers(m: Sessions, now: int): set<string> {
    set id | id in m && IsActive(m, id, now) :: m[id].login.userId
  }

  function Touched(s: Session, activity: int, expiry: int): Session {
    s.(lastActivity := activity, expiresAt := expiry)
  }

  // ---- Objects, the table, and requests inside GetSession ----

  /** Where a GetSession stands: its ID was not found; it found an object; the object was not expired; it was,
      and is to be removed; it has returned. */
  datatype Request = Missing | Found(ref: nat) | Live(ref: nat) | Expired(ref: nat) | Over

  datatype Store = Store(objects: seq<Session>, table: map<string, nat>, timeout: int, requests: map<nat, Request>)

  predicate HasObject(r: Request, n: nat) {
    r.Found? || r.Live? || r.Expired? ==> r.ref < n
  }

  /** Pointers lead to objects, the table stores each under its own ID, and requests that are over are forgotten. */
  predicate Sound(s: Store) {
    && (forall id | id in s.table :: s.table[id] < |s.objects| && s.objects[s.table[id]].id == id)
    && (forall g | g in s.requests :: s.requests[g] != Over && HasObject(s.requests[g], |s.objects|))
  }

  type State = s: Store | Sound(s) witness Store([], map[], 0, map[])

  function Rows(s: State): Sessions {
    map id | id in s.table :: s.objects[s.table[id]]
  }

  function RequestOf(s: State, g: nat): (r: Request)
    ensures HasObject(r, |s.objects|)
  {
    if g in s.requests then s.requests[g] else Over
  }

  function Moved(s: State, g: nat, r: Request): State
    requires HasObject(r, |s.objects|)
  {
    s.(requests := if r == Over then s.requests - {g} else s.requests[g := r])
  }

  function Written(s: State, o: nat, x: Session): State
    requires o < |s.objects| && x.id == s.objects[o].id
  {
    s.(objects := s.objects[o := x])
  }

  function Added(s: State, x: Session): State {
    s.(objects := s.objects + [x], table := s.table[x.id := |s.objects|])
  }

  function Removed(s: State, id: string): State {
    s.(table := s.table - {id})
  }

  function WithoutUser(s: State, userId: string): State {
    s.(table := map id | id in s.table && s.objects[s.table[id]].login.userId != userId :: s.table[id])
  }

  function Cleaned(s: State, now: int): State {
    s.(table := map id | id in s.table && now <= s.objects[s.table[id]].expiresAt :: s.table[id])
  }

  // ---- One call each ----

  /** GetSession of request g is Find, then Test, then Touch or Remove. */
  datatype Op =
    | Create(session: Session)
    | Find(g: nat, id: string)
    | Test(g: nat)
    | Touch(g: nat, activity: int, later: int)
    | Remove(g: nat)
    | Destroy(id: string)
    | DestroyUser(userId: string)
    | ListUser(userId: string)
    | CountSessions
    | CountUsers
    | SetTimeout(timeout: int)
    | Update(id: string, activity: int, later: int)
    | Extend(id: string, expiry: int)
    | Cleanup

  datatype Call = Call(op: Op, now: int)

  datatype Answer = Granted(session: Session) | Invalid | Ids(ids: set<string>) | Number(n: nat) | Done

  /** The first locked section. */
  function Finding(s: State, g: nat, id: string): State {
    Moved(s, g, if id in s.table then Found(s.table[id]) else Missing)
  }

  /** The comparison with the clock, under no lock. */
  function Testing(s: State, g: nat, now: int): (State, Answer) {
    match RequestOf(s, g)
    case Missing => (Moved(s, g, Over), Invalid)
    case Found(o) => if now > s.objects[o].expiresAt then (Moved(s, g, Expired(o)), Invalid) else (Moved(s, g, Live(o)), Done)
    case _ => (s, Done)
  }

  /** The second locked section: the object is written whether or not the table still holds it. */
  function Touching(s: State, g: nat, activity: int, later: int): (State, Answer) {
    match RequestOf(s, g)
    case Live(o) =>
      var x := Touched(s.objects[o], activity, later + s.timeout);
      (Moved(Written(s, o, x), g, Over), Granted(x))
    case _ => (s, Done)
  }

  /** The removal of an expired session, by its ID. */
  function Removing(s: State, g: nat): State {
    match RequestOf(s, g)
    case Expired(o) => Moved(Removed(s, s.objects[o].id), g, Over)
    case _ => s
  }

  function Updating(s: State, id: string, activity: int, later: int): State {
    if id in s.table then
      Written(s, s.table[id], Touched(s.objects[s.table[id]], activity, later + s.timeout))
    else s
  }

  function Extending(s: State, id: string, expiry: int): (State, Answer) {
    if id in s.table then (Written(s, s.table[id], s.objects[s.table[id]].(expiresAt := expiry)), Done) else (s, Invalid)
  }

  function Perform(s: State, call: Call): (State, Answer) {
    match call.op
    case Create(x) => (Added(s, x), Done)
    case Find(g, id) => (Finding(s, g, id), Done)
    case Test(g) => Testing(s, g, call.now)
    case Touch(g, activity, later) => Touching(s, g, activity, later)
    case Remove(g) => (Removing(s, g), Done)
    case Destroy(id) => (Removed(s, id), Done)
    case DestroyUser(u) => (WithoutUser(s, u), Done)
    case ListUser(u) => (s, Ids(UserIds(Rows(s), u, call.now)))
    case CountSessions => (s, Number(|ActiveIds(Rows(s), call.now)|))
    case CountUsers => (s, Number(|ActiveUsers(Rows(s), call.now)|))
    case SetTimeout(t) => (s.(timeout := t), Done)
    case Update(id, activity, later) => (Updating(s, id, activity, later), Done)
    case Extend(id, expiry) => Extending(s, id, expiry)
    case Cleanup => (Cleaned(s, call.now), Done)
  }

  /** GetSession with nothing in between. */
  function GetAlone(s: State, g: nat, id: string, now: int, activity: int, later: int): (State, Answer) {
    var (tested, answer) := Testing(Finding(s, g, id), g, now);
    if RequestOf(tested, g).Live? then Touching(tested, g, activity, later) else (Removing(tested, g), answer)
  }

  /** What the calls that only read answer. */
  lemma QueryAnswers(s: State, userId: string, now: int)
    ensures Perform(s, Call(ListUser(userId), now)) == (s, Ids(UserIds(Rows(s), userId, now)))
    ensures Perform(s, Call(CountSessions, now)) == (s, Number(|ActiveIds(Rows(s), now)|))
    ensures Perform(s, Call(CountUsers, now)) == (s, Number(|ActiveUsers(Rows(s), now)|))
  {}

  lemma RemovalAnswers(s: State, userId: string, now: int)
    ensures Perform(s, Call(DestroyUser(userId), now)) == (WithoutUser(s, userId), Done)
    ensures Perform(s, Call(Cleanup, now)) == (Cleaned(s, now), Done)
  {}

  lemma MissingAlone(s: State, g: nat, id: string, now: int, activity: int, later: int)
    requires s.requests == map[] && id !in s.table
    ensures GetAlone(s, g, id, now, activity, later) == (s, Invalid)
  {
    assert s.requests[g := Missing] - {g} == map[];
  }

  lemma ExpiredAlone(s: State, g: nat, id: string, now: int, activity: int, later: int)
    requires s.requests == map[] && id in s.table && now > s.objects[s.table[id]].expiresAt
    ensures GetAlone(s, g, id, now, activity, later) == (Removed(s, id), Invalid)
  {
    assert s.requests[g := Found(s.table[id])][g := Expired(s.table[id])] - {g} == map[];
  }

  lemma LiveAlone(s: State, g: nat, id: string, now: int, activity: int, later: int)
    requires s.requests == map[] && id in s.table && now <= s.objects[s.table[id]].expiresAt
    ensures var o := s.table[id];
            var x := Touched(s.objects[o], activity, later + s.timeout);
            GetAlone(s, g, id, now, activity, later) == (Written(s, o, x), Granted(x))
  {
    assert s.requests[g := Found(s.table[id])][g := Live(s.table[id])] - {g} == map[];
  }

  lemma UserGone(s: State, userId: string, table: map<string, nat>)
    requires forall id | id in table :: id in s.table && table[id] == s.table[id]
    requires forall id | id in s.table :: id in table <==> s.objects[s.table[id]].login.userId != userId
    ensures WithoutUser(s, userId) == s.(table := table)
  {
    assert table == map id | id in s.table && s.objects[s.table[id]].login.userId != userId :: s.table[id];
  }

  lemma ExpiredGone(s: State, now: int, table: map<string, nat>)
    requires forall id | id in table :: id in s.table && table[id] == s.table[id]
    requires forall id | id in s.table :: id in table <==> now <= s.objects[s.table[id]].expiresAt
    ensures Cleaned(s, now) == s.(table := table)
  {
    assert table == map id | id in s.table && now <= s.objects[s.table[id]].expiresAt :: s.table[id];
  }

  /** A list names each member of a set once. */
  ghost predicate Lists(r: seq<string>, ids: set<string>) {
    && (forall i, j | 0 <= i < j < |r| :: r[i] != r[j])
    && (forall id :: id in r <==> id in ids)
  }

  lemma NoneListed()
    ensures Lists([], {})
  {}

  lemma ListsOneMore(r: seq<string>, ids: set<string>, id: string)
    requires Lists(r, ids) && id !in ids
    ensures Lists(r + [id], ids + {id})
  {}

  // ---- The manager ----

  datatype SessionError = NoRandomness | SessionNotFound | SessionExpired

  class SessionManager {
    /** What the pointers point to. */
    var objects: seq<Session>
    var sessions: map<string, nat>
    var timeout: int

    ghost predicate Valid()
      reads this
    {
      Sound(Store(objects, sessions, timeout, map[]))
    }

    /** The manager with no GetSession under way. */
    ghost function Here(): State
      requires Valid()
      reads this
    {
      Store(objects, sessions, timeout, map[])
    }

    ghost function Stored(): Sessions
      requires Valid()
      reads this
    {
      Rows(Here())
    }

    /** Zero minutes means 24 hours. */
    constructor (timeoutMinutes: int)
      ensures Valid() && Stored() == map[]
      ensures timeout == (if timeoutMinutes == 0 then 1440 else timeoutMinutes) * 60_000_000_000
    {
      objects, sessions := [], map[];
      timeout := (if timeoutMinutes == 0 then 1440 else timeoutMinutes) * MINUTE;
    }

    /** `id` is the random ID, None when the random source fails. */
    method CreateSession(id: Option<string>, login: Login, now: int) returns (r: Result<Session, SessionError>)
      requires Valid()
      modifies this`objects, this`sessions
      ensures Valid()
      ensures id.None? ==> r == Failure(NoRandomness) && Here() == old(Here())
      ensures id.Some? ==>
                && r == Success(Session(id.value, login, now, now + timeout, now))
                && Stored() == old(Stored())[id.value := r.value]
                && forall later :: Perform(old(Here()), Call(Create(r.value), later)) == (Here(), Done)
    {
      if id.None? {
        return Failure(NoRandomness);
      }
      var session := Session(id.value, login, now, now + timeout, now);
      objects, sessions := objects + [session], sessions[id.value := |objects|];
      return Success(session);
    }

    /** Run alone; it reads the clock to check, for the last activity, and for the new expiry. */
    method GetSession(id: string, now: int, activity: int, later: int) returns (r: Result<Session, SessionError>)
      requires Valid()
      modifies this`objects, this`sessions
      ensures Valid()
      ensures id !in old(Stored()) ==> r == Failure(SessionNotFound) && Stored() == old(Stored())
      ensures id in old(Stored()) && now > old(Stored())[id].expiresAt ==>
                r == Failure(SessionExpired) && Stored() == old(Stored()) - {id}
      ensures id in old(Stored()) && now <= old(Stored())[id].expiresAt ==>
                r == Success(Touched(old(Stored())[id], activity, later + timeout)) && Stored() == old(Stored())[id := r.value]
      ensures forall g :: GetAlone(old(Here()), g, id, now, activity, later)
                          == (Here(), if r.Success? then Granted(r.value) else Invalid)
    {
      hide GetAlone, Perform;
      ghost var before := Here();
      if id !in sessions {
        forall g {
          MissingAlone(before, g, id, now, activity, later);
        }
        return Failure(SessionNotFound);
      }
      var session := sessions[id];
      if now > objects[session].expiresAt {
        DestroySession(id);
        forall g {
          ExpiredAlone(before, g, id, now, activity, later);
        }
        return Failure(SessionExpired);
      }
      objects := objects[session := objects[session].(lastActivity := activity)];
      objects := objects[session := objects[session].(expiresAt := later + timeout)];
      assert objects == before.objects[session := Touched(before.objects[session], activity, later + timeout)];
      forall g {
        LiveAlone(before, g, id, now, activity, later);
      }
      return Success(objects[session]);
    }

    method DestroySession(id: string)
      requires Valid()
      modifies this`sessions
      ensures Valid() && Stored() == old(Stored()) - {id}
      ensures sessions == old(sessions) - {id}
      ensures forall now :: Perform(old(Here()), Call(Destroy(id), now)) == (Here(), Done)
    {
      sessions := sessions - {id};
    }

    method DestroyUserSessions(userId: string)
      requires Valid()
      modifies this`sessions
      ensures Valid() && forall now :: Perform(old(Here()), Call(DestroyUser(userId), now)) == (Here(), Done)
    {
      hide Perform;
      forall now {
        RemovalAnswers(Here(), userId, now);
      }
      ghost var start, before := Here(), sessions;
      hide WithoutUser;
      var ids := sessions.Keys;
      while ids != {}
        invariant ids <= before.Keys && ids <= sessions.Keys
        invariant forall id | id in sessions :: id in before && sessions[id] == before[id]
        invariant forall id | id in before && id !in ids :: id in sessions <==> objects[before[id]].login.userId != userId
        decreases ids
      {
        var id :| id in ids;
        if objects[sessions[id]].login.userId == userId {
          sessions := sessions - {id};
        }
        ids := ids - {id};
      }
      UserGone(start, userId, sessions);
    }

    method CleanupExpired(now: int)
      requires Valid()
      modifies this`sessions
      ensures Valid() && Perform(old(Here()), Call(Cleanup, now)) == (Here(), Done)
    {
      hide Perform;
      RemovalAnswers(Here(), "", now);
      ghost var start, before := Here(), sessions;
      hide Cleaned;
      var ids := sessions.Keys;
      while ids != {}
        invariant ids <= before.Keys && ids <= sessions.Keys
        invariant forall id | id in sessions :: id in before && sessions[id] == before[id]
        invariant forall id | id in before && id !in ids :: id in sessions <==> now <= objects[before[id]].expiresAt
        decreases ids
      {
        var id :| id in ids;
        if now > objects[sessions[id]].expiresAt {
          sessions := sessions - {id};
        }
        ids := ids - {id};
      }
      ExpiredGone(start, now, sessions);
    }

    /** The IDs of the sessions listed, each once, in the order the map was walked. */
    method GetUserSessions(userId: string, now: int) returns (r: seq<string>)
      requires Valid()
      ensures Lists(r, UserIds(Stored(), userId, now))
      ensures Perform(Here(), Call(ListUser(userId), now)) == (Here(), Ids(UserIds(Stored(), userId, now)))
    {
      hide Perform, Lists;
      QueryAnswers(Here(), userId, now);
      ghost var m := Stored();
      assert forall id :: id in m <==> id in sessions;
      assert forall id | id in m :: m[id] == objects[sessions[id]];
      hide Rows, Sound;
      r := [];
      var ids := sessions.Keys;
      ghost var seen: set<string> := {};
      assert Lists([], {}) by {
        NoneListed();
      }
      while ids != {}
        invariant ids <= sessions.Keys
        invariant Lists(r, seen)
        invariant forall id :: id in seen <==> id in UserIds(m, userId, now) && id !in ids
        decreases ids
      {
        var id :| id in ids;
        if objects[sessions[id]].login.userId == userId && now < objects[sessions[id]].expiresAt {
          ListsOneMore(r, seen, id);
          r := r + [id];
          seen := seen + {id};
        }
        ids := ids - {id};
      }
      assert seen == UserIds(m, userId, now);
    }

    method GetActiveSessions(now: int) returns (count: int)
      requires Valid()
      ensures count >= 0 && Perform(Here(), Call(CountSessions, now)) == (Here(), Number(count))
    {
      hide Perform;
      QueryAnswers(Here(), "", now);
      ghost var m := Stored();
      assert forall id :: id in m <==> id in sessions;
      assert forall id | id in m :: m[id] == objects[sessions[id]];
      hide Rows, Sound;
      count := 0;
      var ids := sessions.Keys;
      ghost var seen: set<string> := {};
      while ids != {}
        invariant ids <= sessions.Keys && count == |seen|
        invariant forall id :: id in seen <==> id in ActiveIds(m, now) && id !in ids
        decreases ids
      {
        var id :| id in ids;
        if now < objects[sessions[id]].expiresAt {
          count := count + 1;
          seen := seen + {id};
        }
        ids := ids - {id};
      }
      assert seen == ActiveIds(m, now);
    }

    method GetActiveUsers(now: int) returns (count: int)
      requires Valid()
      ensures count >= 0 && Perform(Here(), Call(CountUsers, now)) == (Here(), Number(count))
    {
      hide Perform;
      QueryAnswers(Here(), "", now);
      var users: set<string> := {};
      var ids := sessions.Keys;
      while ids != {}
        invariant ids <= sessions.Keys
        invariant users == set id | id in Stored() && id !in ids && IsActive(Stored(), id, now) :: Stored()[id].login.userId
        decreases ids
      {
        var id :| id in ids;
        if now < objects[sessions[id]].expiresAt {
          users := users + {objects[sessions[id]].login.userId};
        }
        ids := ids - {id};
      }
      assert users == ActiveUsers(Stored(), now);
      return |users|;
    }

    method UpdateSessionActivity(id: string, activity: int, later: int)
      requires Valid()
      modifies this`objects
      ensures Valid() && forall now :: Perform(old(Here()), Call(Update(id, activity, later), now)) == (Here(), Done)
    {
      if id in sessions {
        objects := objects[sessions[id] := Touched(objects[sessions[id]], activity, later + timeout)];
      }
    }

    /** The new expiry is `duration` after the clock's reading, expired or not. */
    method ExtendSession(id: string, duration: int, now: int) returns (r: Option<SessionError>)
      requires Valid()
      modifies this`objects
      ensures Valid() && r == if id in old(Stored()) then None else Some(SessionNotFound)
      ensures Perform(old(Here()), Call(Extend(id, now + duration), now)) == (Here(), if r.None? then Done else Invalid)
    {
      if id !in sessions {
        return Some(SessionNotFound);
      }
      objects := objects[sessions[id] := objects[sessions[id]].(expiresAt := now + duration)];
      return None;
    }

    method SetSessionTimeout(minutes: int)
      requires Valid()
      modifies this`timeout
      ensures timeout == minutes * 60_000_000_000
      ensures Valid() && forall now :: Perform(old(Here()), Call(SetTimeout(minutes * 60_000_000_000), now)) == (Here(), Done)
    {
      timeout := minutes * MINUTE;
    }
  }

  // ---- What a call does to the sessions as others see them ----

  /** A new session is active until its expiry and no longer, and is one of its user's and of no other's. */
  lemma CreatedActive(s: State, x: Session, user: string, now: int)
    ensures Rows(Added(s, x)) == Rows(s)[x.id := x]
    ensures x.id in ActiveIds(Rows(Added(s, x)), now) <==> now < x.expiresAt
    ensures x.id in UserIds(Rows(Added(s, x)), user, now) <==> user == x.login.userId && now < x.expiresAt
  {}

  /** ExtendSession makes a stored session active until exactly the new expiry and changes nothing else. */
  lemma ExtendedActive(s: State, id: string, expiry: int, now: int)
    requires id in s.table
    ensures var m, n := Rows(s), Rows(Extending(s, id, expiry).0);
            && id in m && n.Keys == m.Keys
            && n[id] == Session(m[id].id, m[id].login, m[id].createdAt, expiry, m[id].lastActivity)
            && (forall k | k in m && k != id :: n[k] == m[k])
            && (id in ActiveIds(n, now) <==> now < expiry)
  {}

  /** UpdateSessionActivity stores the activity and makes a stored session active for a full timeout. */
  lemma UpdatedActive(s: State, id: string, activity: int, later: int, now: int)
    requires id in s.table
    ensures var m, n := Rows(s), Rows(Updating(s, id, activity, later));
            && id in m && n.Keys == m.Keys
            && n[id] == Session(m[id].id, m[id].login, m[id].createdAt, later + s.timeout, activity)
            && (forall k | k in m && k != id :: n[k] == m[k])
            && (id in ActiveIds(n, now) <==> now < later + s.timeout)
  {}

  /** A valid lookup returns the stored session, with the activity and a full timeout, and stores it so. */
  lemma LookedUp(s: State, g: nat, id: string, now: int, activity: int, later: int)
    requires s.requests == map[] && id in s.table && now <= s.objects[s.table[id]].expiresAt
    ensures var (t, answer) := GetAlone(s, g, id, now, activity, later);
            var x := Rows(s)[id];
            && answer == Granted(Session(x.id, x.login, x.createdAt, later + s.timeout, activity))
            && Rows(t) == Rows(s)[id := answer.session]
  {
    LiveAlone(s, g, id, now, activity, later);
    hide GetAlone;
  }

  /** A user whose sessions were destroyed has none left, and other users keep theirs. */
  lemma UserDestroyed(s: State, userId: string, other: string, now: int)
    requires other != userId
    ensures UserIds(Rows(WithoutUser(s, userId)), userId, now) == {}
    ensures UserIds(Rows(WithoutUser(s, userId)), other, now) == UserIds(Rows(s), other, now)
  {}

  /** A destroyed session is found by no lookup, and the others stay as they were. */
  lemma SessionDestroyed(s: State, g: nat, id: string, now: int, activity: int, later: int)
    ensures GetAlone(Removed(s, id), g, id, now, activity, later).1 == Invalid
    ensures Rows(Removed(s, id)) == Rows(s) - {id}
  {}

  // ---- Counts ----

  ghost function TotalSessions(m: Sessions, users: set<string>, now: int): nat {
    if users == {} then 0 else
    var u :| u in users;
    |UserIds(m, u, now)| + TotalSessions(m, users - {u}, now)
  }

  ghost function SessionsOf(m: Sessions, users: set<string>, now: int): set<string> {
    set id | id in m && m[id].login.userId in users && IsActive(m, id, now)
  }

  lemma OneUserMore(m: Sessions, users: set<string>, u: string, now: int)
    requires u in users
    ensures |SessionsOf(m, users, now)| == |UserIds(m, u, now)| + |SessionsOf(m, users - {u}, now)|
  {
    var mine, others := UserIds(m, u, now), SessionsOf(m, users - {u}, now);
    assert SessionsOf(m, users, now) == mine + others && mine !! others;
  }

  lemma {:induction false} TotalIsUnion(m: Sessions, users: set<string>, now: int)
    ensures TotalSessions(m, users, now) == |SessionsOf(m, users, now)|
  {
    if users == {} {
      assert SessionsOf(m, users, now) == {};
    } else {
      hide SessionsOf, UserIds;
      var u :| u in users && TotalSessions(m, users, now) == |UserIds(m, u, now)| + TotalSessions(m, users - {u}, now);
      TotalIsUnion(m, users - {u}, now);
      OneUserMore(m, users, u, now);
    }
  }

  /** At one instant the active sessions are the users' listed sessions together, and the active
      users are those whose list is not empty. */
  lemma CountsAgree(m: Sessions, users: set<string>, now: int)
    requires forall id | id in m :: m[id].login.userId in users
    ensures |ActiveIds(m, now)| == TotalSessions(m, users, now)
    ensures ActiveUsers(m, now) == set u | u in users && UserIds(m, u, now) != {}
  {
    TotalIsUnion(m, users, now);
    assert SessionsOf(m, users, now) == ActiveIds(m, now);
    forall u | u in users
      ensures u in ActiveUsers(m, now) <==> UserIds(m, u, now) != {}
    {
      if UserIds(m, u, now) != {} {
        var id :| id in UserIds(m, u, now);
        assert m[id].login.userId in ActiveUsers(m, now);
      } else {
        assert forall id | id in m && IsActive(m, id, now) && m[id].login.userId == u :: id in UserIds(m, u, now);
      }
    }
  }
}
