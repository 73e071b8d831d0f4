/** The session registry: `/submit` registers or replaces a session,
    `/trackActivity` records a heartbeat, `/users` and `/users/:userId` read
    the registry behind the header check. */
module Registry {
  import opened Presence
  import opened Auth
  import Flags

  /** The JSON body of `/submit`. */
  datatype SubmitBody = SubmitBody(
    userId: Option<string>,
    username: Option<string>,
    displayName: Option<string>,
    jobId: Option<string>,
    executor: Option<string>)

  /** Every required field of a `/submit` body is present and non-empty. */
  predicate Complete(b: SubmitBody) {
    Given(b.userId) && Given(b.username) && Given(b.displayName) && Given(b.jobId)
  }

  /** `/submit` at time `now`: stores the session record, then seeds the kick
      flag of that id with its own value, which turns an absent entry into
      false. */
  function Submit(s: State, now: int, b: SubmitBody): (r: Step)
    ensures r.status == Ok <==> Complete(b)
    ensures r.status != Ok ==> r == Step(s, BadRequest)
    ensures r.status == Ok ==>
      var u := b.userId.value;
      && u in r.state.users
      && r.state.users[u] == User(b.username.value, b.displayName.value, b.jobId.value, b.executor, now)
      && r.state.users - {u} == s.users - {u}
      && u in r.state.flags.kick
      && (r.state.flags.kick[u] <==> Active(s, Kick, u))
      && r.state.flags.kick - {u} == s.flags.kick - {u}
      && (forall k :: k != Kick ==> r.state.flags.Get(k) == s.flags.Get(k))
      && r.state.timers == s.timers
      && r.state.update == s.update
    ensures forall k, v :: Active(r.state, k, v) ==> Active(s, k, v)
  {
    if !Complete(b) then Step(s, BadRequest)
    else
      var u := b.userId.value;
      var record := User(b.username.value, b.displayName.value, b.jobId.value, b.executor, now);
      var kick := s.flags.kick;
      // `kick[userId] || false`: an absent entry reads as undefined, which is falsy
      var seeded := u in kick && kick[u];
      Step(s.(users := s.users[u := record], flags := s.flags.Set(Kick, kick[u := seeded])), Ok)
  }

  /** `/trackActivity` at time `now`: refreshes the heartbeat of a known id. */
  function TrackActivity(s: State, now: int, userId: Option<string>): (r: Step)
    ensures r.status == Ok <==> Given(userId) && userId.value in s.users
    ensures r.status != Ok ==> r == Step(s, BadRequest)
    ensures r.status == Ok ==>
      var u := userId.value;
      && u in r.state.users
      && r.state.users[u].lastSeen == now
      && r.state.users[u].username == s.users[u].username
      && r.state.users[u].displayName == s.users[u].displayName
      && r.state.users[u].jobId == s.users[u].jobId
      && r.state.users[u].executor == s.users[u].executor
      && r.state.users - {u} == s.users - {u}
      && r.state.flags == s.flags
      && r.state.timers == s.timers
      && r.state.update == s.update
  {
    if !Given(userId) || userId.value !in s.users then Step(s, BadRequest)
    else
      var u := userId.value;
      Step(s.(users := s.users[u := s.users[u].(lastSeen := now)]), Ok)
  }

  /** The answer of a read endpoint: a value, or the refusal status. */
  datatype Answer<T> = Found(value: T) | Refused(status: Status)

  /** `GET /users/:userId`: the header check comes first, then the lookup. */
  function GetUser(s: State, c: Config, h: Headers, userId: string): (r: Answer<User>)
    ensures !IsAuthorized(h, c.key, UserSuffix, Readers(c)) ==> r == Refused(Forbidden)
    ensures r.Found? <==> IsAuthorized(h, c.key, UserSuffix, Readers(c)) && userId in s.users
    ensures r.Found? ==> r.value == s.users[userId]
    ensures IsAuthorized(h, c.key, UserSuffix, Readers(c)) && userId !in s.users ==> r == Refused(NotFound)
  {
    if !IsAuthorized(h, c.key, UserSuffix, Readers(c)) then Refused(Forbidden)
    else if userId !in s.users then Refused(NotFound)
    else Found(s.users[userId])
  }

  /** `GET /users`: the whole registry, behind the same header check. */
  function ListUsers(s: State, c: Config, h: Headers): (r: Answer<map<string, User>>)
    ensures r.Found? <==> IsAuthorized(h, c.key, UserSuffix, Readers(c))
    ensures r.Found? ==> r.value == s.users
    ensures r.Refused? ==> r.status == Forbidden
  {
    if !IsAuthorized(h, c.key, UserSuffix, Readers(c)) then Refused(Forbidden)
    else Found(s.users)
  }

  /** A lookup right after a successful `/submit` returns exactly the
      submitted fields, stamped with the submission time. */
  lemma SubmitThenGet(s: State, now: int, b: SubmitBody, c: Config, h: Headers)
    requires Complete(b)
    requires IsAuthorized(h, c.key, UserSuffix, Readers(c))
    ensures GetUser(Submit(s, now, b).state, c, h, b.userId.value)
            == Found(User(b.username.value, b.displayName.value, b.jobId.value, b.executor, now))
  {
  }

  /** After a successful `/submit` the kick report lists the id, as false
      unless its kick flag was already raised. */
  lemma SubmitThenCheck(s: State, now: int, b: SubmitBody)
    requires Complete(b)
    ensures var report := Flags.CheckFlags(Submit(s, now, b).state, Kick);
            && b.userId.value in report
            && (report[b.userId.value] <==> Active(s, Kick, b.userId.value))
  {
  }

  /** The two read endpoints agree: when the listing is granted, a lookup with
      the same headers returns that listing's record, or 404 for an id it
      lacks. */
  lemma ListAgreesWithGet(s: State, c: Config, h: Headers, u: string)
    requires ListUsers(s, c, h).Found?
    ensures var m := ListUsers(s, c, h).value;
            && (u in m ==> GetUser(s, c, h, u) == Found(m[u]))
            && (u !in m ==> GetUser(s, c, h, u) == Refused(NotFound))
  {
  }

  /** A heartbeat is visible to the next lookup and keeps the other fields. */
  lemma TrackThenGet(s: State, now: int, u: string, c: Config, h: Headers)
    requires u != "" && u in s.users
    requires IsAuthorized(h, c.key, UserSuffix, Readers(c))
    ensures GetUser(TrackActivity(s, now, Some(u)).state, c, h, u)
            == Found(s.users[u].(lastSeen := now))
  {
  }
}
