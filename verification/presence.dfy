/** The state of the presence server: the session registry `users`, the four
    flag maps `statusUIs`, the queue of deferred flag deletes that `setTimeout`
    holds, and the `update` toggle. Time is an explicit millisecond count. */
module Presence {

  datatype Option<+T> = None | Some(value: T)

  /** A request field as the handlers test it with `!field`: an absent field
      and the empty string both count as missing. */
  predicate Given(f: Option<string>) {
    f.Some? && f.value != ""
  }

  /** Delay of the deferred delete scheduled by every flag trigger. */
  const FlagTtl: int := 5000

  /** A session idle for strictly longer than this is evicted by the sweep. */
  const IdleLimit: int := 10000

  datatype Kind = Kick | Crash | Spook | Bygone

  /** A registered session; `executor` is optional in the request body. */
  datatype User = User(
    username: string,
    displayName: string,
    jobId: string,
    executor: Option<string>,
    lastSeen: int)

  /** The four maps of `statusUIs`, one per flag kind, from user id to flag. */
  datatype FlagMaps = FlagMaps(
    kick: map<string, bool>,
    crash: map<string, bool>,
    spook: map<string, bool>,
    bygone: map<string, bool>)
  {
    function Get(k: Kind): map<string, bool> {
      match k
      case Kick => kick
      case Crash => crash
      case Spook => spook
      case Bygone => bygone
    }

    /** Replaces the map of kind `k`; the other three kinds keep theirs. */
    function Set(k: Kind, m: map<string, bool>): (r: FlagMaps)
      ensures r.Get(k) == m
      ensures forall k' :: k' != k ==> r.Get(k') == Get(k')
    {
      match k
      case Kick => this.(kick := m)
      case Crash => this.(crash := m)
      case Spook => this.(spook := m)
      case Bygone => this.(bygone := m)
    }

    /** Drops the ids `ids` from all four kinds. */
    function Without(ids: set<string>): (r: FlagMaps)
      ensures forall k :: r.Get(k) == Get(k) - ids
    {
      FlagMaps(kick - ids, crash - ids, spook - ids, bygone - ids)
    }
  }

  /** Two flag stores are equal when they agree on every kind. */
  lemma FlagMapsEqual(a: FlagMaps, b: FlagMaps)
    requires forall k :: a.Get(k) == b.Get(k)
    ensures a == b
  {
    assert a.Get(Kick) == b.Get(Kick) && a.Get(Crash) == b.Get(Crash);
    assert a.Get(Spook) == b.Get(Spook) && a.Get(Bygone) == b.Get(Bygone);
  }

  const NoFlags: FlagMaps := FlagMaps(map[], map[], map[], map[])

  /** A deferred `delete statusUIs[kind][userId]` due at time `fireAt`. */
  datatype Timer = Timer(kind: Kind, userId: string, fireAt: int)

  /** `timers` lists the outstanding deferred deletes in scheduling order. */
  datatype State = State(
    users: map<string, User>,
    flags: FlagMaps,
    timers: seq<Timer>,
    update: bool)

  /** The state at start-up: no users, empty flag maps, no timers, toggle off. */
  const Init: State := State(map[], NoFlags, [], false)

  /** The flag of kind `k` is raised for `u`: present and true. */
  predicate Active(s: State, k: Kind, u: string) {
    u in s.flags.Get(k) && s.flags.Get(k)[u]
  }

  /** The flag of kind `k` is down for `u`: absent, or (only for kick, which
      `/submit` seeds) present as false. */
  predicate Cleared(s: State, k: Kind, u: string) {
    u !in s.flags.Get(k) || (k == Kick && !s.flags.Get(k)[u])
  }

  /** The HTTP status a handler answers with. */
  datatype Status = Ok | BadRequest | Forbidden | NotFound {
    function Code(): int {
      match this
      case Ok => 200
      case BadRequest => 400
      case Forbidden => 403
      case NotFound => 404
    }
  }

  /** The state after a handler ran and the status it answered with. */
  datatype Step = Step(state: State, status: Status)
}
