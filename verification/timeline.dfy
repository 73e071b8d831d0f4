/** The server as one sequential machine: requests and the sweep arrive one at
    a time, each stamped with the clock, and the timer callbacks due by that
    time run first, as Node's event loop runs handlers and timers one at a
    time. Read-only endpoints change nothing and are not part of a trace. */
module Timeline {
  import opened Presence
  import opened Auth
  import Registry
  import Flags
  import Sweeper
  import Toggle

  /** A state-changing input: a request body or the sweep's interval. */
  datatype Request =
    | SubmitReq(body: Registry.SubmitBody)
    | TrackReq(userId: Option<string>)
    | FlagReq(kind: Kind, userId: Option<string>)
    | UpdateReq(headers: Headers)
    | SweepTick

  datatype Event = Event(at: int, req: Request)

  function Handle(s: State, c: Config, now: int, req: Request): State {
    match req
    case SubmitReq(b) => Registry.Submit(s, now, b).state
    case TrackReq(u) => Registry.TrackActivity(s, now, u).state
    case FlagReq(k, u) => Flags.Trigger(s, now, k, u).state
    case UpdateReq(h) => Toggle.Update(s, c, h).state
    case SweepTick => Sweeper.Sweep(s, now)
  }

  /** One event: the due deferred deletes, then the input itself. */
  function Apply(s: State, c: Config, e: Event): State {
    Handle(Flags.Fire(s, e.at), c, e.at, e.req)
  }

  function Run(s: State, c: Config, trace: seq<Event>): State
    decreases |trace|
  {
    if trace == [] then s else Run(Apply(s, c, trace[0]), c, trace[1..])
  }

  // ---------------------------------------------------------------------------
  // The update toggle

  /** The event is an authorized `/Update` call. */
  predicate Flips(c: Config, e: Event) {
    e.req.UpdateReq? && IsAuthorized(e.req.headers, c.key, UpdateSuffix, Updaters(c))
  }

  /** The number of authorized `/Update` calls in `trace`. */
  function Toggles(c: Config, trace: seq<Event>): nat
    decreases |trace|
  {
    if trace == [] then 0
    else (if Flips(c, trace[0]) then 1 else 0) + Toggles(c, trace[1..])
  }

  /** One event flips the toggle exactly when it is an authorized `/Update`. */
  lemma ApplyFlips(s: State, c: Config, e: Event)
    ensures Apply(s, c, e).update == (s.update != Flips(c, e))
  {
  }

  lemma ParityStep(x: nat, n: nat)
    requires x <= 1
    ensures ((x + n) % 2 == 1) == ((x == 1) != (n % 2 == 1))
  {
  }

  /** Only authorized `/Update` calls move the toggle, each flipping it. */
  lemma {:induction false} UpdateParity(s: State, c: Config, trace: seq<Event>)
    ensures Run(s, c, trace).update == (s.update != (Toggles(c, trace) % 2 == 1))
    decreases |trace|
  {
    if trace != [] {
      var next := Apply(s, c, trace[0]);
      ApplyFlips(s, c, trace[0]);
      UpdateParity(next, c, trace[1..]);
      assert Run(s, c, trace) == Run(next, c, trace[1..]);
      var here := if Flips(c, trace[0]) then 1 else 0;
      assert Toggles(c, trace) == here + Toggles(c, trace[1..]);
      ParityStep(here, Toggles(c, trace[1..]));
    }
  }

  /** From start-up, the toggle is on exactly after an odd number of
      authorized `/Update` calls. */
  lemma UpdateParityFromInit(c: Config, trace: seq<Event>)
    ensures Run(Init, c, trace).update <==> Toggles(c, trace) % 2 == 1
  {
    UpdateParity(Init, c, trace);
  }

  // ---------------------------------------------------------------------------
  // Flag lifetimes

  /** Some event of `trace` is a `/{kind}Ui` request for the flag of kind `k`
      and the id `u`, whether the server accepts it or refuses it. */
  predicate Retriggers(trace: seq<Event>, k: Kind, u: string) {
    exists i :: 0 <= i < |trace| && trace[i].req == FlagReq(k, Some(u))
  }

  /** No input other than an accepted trigger of the same flag raises a
      lowered flag; a trigger for an unregistered id is refused and changes
      nothing. */
  lemma HandleKeepsCleared(s: State, c: Config, now: int, req: Request, k: Kind, u: string)
    requires Cleared(s, k, u)
    requires req != FlagReq(k, Some(u)) || u !in s.users
    ensures Cleared(Handle(s, c, now, req), k, u)
  {
  }

  /** Every input keeps an outstanding deferred delete in the queue. */
  lemma HandleKeepsTimer(s: State, c: Config, now: int, req: Request, t: Timer)
    requires t in s.timers
    ensures t in Handle(s, c, now, req).timers
  {
  }

  /** Across one event without a retrigger, an outstanding delete of the flag
      either is still queued or has brought the flag down; once the event's
      time reaches the delete's time, the flag is down. */
  lemma ApplyTowardsDeadline(s: State, c: Config, e: Event, k: Kind, u: string, d: int)
    requires Timer(k, u, d) in s.timers || Cleared(s, k, u)
    requires e.req != FlagReq(k, Some(u))
    ensures Timer(k, u, d) in Apply(s, c, e).timers || Cleared(Apply(s, c, e), k, u)
    ensures e.at >= d ==> Cleared(Apply(s, c, e), k, u)
  {
    var f := Flags.Fire(s, e.at);
    if Cleared(f, k, u) {
      HandleKeepsCleared(f, c, e.at, e.req, k, u);
    } else {
      HandleKeepsTimer(f, c, e.at, e.req, Timer(k, u, d));
    }
  }

  /** A deferred delete is never cancelled: if the flag of kind `k` for `u`
      has a delete queued for time `d`, it is down at every event from `d`
      on until it is triggered again, whatever later triggers of it would
      have scheduled. "Triggered again" means any `/{kind}Ui` request for that
      flag and id, even one the server refuses. In particular the flag is
      down from the earliest queued delete's time on. */
  lemma {:induction false} FlagDownByDeadline(s: State, c: Config, trace: seq<Event>, k: Kind, u: string, d: int)
    requires Timer(k, u, d) in s.timers || Cleared(s, k, u)
    requires |trace| > 0 && trace[|trace| - 1].at >= d
    requires !Retriggers(trace, k, u)
    ensures Cleared(Run(s, c, trace), k, u)
    decreases |trace|
  {
    assert trace[0].req != FlagReq(k, Some(u));
    var next := Apply(s, c, trace[0]);
    ApplyTowardsDeadline(s, c, trace[0], k, u, d);
    if |trace| > 1 {
      var rest := trace[1..];
      assert rest[|rest| - 1] == trace[|trace| - 1];
      assert !Retriggers(rest, k, u) by {
        forall i | 0 <= i < |rest| ensures rest[i].req != FlagReq(k, Some(u)) {
          assert rest[i] == trace[i + 1];
        }
      }
      FlagDownByDeadline(next, c, rest, k, u, d);
    }
  }

  /** Every raised flag has a deferred delete of its own still queued. */
  ghost predicate TimerBacked(s: State) {
    forall k, u :: Active(s, k, u) ==> exists t :: t in s.timers && t.kind == k && t.userId == u
  }

  /** Every event keeps each raised flag backed by a queued delete. */
  lemma ApplyKeepsTimerBacked(s: State, c: Config, e: Event)
    requires TimerBacked(s)
    ensures TimerBacked(Apply(s, c, e))
  {
    var f := Flags.Fire(s, e.at);
    forall k, u | Active(f, k, u) ensures exists t :: t in f.timers && t.kind == k && t.userId == u {
      assert Active(s, k, u);
      var t :| t in s.timers && t.kind == k && t.userId == u;
      assert t.fireAt > e.at;
      assert t in f.timers;
    }
    var r := Apply(s, c, e);
    forall k, u | Active(r, k, u) ensures exists t :: t in r.timers && t.kind == k && t.userId == u {
      if e.req == FlagReq(k, Some(u)) && Flags.Trigger(f, e.at, k, Some(u)).status == Ok {
        assert Timer(k, u, e.at + FlagTtl) in r.timers;
      } else {
        if !Active(f, k, u) {
          assert Cleared(f, k, u);
          HandleKeepsCleared(f, c, e.at, e.req, k, u);
          assert false;
        }
        var t :| t in f.timers && t.kind == k && t.userId == u;
        HandleKeepsTimer(f, c, e.at, e.req, t);
      }
    }
  }

  /** Over any trace, no flag is raised without a queued delete of its own. */
  lemma {:induction false} RunKeepsTimerBacked(s: State, c: Config, trace: seq<Event>)
    requires TimerBacked(s)
    ensures TimerBacked(Run(s, c, trace))
    decreases |trace|
  {
    if trace != [] {
      ApplyKeepsTimerBacked(s, c, trace[0]);
      RunKeepsTimerBacked(Apply(s, c, trace[0]), c, trace[1..]);
    }
  }

  /** From start-up, every raised flag has a queued delete. */
  lemma InitTimerBacked(c: Config, trace: seq<Event>)
    ensures TimerBacked(Run(Init, c, trace))
  {
    RunKeepsTimerBacked(Init, c, trace);
  }

  /** In any state reached from start-up, a raised flag has a deadline `d`:
      every later trace that ends at time `d` or after, without another
      `/{kind}Ui` request for that flag and id, leaves the flag down. */
  lemma RaisedFlagComesDown(c: Config, done: seq<Event>, k: Kind, u: string) returns (d: int)
    requires Active(Run(Init, c, done), k, u)
    ensures Timer(k, u, d) in Run(Init, c, done).timers
    ensures forall later: seq<Event> | |later| > 0 && later[|later| - 1].at >= d && !Retriggers(later, k, u) ::
              Cleared(Run(Run(Init, c, done), c, later), k, u)
  {
    var s := Run(Init, c, done);
    InitTimerBacked(c, done);
    var t :| t in s.timers && t.kind == k && t.userId == u;
    d := t.fireAt;
    forall later: seq<Event> | |later| > 0 && later[|later| - 1].at >= d && !Retriggers(later, k, u)
      ensures Cleared(Run(s, c, later), k, u)
    {
      FlagDownByDeadline(s, c, later, k, u, d);
    }
  }

  /** Triggering at 0 and again at 3000 does not keep the flag up until 8000:
      the first delete still fires at 5000, so at 6000 the flag is down. */
  lemma RetriggerDoesNotExtend(c: Config, u: string, b: Registry.SubmitBody)
    requires Registry.Complete(b) && b.userId == Some(u)
    ensures var trace := [
              Event(0, SubmitReq(b)),
              Event(0, FlagReq(Kick, Some(u))),
              Event(3000, FlagReq(Kick, Some(u))),
              Event(6000, TrackReq(Some(u)))];
            !Active(Run(Init, c, trace), Kick, u)
  {
    var trace := [
      Event(0, SubmitReq(b)),
      Event(0, FlagReq(Kick, Some(u))),
      Event(3000, FlagReq(Kick, Some(u))),
      Event(6000, TrackReq(Some(u)))];
    var s1 := Apply(Init, c, trace[0]);
    var s2 := Apply(s1, c, trace[1]);
    var s3 := Apply(s2, c, trace[2]);
    assert Timer(Kick, u, 5000) in s2.timers;
    assert Timer(Kick, u, 5000) in Flags.Fire(s2, 3000).timers;
    HandleKeepsTimer(Flags.Fire(s2, 3000), c, 3000, trace[2].req, Timer(Kick, u, 5000));
    ApplyTowardsDeadline(s3, c, trace[3], Kick, u, 5000);
    assert Run(Init, c, trace) == Run(s1, c, trace[1..]);
    assert Run(s1, c, trace[1..]) == Run(s2, c, trace[2..]);
    assert Run(s2, c, trace[2..]) == Run(s3, c, trace[3..]);
    assert Run(s3, c, trace[3..]) == Run(Apply(s3, c, trace[3]), c, []);
  }
}
