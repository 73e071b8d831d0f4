/** The periodic sweep: every session idle for strictly longer than
    `IdleLimit` is evicted, and its entries in all four flag maps with it. */
module Sweeper {
  import opened Presence
  import Flags

  /** The session `u` has been silent for strictly longer than the limit. */
  predicate Idle(s: State, now: int, u: string)
    requires u in s.users
  {
    now - s.users[u].lastSeen > IdleLimit
  }

  /** The ids the sweep at `now` evicts. */
  function Evicted(s: State, now: int): set<string> {
    set u | u in s.users && Idle(s, now, u)
  }

  /** Every remaining session was seen within the limit. */
  predicate AllFresh(s: State, now: int) {
    forall u :: u in s.users ==> now - s.users[u].lastSeen <= IdleLimit
  }

  /** The sweep at time `now`. Pending deferred deletes are not cancelled, and
      flags of ids that are not registered are not touched. */
  function Sweep(s: State, now: int): (r: State)
    ensures forall u :: u in r.users <==> u in s.users && now - s.users[u].lastSeen <= IdleLimit
    ensures forall u :: u in r.users ==> r.users[u] == s.users[u]
    ensures AllFresh(r, now)
    ensures forall k, u :: u in s.users && Idle(s, now, u) ==> u !in r.flags.Get(k)
    ensures forall k, u :: u in r.flags.Get(k) ==>
              u in s.flags.Get(k) && r.flags.Get(k)[u] == s.flags.Get(k)[u]
    ensures forall k, u :: u in s.flags.Get(k) && (u !in s.users || !Idle(s, now, u)) ==> u in r.flags.Get(k)
    ensures r.timers == s.timers && r.update == s.update
  {
    var gone := Evicted(s, now);
    s.(users := s.users - gone, flags := s.flags.Without(gone))
  }

  /** A second sweep at the same time evicts nothing more. */
  lemma SweepIdempotent(s: State, now: int)
    ensures Sweep(Sweep(s, now), now) == Sweep(s, now)
  {
  }

  /** `delete statusUIs[type][userId]` for each of the four kinds in turn. */
  function ForgetAll(f: FlagMaps, u: string): (r: FlagMaps)
    ensures forall k :: r.Get(k) == f.Get(k) - {u}
  {
    Flags.Expire(Flags.Expire(Flags.Expire(Flags.Expire(f, Kick, u), Crash, u), Spook, u), Bygone, u)
  }

  /** The ids among `keys` that the sweep at `now` evicts. */
  function EvictedAmong(s: State, now: int, keys: seq<string>): set<string> {
    set u | u in keys && u in s.users && Idle(s, now, u)
  }

  /** Extending the scanned prefix by one key adds that key exactly when it
      is idle. */
  lemma EvictedAmongStep(s: State, now: int, keys: seq<string>, i: nat)
    requires i < |keys| && keys[i] in s.users
    ensures EvictedAmong(s, now, keys[..i + 1])
            == EvictedAmong(s, now, keys[..i]) + (if Idle(s, now, keys[i]) then {keys[i]} else {})
  {
  }

  /** The sweep as the interval callback runs it: one pass over the keys of
      `users` as `Object.keys` lists them (each once), deleting an idle
      session and then its four flag entries. */
  method SweepLoop(s: State, now: int, keys: seq<string>) returns (r: State)
    requires forall u :: u in s.users <==> u in keys
    requires forall i, j :: 0 <= i < j < |keys| ==> keys[i] != keys[j]
    ensures r == Sweep(s, now)
  {
    var users := s.users;
    var flags := s.flags;
    var i := 0;
    while i < |keys|
      invariant 0 <= i <= |keys|
      invariant users == s.users - EvictedAmong(s, now, keys[..i])
      invariant forall k :: flags.Get(k) == s.flags.Get(k) - EvictedAmong(s, now, keys[..i])
    {
      var u := keys[i];
      assert u !in EvictedAmong(s, now, keys[..i]);
      EvictedAmongStep(s, now, keys, i);
      if now - users[u].lastSeen > IdleLimit {
        users := users - {u};
        flags := ForgetAll(flags, u);
      }
      i := i + 1;
    }
    assert keys[..i] == keys;
    assert EvictedAmong(s, now, keys) == Evicted(s, now);
    FlagMapsEqual(flags, s.flags.Without(Evicted(s, now)));
    r := s.(users := users, flags := flags);
  }
}
