/** The flag store: `/{kind}Ui` raises a flag and schedules its deferred
    delete, the timer callbacks delete it, `/check{Kind}Ui` reads a kind. */
module Flags {
  import opened Presence

  /** `updateStatus` at time `now`: a known id gets its flag raised and one
      more deferred delete at `now + FlagTtl`; earlier deletes for the same
      flag stay scheduled. */
  function Trigger(s: State, now: int, k: Kind, userId: Option<string>): (r: Step)
    ensures r.status == Ok <==> Given(userId) && userId.value in s.users
    ensures r.status != Ok ==> r == Step(s, BadRequest)
    ensures r.status == Ok ==>
      var u := userId.value;
      && Active(r.state, k, u)
      && r.state.flags.Get(k) - {u} == s.flags.Get(k) - {u}
      && (forall k' :: k' != k ==> r.state.flags.Get(k') == s.flags.Get(k'))
      && r.state.timers == s.timers + [Timer(k, u, now + FlagTtl)]
      && r.state.users == s.users
      && r.state.update == s.update
  {
    if !Given(userId) || userId.value !in s.users then Step(s, BadRequest)
    else
      var u := userId.value;
      var raised := s.flags.Set(k, s.flags.Get(k)[u := true]);
      Step(s.(flags := raised, timers := s.timers + [Timer(k, u, now + FlagTtl)]), Ok)
  }

  /** The body of a deferred delete: `delete statusUIs[kind][userId]`. */
  function Expire(f: FlagMaps, k: Kind, u: string): (r: FlagMaps)
    ensures u !in r.Get(k)
    ensures r.Get(k) - {u} == f.Get(k) - {u}
    ensures forall k' :: k' != k ==> r.Get(k') == f.Get(k')
    ensures u !in f.Get(k) ==> r == f
  {
    var r := f.Set(k, f.Get(k) - {u});
    if u !in f.Get(k) then
      assert r.Get(k) == f.Get(k);
      FlagMapsEqual(r, f);
      r
    else r
  }

  /** The ids whose flag of kind `k` one of the timers in `q` deletes. */
  function Struck(q: seq<Timer>, k: Kind): set<string> {
    set t | t in q && t.kind == k :: t.userId
  }

  /** The id whose flag of kind `k` the timer `t` deletes, if any. */
  function Hit(t: Timer, k: Kind): set<string> {
    if t.kind == k then {t.userId} else {}
  }

  lemma ExpireGet(f: FlagMaps, t: Timer, k: Kind)
    ensures Expire(f, t.kind, t.userId).Get(k) == f.Get(k) - Hit(t, k)
  {
  }

  lemma StruckCons(q: seq<Timer>, k: Kind)
    requires q != []
    ensures Struck(q, k) == Hit(q[0], k) + Struck(q[1..], k)
  {
  }

  lemma MinusMinus(m: map<string, bool>, a: set<string>, b: set<string>)
    ensures (m - a) - b == m - (a + b)
  {
  }

  /** Runs the callbacks of `q` one after another, in order. */
  function ExpireAll(f: FlagMaps, q: seq<Timer>): (r: FlagMaps)
    ensures forall k :: r.Get(k) == f.Get(k) - Struck(q, k)
    decreases |q|
  {
    if q == [] then f
    else
      var g := Expire(f, q[0].kind, q[0].userId);
      var r := ExpireAll(g, q[1..]);
      assert forall k :: r.Get(k) == f.Get(k) - Struck(q, k) by {
        forall k ensures r.Get(k) == f.Get(k) - Struck(q, k) {
          ExpireGet(f, q[0], k);
          StruckCons(q, k);
          MinusMinus(f.Get(k), Hit(q[0], k), Struck(q[1..], k));
        }
      }
      r
  }

  /** The timers of `q` that are still to fire after time `now`, in order. */
  function Waiting(q: seq<Timer>, now: int): (r: seq<Timer>)
    ensures forall t :: t in r <==> t in q && t.fireAt > now
    ensures |r| <= |q|
  {
    if q == [] then []
    else if q[0].fireAt > now then [q[0]] + Waiting(q[1..], now)
    else Waiting(q[1..], now)
  }

  /** The timers of `q` due by time `now`, in order. */
  function Due(q: seq<Timer>, now: int): (r: seq<Timer>)
    ensures forall t :: t in r <==> t in q && t.fireAt <= now
    ensures |r| + |Waiting(q, now)| == |q|
  {
    if q == [] then []
    else if q[0].fireAt <= now then [q[0]] + Due(q[1..], now)
    else Due(q[1..], now)
  }

  /** Some timer of `q` due by `now` deletes the flag of kind `k` for `u`. */
  predicate DueFor(q: seq<Timer>, now: int, k: Kind, u: string) {
    exists t :: t in q && t.fireAt <= now && t.kind == k && t.userId == u
  }

  /** The timer phase at time `now`: every due deferred delete runs and leaves
      the queue; a delete whose entry is already gone changes nothing. */
  function Fire(s: State, now: int): (r: State)
    ensures forall t :: t in r.timers <==> t in s.timers && t.fireAt > now
    ensures forall t :: t in s.timers && t.fireAt <= now ==> t.userId !in r.flags.Get(t.kind)
    ensures forall k, u :: u in r.flags.Get(k) ==>
              u in s.flags.Get(k) && r.flags.Get(k)[u] == s.flags.Get(k)[u]
    ensures forall k, u :: u in s.flags.Get(k) && !DueFor(s.timers, now, k, u) ==> u in r.flags.Get(k)
    ensures r.users == s.users && r.update == s.update
  {
    s.(flags := ExpireAll(s.flags, Due(s.timers, now)), timers := Waiting(s.timers, now))
  }

  lemma {:induction false} WaitingTwice(q: seq<Timer>, t1: int, t2: int)
    requires t1 <= t2
    ensures Waiting(Waiting(q, t1), t2) == Waiting(q, t2)
  {
    if q != [] {
      WaitingTwice(q[1..], t1, t2);
      if q[0].fireAt > t1 {
        assert Waiting(q, t1) == [q[0]] + Waiting(q[1..], t1);
        assert Waiting(q, t1)[1..] == Waiting(q[1..], t1);
      }
    }
  }

  /** The deletes due by `t2` are those due by `t1` and those of the rest due
      by `t2`. */
  lemma DueSplit(q: seq<Timer>, t1: int, t2: int, k: Kind)
    requires t1 <= t2
    ensures Struck(Due(q, t1), k) + Struck(Due(Waiting(q, t1), t2), k) == Struck(Due(q, t2), k)
  {
  }

  /** Running the timer phase at `t1` and again at a later `t2` is the same
      as running it once at `t2`: timers fire late but never twice. */
  lemma FireBatching(s: State, t1: int, t2: int)
    requires t1 <= t2
    ensures Fire(Fire(s, t1), t2) == Fire(s, t2)
  {
    var a := Fire(s, t1);
    var b := Fire(a, t2);
    var c := Fire(s, t2);
    WaitingTwice(s.timers, t1, t2);
    forall k ensures b.flags.Get(k) == c.flags.Get(k) {
      var early := Struck(Due(s.timers, t1), k);
      var late := Struck(Due(a.timers, t2), k);
      DueSplit(s.timers, t1, t2, k);
      MinusMinus(s.flags.Get(k), early, late);
    }
    FlagMapsEqual(b.flags, c.flags);
  }

  /** `/check{Kind}Ui`: the map of one kind as it stands, including the false
      kick entries that `/submit` seeds. */
  function CheckFlags(s: State, k: Kind): (r: map<string, bool>)
    ensures forall u :: u in r <==> u in s.flags.Get(k)
    ensures forall u :: (u in r && r[u]) <==> Active(s, k, u)
    ensures forall u :: u !in r ==> Cleared(s, k, u)
  {
    s.flags.Get(k)
  }
}
