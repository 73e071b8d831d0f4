/** The header check that guards the user listing and the update toggle. */
module Auth {
  import opened Presence

  /** The two headers the check reads: `token_user` and `uid`. */
  datatype Headers = Headers(token: Option<string>, uid: Option<string>)

  /** The shared secret (`KEY`) and the four identity allow-lists, supplied
      at start-up instead of being read from the environment and literals. */
  datatype Config = Config(
    key: string,
    duid: set<string>,
    ruid: set<string>,
    devduid: set<string>,
    devruid: set<string>)

  const UserSuffix: string := "USER"
  const UpdateSuffix: string := "UPDATE"

  /** The allow-lists for reading users. */
  function Readers(c: Config): seq<set<string>> {
    [c.duid, c.ruid]
  }

  /** The allow-lists for flipping the update toggle. */
  function Updaters(c: Config): seq<set<string>> {
    [c.devduid, c.devruid]
  }

  /** `idSets.some(set => set.has(uid))`: scans the lists front to back; an
      absent uid is in none of them. */
  function AnyHas(sets: seq<set<string>>, uid: Option<string>): (r: bool)
    ensures r <==> uid.Some? && exists i :: 0 <= i < |sets| && uid.value in sets[i]
  {
    if |sets| == 0 then false
    else if uid.Some? && uid.value in sets[0] then true
    else
      var rest := AnyHas(sets[1..], uid);
      assert forall i :: 1 <= i < |sets| ==> sets[i] == sets[1..][i - 1];
      rest
  }

  /** The token must equal the secret followed by the route's suffix, and the
      uid must be on some allow-list. */
  function IsAuthorized(h: Headers, key: string, suffix: string, sets: seq<set<string>>): (r: bool)
    ensures r <==> && h.token == Some(key + suffix)
                   && h.uid.Some?
                   && exists i :: 0 <= i < |sets| && h.uid.value in sets[i]
  {
    h.token == Some(key + suffix) && AnyHas(sets, h.uid)
  }

  /** A wrong or missing token is refused whatever the uid and the lists. */
  lemma WrongTokenRefused(h: Headers, key: string, suffix: string, sets: seq<set<string>>)
    requires h.token != Some(key + suffix)
    ensures forall uid :: !IsAuthorized(h.(uid := uid), key, suffix, sets)
  {
  }
}
