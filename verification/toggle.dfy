/** `/Update`: an authorized call flips the `update` toggle and reports its
    new value. */
module Toggle {
  import opened Presence
  import opened Auth

  /** The state after `/Update`, its status, and the value it reports. */
  datatype Toggled = Toggled(state: State, status: Status, current: Option<string>)

  /** The reported value of the toggle. */
  function Label(on: bool): string {
    if on then "ON" else "OFF"
  }

  function Update(s: State, c: Config, h: Headers): (r: Toggled)
    ensures IsAuthorized(h, c.key, UpdateSuffix, Updaters(c)) ==>
      && r.status == Ok
      && r.state.update != s.update
      && r.state.(update := s.update) == s
    ensures !IsAuthorized(h, c.key, UpdateSuffix, Updaters(c)) ==> r == Toggled(s, Forbidden, None)
    ensures r.current == Some("ON") <==> r.status == Ok && r.state.update
    ensures r.current == Some("OFF") <==> r.status == Ok && !r.state.update
  {
    if !IsAuthorized(h, c.key, UpdateSuffix, Updaters(c)) then Toggled(s, Forbidden, None)
    else
      var on := !s.update;
      Toggled(s.(update := on), Ok, Some(Label(on)))
  }
}
