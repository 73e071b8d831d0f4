# Presence server: a Dafny model

This project models the state machine inside a small Express presence server. Clients register sessions with `/submit` and send heartbeats with `/trackActivity`. They raise short-lived status flags (kick, crash, spook, bygone) with `/{kind}Ui`, and those flags clear themselves after 5000 ms. An interval sweep evicts every session that has been silent for more than 10000 ms, together with its flags. A header check guards the user listing and the `/Update` toggle.

The state is one immutable record (`Presence.State`) with these parts:
- the session registry `users`;
- the four flag maps of `statusUIs`;
- the outstanding deferred deletes that `setTimeout` holds, kept as a queue of `Timer(kind, userId, fireAt)` in scheduling order;
- the `update` toggle.

Every handler is a pure function of the state and an explicit clock value `now`. A failing handler returns the state unchanged along with its status code. `Timeline` strings the handlers together in the way Node's event loop runs them, one at a time. Before each input, the deferred deletes due by that input's time run in their scheduling order (`Flags.Fire`).

Three consequences of server.js that a reader might not expect:
- A second trigger of the same flag does not cancel the first deferred delete (server.js:40), so retriggering does not extend the 5000 ms window. The flag comes down at the earliest outstanding delete's time. `Timeline.FlagDownByDeadline` proves the general statement; `Timeline.RetriggerDoesNotExtend` shows that triggers at 0 and 3000 leave the flag down at 6000.
- The `/check{Kind}Ui` endpoints return the flag map as it stands, not just the raised entries. That map includes the `false` kick entries that `/submit` seeds (server.js:51, 97).
- An evicted session's pending deletes stay queued. If the id registers again and raises the same flag, an old delete can lower the new flag early. `Timeline.FlagDownByDeadline` covers this too, because it speaks of any queued delete.

## Model

| member | source | states |
|---|---|---|
| Auth.AnyHas | server.js:32 | the uid passes exactly when it is present and belongs to at least one of the allow-lists |
| Auth.IsAuthorized | server.js:30-33 | a request is authorized iff its token equals the secret followed by the route suffix and its uid is on some allow-list |
| Auth.WrongTokenRefused | server.js:31 | a wrong or missing token is refused whatever the uid |
| Registry.Submit | server.js:44-55 | a body missing userId, username, displayName or jobId (absent or empty) yields 400 and changes nothing. Otherwise the record for userId becomes exactly the given fields with lastSeen = now. The kick entry for that id becomes present and stays true only if it was true. Nothing else changes, and no flag anywhere becomes raised |
| Registry.TrackActivity | server.js:57-64 | a missing or unknown id yields 400 with no change; otherwise only that user's lastSeen changes, to now |
| Registry.GetUser | server.js:85-94 | an unauthorized request is refused with 403 whether or not the id exists; an authorized one gets the stored record, or 404 when the id is unknown |
| Registry.ListUsers | server.js:78-83 | the whole registry is returned iff the request is authorized, 403 otherwise |
| Registry.SubmitThenGet | server.js:50 | a lookup right after a successful submit returns the submitted fields stamped with the submission time |
| Registry.TrackThenGet | server.js:62 | a lookup after a heartbeat shows the new lastSeen and the old other fields |
| Flags.Trigger | server.js:35-42 | a missing or unknown id yields 400 and creates no flag entry. Otherwise the flag becomes true and exactly one delete at now + 5000 is appended to the queue, with earlier deletes kept. All other kinds, ids and the registry are unchanged |
| Flags.Expire | server.js:40 | a deferred delete removes only its own entry, and changes nothing when that entry is already absent |
| Flags.ExpireAll | server.js:40 | running a sequence of deferred deletes in order removes exactly the ids they target from each kind, and nothing else |
| Flags.Fire | server.js:40 | the timer phase at now drops exactly the timers due by now and keeps the others. Every flag targeted by a due timer is absent afterwards. Surviving flag entries keep their values, and an entry no due timer targets survives |
| Flags.FireBatching | server.js:40 | running the timer phase at t1 and again at a later t2 equals running it once at t2: a late timer still fires, and none fires twice |
| Flags.CheckFlags | server.js:96-98 | the report lists every entry of that kind's map, including false kick entries; the entries reported as true are exactly the raised flags; an id missing from the report has its flag down |
| Registry.SubmitThenCheck | server.js:51 | after a successful submit the kick report lists the id, as true only if its kick flag was already raised |
| Registry.ListAgreesWithGet | server.js:78-94 | when the listing is granted, a lookup with the same headers returns that listing's record for a listed id and 404 otherwise |
| Sweeper.Sweep | server.js:66-76 | the sweep keeps exactly the users with now - lastSeen <= 10000 (strict comparison), leaves their records untouched, and removes every evicted id from all four flag maps. Flags of other ids are untouched, even when those ids are not registered, and the deferred deletes stay queued |
| Sweeper.SweepLoop | server.js:68-74 | the key-by-key pass over `Object.keys(users)`, deleting each idle user and then its four flag entries, computes the same state as the sweep |
| Sweeper.ForgetAll | server.js:71 | deleting the id from each kind in turn leaves every kind's map without that id and otherwise unchanged |
| Sweeper.SweepIdempotent | server.js:69 | a second sweep at the same time evicts nothing more |
| Toggle.Update | server.js:104-111 | an authorized call flips the toggle and changes nothing else; an unauthorized one answers 403 and changes nothing; the reply reads ON exactly when the toggle is now on |
| Timeline.UpdateParity | server.js:104-109 | over any sequence of inputs, the toggle has flipped once per authorized `/Update` and is moved by nothing else |
| Timeline.UpdateParityFromInit | server.js:104-109 | from start-up, the toggle is on exactly after an odd number of authorized `/Update` calls |
| Timeline.HandleKeepsCleared | server.js:35-64 | no input other than an accepted trigger of the same flag raises a flag that is down (a trigger for an unregistered id is refused); `/submit` can only re-seed kick as false |
| Timeline.ApplyTowardsDeadline | server.js:39-40 | across one event that is not a retrigger, a queued delete either stays queued or has lowered the flag, and it has lowered the flag once the event's time reaches its due time |
| Timeline.FlagDownByDeadline | server.js:39-40 | if a delete of a flag is queued for time d, the flag is down at every later event at time d or after until a `/{kind}Ui` request for that flag and id arrives (accepted or refused), whatever a later trigger scheduled |
| Timeline.ApplyKeepsTimerBacked | server.js:39-40 | every event keeps each raised flag backed by a queued delete of its own |
| Timeline.RunKeepsTimerBacked | server.js:39-40 | over any sequence of inputs, every raised flag stays backed by a queued delete |
| Timeline.InitTimerBacked | server.js:11-17 | in every state reachable from start-up, each raised flag has a queued delete of its own |
| Timeline.RaisedFlagComesDown | server.js:39-40 | in a state reachable from start-up, a raised flag has a deadline d, and any later trace ending at time d or after comes down unless it triggers that flag for that id again |
| Timeline.RetriggerDoesNotExtend | server.js:40 | with triggers at 0 and 3000 the flag is already down at 6000, because the first delete still fires at 5000 |

## Left out

- Express wiring: routing, JSON parsing, response bodies and messages, and `app.listen`. Handlers return a new state and a status code. `Toggle.Update` reports only the word ON or OFF from its reply text.
- `saveUsers` and its `fs.writeFile` call (server.js:24-28, 52, 75). They are fire-and-forget I/O whose errors are only logged, so they do not affect the state.
- `console.log` and `console.error` output.
- `Date.now`, `setTimeout` and `setInterval` as real clocks. The clock is the `now` parameter, or an event's `at`. The interval sweep is an explicit input (`SweepTick`) at whatever time it runs. The model assumes a timer runs at the first event whose time reaches its due time, and the model does not assume the clock is monotone.
- `process.env` reads and the hard-coded id sets at server.js:19-22. The secret and the four allow-lists are a `Config` parameter.
- `GET /getWebhook` (server.js:113-127), a lookup of environment secrets behind a token check, and `GET /` (server.js:129), a constant reply.
- JavaScript truthiness beyond "absent or empty string counts as missing". Non-string JSON values (numbers, booleans, objects) are not modelled.
- Lookups through `Object.prototype`. Ids such as `constructor` or `toString` read an inherited property in `users[userId]`, and the source would accept them as known users. The model treats the registry as a plain map.
- The undefined `KEY` concatenation quirk (`undefined + "USER"`).
- Read-only endpoints (`/users`, `/users/:userId`, `/check{Kind}Ui`) do not appear in `Timeline` traces, because they change no state.
