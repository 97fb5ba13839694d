# tailmux, modelled in Dafny

tailmux puts terminals in a browser tab. A Node server (`server.js`) keeps a
registry of live terminals, each a pty running a shell or a `tmux
attach-session`, and talks to each browser tab over its own WebSocket with a
small JSON frame protocol: `create`, `input` and `resize` up, `ready`,
`output`, `exit` and `error` down. Idle terminals can be reaped by a timer.
A heartbeat drops silent clients. Two HTTP endpoints list tmux sessions and
rename one. The browser client (`public/app.js`) keeps one record per tab.
When a tmux-backed tab loses its socket, it reconnects with capped
exponential backoff. The client also caches the session listing, and it turns
keys, tmux commands and scroll buttons into the bytes it sends.

This project models both halves as classes over maps and counters. Sockets,
ptys, tmux and timers are not modelled as such. Their events become method
calls, the outcomes of external calls become parameters, and everything the
program asks of the outside world is appended to an effect log. The pure
pieces are functions with lemmas about them: the tmux listing parser, the
rename validation, the backoff, the scroll arithmetic and the key encodings.

| file | module | contents |
|---|---|---|
| `wrappers.dfy` | `Wrappers` | `Option` |
| `maps.dfy` | `Maps` | generic map cardinality and update lemmas |
| `protocol.dfy` | `Protocol` | the WebSocket frames and close codes |
| `text.dfy` | `Text` | JavaScript `trim`, `split`, `join`, `parseInt`, `String(n)` |
| `tmux_directory.dfy` | `TmuxDirectory` | `getTmuxSessions`, `/api/sessions`, rename validation |
| `server.dfy` | `TerminalServer` | class `Server`: registry, idle timers, connection handlers, rename, heartbeat |
| `client_policy.dfy` | `ClientPolicy` | backoff, local scroll targets, key and tmux encodings |
| `session_cache.dfy` | `SessionCache` | class `SessionCache`: `fetchSessions` / `invalidateSessionCache` |
| `tab_record.dfy` | `TabRecord` | a tab's record and its reconnect state machine, as functions |
| `tab_controller.dfy` | `TabController` | class `App`: the tab map, sockets, retry timers and every handler |

The server's invariant `Server.Valid` has these parts:
- the registry respects the terminal limit;
- each session's idle timer is pending and belongs to that session;
- every connection and pty handler refers to known entries.

`Server.TimersMatchSessions` says that every pending timer is the current
timer of the session it will reap. It is preserved when terminal ids are
fresh. Ids come from `Date.now()`, so the model does not assume that they
are.

The client's invariant `App.Valid` has these parts:
- open tab ids are increasing, in creation order;
- every socket belongs to a record;
- an open tab's live socket is the one its record holds;
- every pending retry timer belongs to an open tab whose record holds it, and that tab has no socket.

`App.NoOrphans` says that no socket that is still connecting or open belongs
to a closed tab. Every handler preserves it, except `closeTab` as written
(see Findings).

## Model

| member | source | states |
|---|---|---|
| TerminalServer.EffectiveMode | server.js:223 | a missing mode is `new`; any given mode is kept |
| TerminalServer.TmuxSessionName | server.js:264 | a requested name is used as is; otherwise the name is `tailmux-` followed by the timestamp in decimal |
| TerminalServer.DetachEffects | server.js:68-78 | a detach is issued exactly for a tmux-backed session with a name while tmux is installed |
| TerminalServer.PlanCreate | server.js:221-312 | at the limit: refusal with 1013; every refusal below the limit: 1011. Below the limit, the create launches whenever the spawn succeeds, tmux is present for the tmux modes, and any needed `new-session` succeeds; a launch needs all three. An attach targets the generated or requested name in `tmux` mode, and the requested name in `attach` mode. A failed `new-session` refuses with the create-failed message. |
| TerminalServer.ModeDefaults | server.js:223-233 | a missing mode behaves as `new`, and `attach` without a name behaves as a plain shell |
| TerminalServer.IdleEffects | server.js:102-130 | the idle callback's effects in order: the inactivity error, then `DetachEffects` (a detach only when it applies), then the kill, and last a 1000 close, present exactly when the socket is open |
| TerminalServer.Cancel | server.js:80-86 | clearing a timer drops exactly that handle and keeps every other pending timer |
| TerminalServer.RenameFailure | server.js:170-173 | the error is tmux's trimmed stderr when non-empty, and otherwise exactly the fixed rename-failed message |
| TerminalServer.RenameAnswer | server.js:149-183 | success iff tmux is installed, validation passes and `rename-session` succeeds. Missing tmux gives 400. A validation failure gives 400 with its message. Only an external failure gives 500. |
| TerminalServer.Swept | server.js:186-198 | one tick: a silent live client is terminated, an answering one is marked not alive, a closed one is untouched |
| TerminalServer.SilentClientTerminated | server.js:186-198 | a live client that never answers is terminated within two ticks |
| TerminalServer.AnsweringClientSurvives | server.js:186-209 | a client that answers every ping is never terminated |
| TerminalServer.Server.AtMostOneTimerPerSession | server.js:88-102 | with matching timers, no session has two idle timers pending |
| TerminalServer.Server.constructor | server.js:15-25 | an empty registry, connection set and timer set under the given limits |
| TerminalServer.Server.ClearIdleTimeout | server.js:80-86 | a present session loses its timer and the timer is no longer pending; otherwise nothing changes; the invariant is kept |
| TerminalServer.Server.ScheduleIdleTimeout | server.js:88-102 | no-op when the timeout is ≤ 0 or the session is absent. Otherwise the old timer is cancelled and one fresh timer is armed for the session. |
| TerminalServer.Server.Connect | server.js:204-209 | a new connection is open and alive and has no terminal |
| TerminalServer.Server.OnPong | server.js:207-209 | a pong marks exactly that connection alive |
| TerminalServer.Server.Reject | server.js:60-66 | exactly one error frame, then the close with the given code |
| TerminalServer.Server.OnCreate | server.js:221-348 | a second `create` is ignored. A refusal sends exactly one error frame, closes the socket and leaves the registry unchanged. A launch registers the session, arms its idle timer and sends `ready`. |
| TerminalServer.Server.Start | server.js:314-348 | after a spawn: the session is registered under the given id, bound to its connection and pty, its idle timer armed when timeouts are on, and `ready` sent |
| TerminalServer.Server.SpawnAndRegister | server.js:314-321 | the new pty gets a fresh id with handlers bound to its connection and terminal id, and the map gains exactly that entry |
| TerminalServer.Server.OnInput | server.js:350-352 | without a terminal nothing happens; otherwise the data goes to the pty and the idle timer is rearmed |
| TerminalServer.Server.OnResize | server.js:353-355 | without a terminal nothing happens; otherwise the pty is resized as asked |
| TerminalServer.Server.OnOutput | server.js:326-332 | pty output goes to the socket that created the pty |
| TerminalServer.Server.OnProcessExit | server.js:335-345 | the entry and its timer go, and the browser gets exactly one `exit` frame with the code before the close |
| TerminalServer.Server.Forget | server.js:337-338 | the id's timer is cleared, then its entry deleted; an absent id changes nothing |
| TerminalServer.Server.OnClose | server.js:362-384 | a connection without a registered session only drops `term`. Otherwise: detach when it applies, clear the timer, kill the pty, delete the entry. |
| TerminalServer.Server.OnIdleTimer | server.js:102-130 | a timer for a session already gone does nothing; otherwise the session is reaped as `IdleEffects` says; the timer is no longer pending |
| TerminalServer.Server.ReapIdle | server.js:108-130 | the entry is deleted, an open socket starts closing, and the effects are exactly `IdleEffects` |
| TerminalServer.Server.HandleRename | server.js:149-183 | the answer is `RenameAnswer`. `rename-session` runs only after validation. A rejection leaves the registry unchanged. Success renames exactly the entries carrying the old name. |
| TerminalServer.Server.RenameSessions | server.js:176-180 | every entry named `from` now carries `to`, every other entry is unchanged, no entry is added or removed |
| TerminalServer.Server.HeartbeatTick | server.js:185-199 | every client becomes `Swept` of its old state; the terminated set is exactly the silent live clients, the pinged set exactly the answering ones |
| Text.Trim | server.js:45 | the result is a contiguous piece of the input and neither starts nor ends with whitespace |
| Text.TrimCutsWhitespace | server.js:45 | everything trimming removes is whitespace |
| Text.TrimKeepsContent | server.js:45 | trimming keeps every non-whitespace character and adds none |
| Text.TrimIdempotent | server.js:45 | trimming twice is trimming once |
| Text.Split | server.js:45-46 | at least one piece, none containing the separator |
| Text.JoinSplit | server.js:45-46 | joining the pieces of a split gives the original string |
| Text.SplitJoin | server.js:45-46 | splitting a join of separator-free pieces gives the pieces back |
| Text.NatToString | server.js:264 | a non-empty run of decimal digits without a leading zero |
| Text.ParseIntNatToString | server.js:49-51 | `parseInt` reads back what `String(n)` printed |
| TmuxDirectory.ParseLine | server.js:45-53 | a line yields a session iff its creation stamp can be formatted as a date. The name is the first `|`-field and holds no `|`. `windows` is `parseInt` of the second field. The creation time is `parseInt` of the fourth. `attached` holds iff the third field parses to a count > 0. |
| TmuxDirectory.NonEmptyLines | server.js:45 | exactly the non-empty lines, and all of them when none is empty |
| TmuxDirectory.ParseAll | server.js:45-53 | all lines parsed in order, or nothing if one line throws |
| TmuxDirectory.ListSessions | server.js:38-58 | `[]` without tmux or on failure. When every non-empty line parses, there is exactly one session per line, in order, each the line's parse. When any line throws, the catch makes the whole result `[]`. |
| TmuxDirectory.SessionsEndpoint | server.js:134-147 | without tmux: no sessions and the install hint; otherwise the listing and no message |
| TmuxDirectory.ParseFormattedRow | server.js:44-52 | a line tmux prints for a session parses back to that session |
| TmuxDirectory.ListSessionsRoundTrip | server.js:38-58 | the whole output tmux prints for a list of sessions parses back to exactly those sessions |
| TmuxDirectory.RenameRejection | server.js:154-167 | accepted iff the trimmed current name is non-empty and the trimmed new name matches `^[\w\-.]+$`; each failure has its own message, checked in source order |
| TmuxDirectory.SpaceOrSlashRejected | server.js:165-167 | a new name with a slash, or with a space that trimming keeps, is rejected |
| ClientPolicy.Backoff | public/app.js:697 | the delay lies between 500 and 5000 and is either the cap or 500·2^attempts |
| ClientPolicy.BackoffSchedule | public/app.js:7-9 | attempts 0..4 wait 500, 1000, 2000, 4000 and 5000 ms |
| ClientPolicy.BackoffMonotone | public/app.js:697 | the delay never shrinks as attempts grow |
| ClientPolicy.BackoffDoubles | public/app.js:697 | each attempt doubles the delay up to the cap |
| ClientPolicy.BackoffCapped | public/app.js:697 | from the fourth attempt on, the delay is the cap |
| ClientPolicy.PageSize | public/app.js:1073 | a page is `max(1, ⌊3·rows/4⌋)`, pinned by its bounds; it is at least one line and, from two rows on, less than a screen |
| ClientPolicy.MaxViewportStart | public/app.js:1072 | the last viewport start is non-negative and leaves a screen of buffer |
| ClientPolicy.DirectionOf | public/app.js:1083-1095 | "up", "down" and "bottom" give the three known directions. Every other string gives `Unknown` with that name, so `Unknown` never names a known direction. |
| ClientPolicy.LocalScrollTarget | public/app.js:1066-1097 | page up goes to `max(0, start − page)` and page down to `min(last viewport start, start + page)`. `bottom` scrolls to the bottom. Anything else is not handled. |
| ClientPolicy.ScrollStaysInBuffer | public/app.js:1072-1089 | from a valid viewport start every page step lands on a valid one |
| ClientPolicy.PageDownThenUp | public/app.js:1083-1089 | away from both ends, page down then page up returns to the same line |
| ClientPolicy.ArrowSequence | public/app.js:916-923 | each arrow key is a three-byte CSI sequence |
| ClientPolicy.KeyData | public/app.js:902-926 | the control modifiers win over the key. Escape sends ESC, Tab sends `\t`, Enter sends `\r`, and an arrow sends its escape sequence. Anything else sends nothing. |
| ClientPolicy.TmuxCommandData | public/app.js:252-267 | Ctrl-B first, then the arrow's escape sequence, a plain `"` for `&quot;`, or the command itself |
| ClientPolicy.ArrowsAgree | public/app.js:255-262 | a tmux arrow command sends the prefix and then exactly what the arrow key sends |
| ClientPolicy.KeyDataInjective | public/app.js:902-924 | different keys send different bytes |
| ClientPolicy.TmuxCommandInjective | public/app.js:252-267 | different plain tmux commands send different bytes |
| ClientPolicy.CopyModeAfterCommand | public/app.js:274-278 | `[` enters copy mode, `q` leaves it, other commands keep it |
| ClientPolicy.SoftKeyData | public/app.js:1156-1175 | only prev, next and last send anything, and each sends a tmux command of one letter |
| ClientPolicy.TmuxScroll | public/app.js:1112-1139 | up and down enter copy mode first only when it is off, then page. `bottom` leaves copy mode and is handled only when copy mode was on. Anything else does nothing. |
| ClientPolicy.CopyModeEnteredOnce | public/app.js:1112-1128 | repeated paging enters copy mode at most once, and `bottom` then leaves it |
| SessionCache.SessionCache.constructor | public/app.js:11-14 | no cached listing, timestamp 0, nothing in flight |
| SessionCache.SessionCache.Invalidate | public/app.js:89-92 | the cache is emptied and its timestamp reset; any pending request is kept |
| SessionCache.SessionCache.Fetch | public/app.js:94-130 | an unforced fetch gets a fresh cache entry, else joins the pending request, else issues a new one that others will join. A forced fetch always issues a request and is never joined. |
| SessionCache.SessionCache.Complete | public/app.js:105-123 | an issued request settles. Success stores the listing with its time. Failure leaves the cache as it was. Either way the pending slot is emptied. |
| TabRecord.NewTab | public/app.js:459-466 | reconnecting is on iff the mode is tmux or attach. No attempts, timer or socket. The label defaults to `Terminal`. |
| TabRecord.Opened | public/app.js:601-604 | opening resets the attempt count and copy mode and marks an open tab connected, changing nothing else |
| TabRecord.OpenNotices | public/app.js:614-620 | the reconnected toast appears iff attempts had been made |
| TabRecord.AfterFrame | public/app.js:627-655 | `exit` and `error` turn reconnecting off and remember the reason; other frames leave the record alone |
| TabRecord.FrameNotices | public/app.js:627-651 | exit shows its code; an empty error message shows the default text |
| TabRecord.OnCloseStep | public/app.js:666-718 | `Connection closed` comes first. A retry is scheduled iff reconnecting is on and attempts < 5, with the backoff of the old count and the count raised by one. At five attempts reconnecting stops and the count resets. `disconnected` appears iff reconnecting was off and no `exit` or `error` explained the close. The reason is cleared. |
| TabRecord.AuthoritativeFrameEndsTab | public/app.js:629-717 | after an `exit` or `error` frame, the next close neither retries nor reports a disconnection |
| TabRecord.Connected | public/app.js:580-586 | a new socket is installed and any retry timer dropped; nothing else changes |
| TabRecord.FailuresFollowSchedule | public/app.js:677-705 | a reconnecting tab at attempt k whose every connection closes before opening schedules exactly the delays of `RetrySchedule(k)` |
| TabRecord.RetryScheduleShape | public/app.js:697-705 | that schedule is the backoff of attempts k, k + 1, …, 4 followed by a close that schedules nothing |
| TabRecord.GivesUpAfterFiveAttempts | public/app.js:677-705 | against a dead server, a tab at attempt k retries 5 − k more times with the backoff delays, then gives up |
| TabRecord.FreshTabRetrySchedule | public/app.js:697-705 | a fresh tmux tab waits 0.5, 1, 2, 4 and 5 s and then stops |
| TabController.Without | public/app.js:537-538 | removing a key keeps every other key in order and shortens the order |
| TabController.FirstIsOldest | public/app.js:554-556 | the first key of the map is the oldest open tab |
| TabController.App.OpenSocketOf | public/app.js:590 | the tab's socket exactly when it has one and it is open |
| TabController.App.constructor | public/app.js:2-4 | no tabs, nothing selected, tab ids start at 1 |
| TabController.App.SwitchTab | public/app.js:481-508 | an open tab becomes active; any other id leaves the selection alone |
| TabController.App.ConnectTerminal | public/app.js:576-586 | a closed tab is left alone. Otherwise a pending retry timer is cleared before one new connecting socket replaces the record's socket. The invariants are kept. |
| TabController.App.Attach | public/app.js:580-586 | the timer is cleared first, then the new socket is opened and installed; the invariants are kept |
| TabController.App.CreateTab | public/app.js:292-479 | the next id, a fresh record appended last in the order, one connecting socket for it, and the new tab selected |
| TabController.App.OnOpen | public/app.js:599-621 | `create` carries the tab's mode and session name. Attempts reset. The reconnected toast appears iff attempts had been made. |
| TabController.App.OnServerFrame | public/app.js:623-659 | output is written to the terminal. `exit` and `error` stop retrying and are remembered. An `error` also closes the socket. |
| TabController.App.OnSocketError | public/app.js:661-664 | an open tab is marked disconnected and nothing else changes |
| TabController.App.OnSocketClose | public/app.js:666-718 | a closed tab only forgets the socket; an open tab takes `OnCloseStep`, shows its notices and arms exactly the retry timer it asks for |
| TabController.App.ForgetSocket | public/app.js:667-670 | a socket of a closed tab is dropped from its record and nothing else happens |
| TabController.App.CloseStepTaken | public/app.js:672-717 | the close step of an open tab, with its notices in order and at most one new timer |
| TabController.App.OnRetryTimer | public/app.js:701-704 | the timer is no longer pending and its still-open tab reconnects with a fresh socket |
| TabController.App.RemoveTab | public/app.js:510-564 | retrying stops; the timer is cancelled; the chosen socket is closed; the tab leaves the order. A tmux-backed tab invalidates the cache. A closed active tab hands the selection to the first remaining tab. |
| TabController.App.Detach | public/app.js:513-538 | the record is retired, its timer cancelled and its socket closed as chosen, and the tab leaves the order |
| TabController.App.CloseTab | public/app.js:510-564 | an id that is not open changes nothing. Otherwise (`TabClosed`) the tab leaves the order and its record retires, and every other record is unchanged. Its timer is cleared and cancelled. Its socket, when open or still connecting, is set closing and `CloseSocket` is logged; every other socket is unchanged. A tmux or attach tab invalidates the cache, any other leaves it unchanged. A closed active tab hands the selection to the oldest remaining tab. No socket of a closed tab stays live. |
| TabController.App.CloseEvery | public/app.js:566-573 | `closeTab` on each id of a snapshot of the order. Afterwards (`ClosedEvery`) no tab is open or selected and no timer is pending. Every old tab holds its retired record. Every socket of an old tab that the close takes is closing, and every other socket is unchanged. The log gains each tab's cancelled timer and closed socket, in key order. The cache is invalidated iff some old tab was tmux or attach. |
| TabController.App.CloseAllTabs | public/app.js:566-573 | `ClosedEvery` where only open sockets are taken. If any socket was connecting, a live socket is left with no tab. |
| TabController.App.CloseAllTabsIntended | public/app.js:566-573 | `ClosedEvery` where open and connecting sockets are taken. No live socket is left without a tab. |
| TabController.ClosingEveryLeavesNoOrphans | public/app.js:566-573 | when every live socket has a tab, closing every tab with connecting sockets taken leaves no live socket |
| TabController.SocketsClosingOneMore | public/app.js:523-526 | closing the tabs one after another sets closing, for each tab, exactly the socket that closing it alone would |
| TabController.AllClosedStillCreates | public/app.js:566-573 | after all tabs are closed before a socket opens, that socket still sends `create` when it opens |
| TabController.App.CloseTabAsWritten | public/app.js:510-564 | the same post-state as `CloseTab`, except that only an open socket is set closing and logged. A socket that was still connecting stays connecting, so a live socket belongs to a closed tab. |
| TabController.ClosedTabStillCreates | public/app.js:599-612 | a tab closed before its socket opens still sends `create` when that socket opens |
| TabController.App.OnTermData | public/app.js:588-596 | keystrokes are sent iff the tab's socket is open |
| TabController.App.OnWindowResize | public/app.js:59-74 | the active tab's size is sent iff its socket is open |
| TabController.App.SendKey | public/app.js:896-932 | a recognised key is sent to the active tab iff its socket is open |
| TabController.App.SendTmuxCommand | public/app.js:245-278 | the command goes to the given tab, or else the active one, iff its socket is open. `[` and `q` set copy mode. The invariants are kept. |
| TabController.App.HandleTmuxSoftKey | public/app.js:1142-1175 | a known window key is sent iff the tab is open with an open socket |
| TabController.App.PerformScroll | public/app.js:1026-1044 | tmux tabs scroll through copy mode. Other tabs move their own viewport. `handled` says whether anything was done. |
| TabController.App.PerformTmuxScroll | public/app.js:1099-1140 | without an open socket nothing happens. Otherwise the bytes of `TmuxScroll` are sent and copy mode follows it. |

## Left out

- DOM, CSS, toasts and xterm rendering are not modelled. They appear only as `Notice` values and terminal writes in the effect log. Toast dismissal, toast variants and durations, and button animations are left out.
- Touch and wheel scrolling and the scroll indicator (public/app.js:964-1023, 1188-1227) are not modelled. `PerformScroll` takes the viewport start, buffer length and rows as parameters.
- Sockets, ptys, timers, `execSync` and `spawnSync` are represented by their outcomes only: oracle parameters (`Oracle`, `tmuxAvailable`, `renameOk`, `stderr`) and effect-log entries. `which tmux` is one boolean per handler call.
- `Date.now()` and real time are not modelled. Terminal ids, `tailmux-` stamps and cache times are parameters. A terminal id is kept as the millisecond stamp rather than its decimal string; the two are in one-to-one correspondence.
- The environment configuration (server.js:18-25) is taken as three integers given to the `Server` constructor. The listen port and the static and JSON middleware are left out.
- Malformed JSON frames are not modelled: they are dropped before any handler runs. `create` fields arrive already decoded; a missing field is `""` or 0.
- `getTmuxSessions` returns created times as `Date` ISO strings. The model keeps the parsed seconds and only records whether formatting succeeds.
- The doubles behind `parseInt`, `Math.pow` and `Math.floor(rows * 0.75)` are treated as exact integers. Attempt counts never exceed 5, so the backoff never leaves the exact range.
- `fetchSessions` promises are modelled as explicit `Fetch` and `Complete` steps. Which caller receives which result is left out.
- The dashboard, the session selector, `attachToSession`, `createSession`, the rename button and the mobile panels are UI that calls the modelled operations. They are not modelled themselves.
- `closeAllTabs`' confirmation dialog is not modelled: `CloseAllTabs` is the confirmed path. The `toggleDashboard` call after it is user interface and is left out.
- CreateTab: the default `requestedSessionName = sessionLabel` of `createTab` is not modelled; the caller passes the session name explicitly, as both call sites in public/app.js do.
- `updateTabStatus` is modelled only as the record's `connected` flag. The status dot and the dashboard refresh are UI.
- Logging is not modelled.
- TerminalServer.Server.HeartbeatTick: requires a positive interval, because the interval is never started otherwise (server.js:185). The termination of a socket is modelled as the socket closing. The session's teardown follows through `OnClose`, as it does in the server.
- TerminalServer.Server.OnCreate: the timer-matching invariant `TimersMatchSessions` is promised only when the new terminal id is not already registered. Two `create`s in the same millisecond can collide, and the source does nothing about it.
- TerminalServer.Server.Start: `ready` is appended to the log before the idle timer is armed. Arming leaves no trace in the log, so the order is not observable in the model.
- TabController.App.ConnectTerminal: requires that an open tab's socket is already gone. Both callers guarantee this: `createTab` calls it on a fresh record, and the retry timer fires only after `onclose`. The socket that would be replaced is therefore never modelled.
- TabController.App.OnTermData: the terminal's `onData` handler is disposed when its tab closes. In the model, a closed tab's record has no socket, so the handler sends nothing, which has the same effect.
- TabController.App.PerformScroll: the source returns nothing. `handled` stands for the scroll-indicator refresh, which is left out.

A tmux tab does not reconnect after an idle timeout: the timeout reaches the
browser as an `error` frame, and every `error` frame turns reconnecting off
(public/app.js:639-640), whatever the tab's mode
(`TabRecord.AuthoritativeFrameEndsTab`).

## Findings

| source | as written | input that shows it | evidently intended | confidence | as-written member | corrected member |
|---|---|---|---|---|---|---|
| public/app.js:523-526 | `closeTab` closes the tab's socket only when it is already OPEN, then forgets it. A socket still CONNECTING survives. Its `onopen` (public/app.js:599-612) still sends `create`, so the server starts a terminal, or a tmux attach, for a tab that no longer exists. | `createTab` of a tmux tab, then `closeTab` on it before its socket opens, then the socket opens: `create` goes out for the closed tab (`ClosedTabStillCreates`) | closing a tab also closes a socket that is still connecting, so no socket of a closed tab reaches the server | not executed | TabController.App.CloseTabAsWritten | TabController.App.CloseTab |
| public/app.js:569-570 | `closeAllTabs` closes every tab with the same `closeTab`, so it leaves every still-CONNECTING socket alive, with no tab left to own it. Each such socket's `onopen` still sends `create`. | `createTab` of a tmux tab, then `closeAllTabs` before its socket opens, then the socket opens: `create` goes out while no tab is open (`AllClosedStillCreates`) | closing all tabs leaves no live socket behind | not executed | TabController.App.CloseAllTabs | TabController.App.CloseAllTabsIntended |
