/**
 * One browser tab's record and the reconnect state machine its socket
 * handlers drive: what `onopen`, an `exit` or `error` frame and `onclose` do
 * to `shouldReconnect`, `reconnectAttempts`, `reconnectTimer` and
 * `lastCloseReason`, and which notices the user sees.
 */
module TabRecord {
  import opened Wrappers
  import opened Protocol
  import opened ClientPolicy

  type SocketId = nat
  type TimerId = nat

  /** `lastCloseReason`: set by an authoritative frame, read by the next close. */
  datatype CloseReason = ExitFrame | ErrorFrame

  datatype Tab = Tab(
    mode: string,
    sessionName: string,
    sessionLabel: string,
    socket: Option<SocketId>,
    connected: bool,
    tmuxCopyModeActive: bool,
    shouldReconnect: bool,
    reconnectAttempts: nat,
    reconnectTimer: Option<TimerId>,
    lastCloseReason: Option<CloseReason>)

  /** Lines written into the terminal and toasts shown for a tab. */
  datatype Notice =
    | ConnectionClosed
    | ReconnectingIn(attempt: nat, delay: nat)
    | AttemptsExhausted
    | Disconnected
    | Reconnected
    | ProcessExited(exitCode: int)
    | ErrorShown(message: string)

  predicate TmuxMode(mode: string) {
    mode == "tmux" || mode == "attach"
  }

  const DEFAULT_LABEL := "Terminal"
  const UNKNOWN_ERROR := "An unknown error occurred."

  /** The record `createTab` stores: not connected, no socket yet, and reconnecting only for tmux-backed modes. */
  function NewTab(requestedLabel: string, mode: string, requestedSessionName: string): (tab: Tab)
    ensures tab.shouldReconnect <==> TmuxMode(mode)
    ensures tab.reconnectAttempts == 0 && tab.reconnectTimer.None? && tab.socket.None?
    ensures !tab.connected && !tab.tmuxCopyModeActive && tab.lastCloseReason.None?
    ensures tab.mode == mode && tab.sessionName == requestedSessionName
    ensures tab.sessionLabel != "" && (requestedLabel != "" ==> tab.sessionLabel == requestedLabel)
  {
    Tab(mode, requestedSessionName, if requestedLabel == "" then DEFAULT_LABEL else requestedLabel,
        None, false, false, TmuxMode(mode), 0, None, None)
  }

  /** `onopen`: the attempt counter is reset and copy mode is off; `live` says whether the tab is still in the map. */
  function Opened(tab: Tab, live: bool): (r: Tab)
    ensures r.reconnectAttempts == 0 && !r.tmuxCopyModeActive
    ensures r.connected == (live || tab.connected)
    ensures r == tab.(reconnectAttempts := 0, tmuxCopyModeActive := false, connected := r.connected)
  {
    tab.(reconnectAttempts := 0, tmuxCopyModeActive := false, connected := live || tab.connected)
  }

  /** The notices of `onopen`: a reconnected toast exactly when attempts had been made. */
  function OpenNotices(tab: Tab): (notices: seq<Notice>)
    ensures Reconnected in notices <==> tab.reconnectAttempts > 0
    ensures |notices| <= 1
  {
    if tab.reconnectAttempts > 0 then [Reconnected] else []
  }

  /**
   * A server frame. `exit` and `error` are authoritative: retrying stops
   * and the reason is remembered for the close that follows.
   */
  function AfterFrame(tab: Tab, frame: ServerFrame, live: bool): (r: Tab)
    ensures frame.Exit? || frame.Error? ==>
      && !r.shouldReconnect
      && r.lastCloseReason == Some(if frame.Exit? then ExitFrame else ErrorFrame)
      && r.connected == (tab.connected && !live)
      && r == tab.(shouldReconnect := false, lastCloseReason := r.lastCloseReason, connected := r.connected)
    ensures frame.Output? || frame.Ready? ==> r == tab
  {
    match frame
    case Exit(_) => tab.(shouldReconnect := false, lastCloseReason := Some(ExitFrame), connected := tab.connected && !live)
    case Error(_) => tab.(shouldReconnect := false, lastCloseReason := Some(ErrorFrame), connected := tab.connected && !live)
    case _ => tab
  }

  /** What the terminal and the toasts show for a frame. */
  function FrameNotices(frame: ServerFrame): (notices: seq<Notice>)
    ensures frame.Exit? ==> notices == [ProcessExited(frame.exitCode)]
    ensures frame.Error? ==> notices == [ErrorShown(if frame.message == "" then UNKNOWN_ERROR else frame.message)]
    ensures frame.Output? || frame.Ready? ==> notices == []
  {
    match frame
    case Exit(code) => [ProcessExited(code)]
    case Error(message) => [ErrorShown(if message == "" then UNKNOWN_ERROR else message)]
    case _ => []
  }

  /** What `onclose` did to a tab still in the map: its new record, what it showed, and the delay of the retry it scheduled. */
  datatype CloseStep = CloseStep(tab: Tab, notices: seq<Notice>, retry: Option<nat>)

  /**
   * `onclose` for a tab still in the map, with `timer` the handle a retry
   * would get. The connection-closed line always comes first; a retry is
   * scheduled exactly when reconnecting is on and fewer than five attempts
   * were made, after `Backoff` of the attempts so far; at five attempts the
   * tab gives up; and the disconnected toast appears only when reconnecting
   * was off and no `exit` or `error` frame explained the close.
   */
  function OnCloseStep(tab: Tab, timer: TimerId): (r: CloseStep)
    ensures r.tab.socket.None? && !r.tab.connected && !r.tab.tmuxCopyModeActive && r.tab.lastCloseReason.None?
    ensures r.tab.mode == tab.mode && r.tab.sessionName == tab.sessionName && r.tab.sessionLabel == tab.sessionLabel
    ensures |r.notices| >= 1 && r.notices[0] == ConnectionClosed
    ensures r.retry.Some? <==> tab.shouldReconnect && tab.reconnectAttempts < MAX_RECONNECT_ATTEMPTS
    ensures r.retry.Some? ==>
      && r.retry.value == Backoff(tab.reconnectAttempts)
      && r.tab.shouldReconnect && r.tab.reconnectAttempts == tab.reconnectAttempts + 1
      && r.tab.reconnectTimer == Some(timer)
    ensures r.retry.None? ==>
      !r.tab.shouldReconnect && r.tab.reconnectAttempts == 0 && r.tab.reconnectTimer == tab.reconnectTimer
    ensures AttemptsExhausted in r.notices <==> tab.shouldReconnect && tab.reconnectAttempts >= MAX_RECONNECT_ATTEMPTS
    ensures Disconnected in r.notices <==> !tab.shouldReconnect && tab.lastCloseReason.None?
  {
    var closed := tab.(socket := None, connected := false, tmuxCopyModeActive := false);
    if tab.shouldReconnect then
      if tab.reconnectAttempts >= MAX_RECONNECT_ATTEMPTS then
        CloseStep(closed.(shouldReconnect := false, reconnectAttempts := 0, lastCloseReason := None),
                  [ConnectionClosed, AttemptsExhausted], None)
      else
        var nextAttempt := tab.reconnectAttempts + 1;
        var delay := Backoff(tab.reconnectAttempts);
        CloseStep(closed.(reconnectAttempts := nextAttempt, reconnectTimer := Some(timer), lastCloseReason := None),
                  [ConnectionClosed, ReconnectingIn(nextAttempt, delay)], Some(delay))
    else
      CloseStep(closed.(reconnectAttempts := 0, lastCloseReason := None),
                [ConnectionClosed] + (if tab.lastCloseReason.None? then [Disconnected] else []), None)
  }

  /** After an `exit` or `error` frame, the close that follows neither retries nor reports a disconnection. */
  lemma AuthoritativeFrameEndsTab(tab: Tab, frame: ServerFrame, live: bool, timer: TimerId)
    requires frame.Exit? || frame.Error?
    ensures var step := OnCloseStep(AfterFrame(tab, frame, live), timer);
      step.retry.None? && Disconnected !in step.notices && !step.tab.shouldReconnect
  {
  }

  /** `connectTerminal` on the record: any retry timer is dropped and the new socket installed. */
  function Connected(tab: Tab, socket: SocketId): (r: Tab)
    ensures r.socket == Some(socket) && r.reconnectTimer.None?
    ensures r.(socket := tab.socket, reconnectTimer := tab.reconnectTimer) == tab
  {
    tab.(socket := Some(socket), reconnectTimer := None)
  }

  /**
   * The delays of `n` consecutive connections that all close before opening,
   * the retry timer firing in between; `None` marks a close that scheduled
   * nothing.
   */
  function FailureDelays(tab: Tab, n: nat): (delays: seq<Option<nat>>)
    ensures |delays| == n
    decreases n
  {
    if n == 0 then []
    else
      var step := OnCloseStep(tab, 0);
      [step.retry] + FailureDelays(Connected(step.tab, 0), n - 1)
  }

  /**
   * One close of a connection that never opened, unfolded: a tab below the
   * limit schedules `Backoff` of its attempts and comes back one attempt
   * further on, a tab at the limit schedules nothing.
   */
  lemma FailureUnfolds(tab: Tab, n: nat) returns (next: Tab)
    requires tab.shouldReconnect && tab.reconnectAttempts <= MAX_RECONNECT_ATTEMPTS
    ensures FailureDelays(tab, n + 1) ==
      [if tab.reconnectAttempts < MAX_RECONNECT_ATTEMPTS then Some(Backoff(tab.reconnectAttempts)) else None]
      + FailureDelays(next, n)
    ensures tab.reconnectAttempts < MAX_RECONNECT_ATTEMPTS ==>
      next.shouldReconnect && next.reconnectAttempts == tab.reconnectAttempts + 1
  {
    next := Connected(OnCloseStep(tab, 0).tab, 0);
  }

  /** The delays a tab with `k` attempts made goes on to schedule: one backoff per remaining attempt, then nothing. */
  function RetrySchedule(k: nat): (delays: seq<Option<nat>>)
    requires k <= MAX_RECONNECT_ATTEMPTS
    ensures |delays| == MAX_RECONNECT_ATTEMPTS - k + 1
    decreases MAX_RECONNECT_ATTEMPTS - k
  {
    if k < MAX_RECONNECT_ATTEMPTS then [Some(Backoff(k))] + RetrySchedule(k + 1) else [None]
  }

  /** The schedule from `k` is `Backoff(k)`, `Backoff(k + 1)`, ..., `Backoff(4)`, then `None`. */
  lemma {:induction false} RetryScheduleShape(k: nat)
    requires k <= MAX_RECONNECT_ATTEMPTS
    ensures forall i :: 0 <= i < MAX_RECONNECT_ATTEMPTS - k ==> RetrySchedule(k)[i] == Some(Backoff(k + i))
    ensures RetrySchedule(k)[MAX_RECONNECT_ATTEMPTS - k] == None
    decreases MAX_RECONNECT_ATTEMPTS - k
  {
    if k < MAX_RECONNECT_ATTEMPTS {
      RetryScheduleShape(k + 1);
      var delays, rest := RetrySchedule(k), RetrySchedule(k + 1);
      forall i | 0 <= i < MAX_RECONNECT_ATTEMPTS - k
        ensures delays[i] == Some(Backoff(k + i))
      {
        if i > 0 {
          assert delays[i] == rest[i - 1];
        }
      }
    }
  }

  /** A reconnecting tab with `k` attempts made, facing a server that never answers, follows `RetrySchedule(k)`. */
  lemma {:induction false} FailuresFollowSchedule(tab: Tab, k: nat)
    requires tab.shouldReconnect && tab.reconnectAttempts == k <= MAX_RECONNECT_ATTEMPTS
    ensures FailureDelays(tab, MAX_RECONNECT_ATTEMPTS - k + 1) == RetrySchedule(k)
    decreases MAX_RECONNECT_ATTEMPTS - k
  {
    var next := FailureUnfolds(tab, MAX_RECONNECT_ATTEMPTS - k);
    if k < MAX_RECONNECT_ATTEMPTS {
      FailuresFollowSchedule(next, k + 1);
    }
  }

  /**
   * Against a server that never answers, a tab that starts with `k` attempts
   * retries `5 - k` more times and then gives up for good.
   */
  lemma GivesUpAfterFiveAttempts(tab: Tab, k: nat)
    requires tab.shouldReconnect && tab.reconnectAttempts == k <= MAX_RECONNECT_ATTEMPTS
    ensures var delays := FailureDelays(tab, MAX_RECONNECT_ATTEMPTS - k + 1);
      && |delays| == MAX_RECONNECT_ATTEMPTS - k + 1
      && (forall i :: 0 <= i < MAX_RECONNECT_ATTEMPTS - k ==> delays[i] == Some(Backoff(k + i)))
      && delays[MAX_RECONNECT_ATTEMPTS - k] == None
  {
    FailuresFollowSchedule(tab, k);
    RetryScheduleShape(k);
  }

  /** A fresh tmux tab facing a dead server waits 0.5, 1, 2, 4 and 5 seconds, then stops. */
  lemma FreshTabRetrySchedule(requestedLabel: string, mode: string, name: string)
    requires TmuxMode(mode)
    ensures FailureDelays(NewTab(requestedLabel, mode, name), 6) == [Some(500), Some(1000), Some(2000), Some(4000), Some(5000), None]
  {
    var delays := FailureDelays(NewTab(requestedLabel, mode, name), 6);
    GivesUpAfterFiveAttempts(NewTab(requestedLabel, mode, name), 0);
    BackoffSchedule();
    assert delays[0] == Some(Backoff(0)) && delays[1] == Some(Backoff(1)) && delays[2] == Some(Backoff(2));
    assert delays[3] == Some(Backoff(3)) && delays[4] == Some(Backoff(4));
  }
}
