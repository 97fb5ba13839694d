/**
 * The browser's tab manager: the ordered map of open tabs, the active tab,
 * each tab's WebSocket and retry timer, and the handlers that the sockets,
 * timers and buttons invoke. Sockets and timers are explicit: a socket is an
 * entry whose `readyState` the handlers advance, a timer an entry removed
 * when it fires or is cleared. Everything the page would do to the outside
 * world is appended to `log`.
 *
 * A tab's record outlives its place in `tabs`: the socket handlers created by
 * `connectTerminal` keep a reference to it, so `records` holds every record
 * ever created and `tabs` says which are still open.
 */
module TabController {
  import opened Wrappers
  import opened Protocol
  import opened ClientPolicy
  import opened TabRecord
  import SessionCache
  import TmuxDirectory
  import opened Maps

  /** `tab-${n}`: tab ids are numbered from 1 in creation order. */
  type TabId = nat

  /** `WebSocket.readyState`. */
  datatype ReadyState = Connecting | Open | Closing | Closed

  datatype Socket = Socket(tab: TabId, readyState: ReadyState)

  /** A socket that is connecting or open still reaches the server. */
  predicate Live(state: ReadyState) {
    state == Connecting || state == Open
  }

  datatype Effect =
    | OpenSocket(socket: SocketId)
    | Send(socket: SocketId, frame: ClientFrame)
    | CloseSocket(socket: SocketId)
    | Show(tab: TabId, notice: Notice)
    | Write(tab: TabId, data: string)
    | StartTimer(timer: TimerId, delay: nat)
    | CancelTimer(timer: TimerId)
    | ScrollViewport(tab: TabId, target: LocalScroll)

  /** The notices of one handler, shown on tab `t` in order. */
  function Shows(t: TabId, notices: seq<Notice>): (effects: seq<Effect>)
    ensures |effects| == |notices|
    ensures forall i :: 0 <= i < |notices| ==> effects[i] == Show(t, notices[i])
  {
    if notices == [] then [] else [Show(t, notices[0])] + Shows(t, notices[1..])
  }

  /** Keystrokes sent as `input` frames on socket `s`, in order. */
  function Inputs(s: SocketId, data: seq<string>): (effects: seq<Effect>)
    ensures |effects| == |data|
    ensures forall i :: 0 <= i < |data| ==> effects[i] == Send(s, Input(data[i]))
  {
    if data == [] then [] else [Send(s, Input(data[0]))] + Inputs(s, data[1..])
  }

  /** Ids in strictly increasing order, which is creation order. */
  predicate Increasing(ids: seq<TabId>) {
    forall i, j :: 0 <= i < j < |ids| ==> ids[i] < ids[j]
  }

  /** `tabs.delete(t)` on the key order. */
  function Without(ids: seq<TabId>, t: TabId): (r: seq<TabId>)
    ensures forall u :: u in r <==> u in ids && u != t
    ensures Increasing(ids) ==> Increasing(r)
    ensures |r| <= |ids| && (t in ids ==> |r| < |ids|)
  {
    if ids == [] then []
    else if ids[0] == t then Without(ids[1..], t)
    else
      var rest := Without(ids[1..], t);
      assert Increasing(ids) ==> forall u :: u in rest ==> ids[0] < u by {
        if Increasing(ids) {
          forall u | u in rest
            ensures ids[0] < u
          {
            var k :| 0 <= k < |ids[1..]| && ids[1..][k] == u;
            assert ids[k + 1] == u;
          }
        }
      }
      var r := [ids[0]] + rest;
      assert Increasing(ids) ==> Increasing(r) by {
        if Increasing(ids) {
          forall i, j | 0 <= i < j < |r|
            ensures r[i] < r[j]
          {
            assert r[j] == rest[j - 1] && rest[j - 1] in rest;
            if i > 0 {
              assert r[i] == rest[i - 1];
            }
          }
        }
      }
      r
  }

  /** The first key of an increasing order is its oldest tab. */
  lemma FirstIsOldest(ids: seq<TabId>)
    requires Increasing(ids) && ids != []
    ensures forall u :: u in ids ==> ids[0] <= u
  {
  }

  /** Open tabs are in creation order and have records; every record has an id already handed out. */
  ghost predicate Registry(tabs: seq<TabId>, records: map<TabId, Tab>, nextTabId: nat) {
    && 0 < nextTabId
    && Increasing(tabs)
    && (forall t :: t in tabs ==> t in records)
    && (forall t :: t in records ==> 0 < t < nextTabId)
  }

  /**
   * A record's socket exists, belongs to it and has not finished closing;
   * every socket was handed out and belongs to a record.
   */
  ghost predicate SocketsOwned(records: map<TabId, Tab>, sockets: map<SocketId, Socket>, nextSocket: nat) {
    && (forall s :: s in sockets ==> s < nextSocket && sockets[s].tab in records)
    && (forall t :: t in records && records[t].socket.Some? ==>
          && records[t].socket.value in sockets
          && sockets[records[t].socket.value].tab == t
          && sockets[records[t].socket.value].readyState != Closed)
  }

  /** An open tab's socket that has not finished closing is the one its record holds. */
  ghost predicate OneSocketPerTab(tabs: seq<TabId>, records: map<TabId, Tab>, sockets: map<SocketId, Socket>) {
    forall s :: s in sockets && sockets[s].readyState != Closed && sockets[s].tab in tabs ==>
      sockets[s].tab in records && records[sockets[s].tab].socket == Some(s)
  }

  /**
   * A pending timer belongs to an open tab whose record holds it, and a
   * record holding a timer has no socket.
   */
  ghost predicate TimersOwned(tabs: seq<TabId>, records: map<TabId, Tab>, timers: map<TimerId, TabId>, nextTimer: nat) {
    && (forall h :: h in timers ==>
          && h < nextTimer && timers[h] in tabs && timers[h] in records
          && records[timers[h]].reconnectTimer == Some(h))
    && (forall t :: t in records && records[t].reconnectTimer.Some? ==>
          && records[t].socket.None?
          && records[t].reconnectTimer.value in timers
          && timers[records[t].reconnectTimer.value] == t)
  }

  ghost predicate AttemptsBounded(records: map<TabId, Tab>) {
    forall t :: t in records ==> records[t].reconnectAttempts <= MAX_RECONNECT_ATTEMPTS
  }

  /** Every socket that still reaches the server belongs to an open tab. */
  ghost predicate NoOrphanSockets(tabs: seq<TabId>, sockets: map<SocketId, Socket>) {
    forall s :: s in sockets && Live(sockets[s].readyState) ==> sockets[s].tab in tabs
  }

  /** The invariant of the tab manager's state. */
  ghost predicate Consistent(tabs: seq<TabId>, records: map<TabId, Tab>, activeTabId: Option<TabId>, nextTabId: nat,
                             sockets: map<SocketId, Socket>, timers: map<TimerId, TabId>, nextSocket: nat, nextTimer: nat)
  {
    && Registry(tabs, records, nextTabId)
    && (activeTabId.Some? ==> activeTabId.value in tabs)
    && AttemptsBounded(records)
    && SocketsOwned(records, sockets, nextSocket)
    && OneSocketPerTab(tabs, records, sockets)
    && TimersOwned(tabs, records, timers, nextTimer)
  }

  /** Clearing a tab's pending retry timer. */
  lemma TimerCleared(tabs: seq<TabId>, records: map<TabId, Tab>, activeTabId: Option<TabId>, nextTabId: nat,
                     sockets: map<SocketId, Socket>, timers: map<TimerId, TabId>, nextSocket: nat, nextTimer: nat, t: TabId,
                     records': map<TabId, Tab>, timers': map<TimerId, TabId>)
    requires Consistent(tabs, records, activeTabId, nextTabId, sockets, timers, nextSocket, nextTimer)
    requires t in records && records[t].reconnectTimer.Some?
    requires records' == records[t := records[t].(reconnectTimer := None)]
    requires timers' == timers - {records[t].reconnectTimer.value}
    ensures Consistent(tabs, records', activeTabId, nextTabId, sockets, timers', nextSocket, nextTimer)
  {
    TimerDropped(tabs, tabs, records, timers, nextTimer, t, records'[t]);
  }

  /** The effects of `clearTimeout` on a timer that may be pending. */
  function Cancelled(timer: Option<TimerId>): (effects: seq<Effect>)
    ensures effects == [] <==> timer.None?
    ensures timer.Some? ==> effects == [CancelTimer(timer.value)]
  {
    if timer.Some? then [CancelTimer(timer.value)] else []
  }

  /** The pending timers once `timer`, if any, is cleared. */
  function Cleared(timers: map<TimerId, TabId>, timer: Option<TimerId>): (r: map<TimerId, TabId>)
    ensures timer.Some? ==> timer.value !in r
    ensures forall h :: h in r <==> h in timers && timer != Some(h)
    ensures forall h :: h in r ==> r[h] == timers[h]
  {
    if timer.Some? then timers - {timer.value} else timers
  }

  /** `createTab` before connecting: the next id gets a record without socket or timer and joins the end of the order. */
  lemma TabAdded(tabs: seq<TabId>, records: map<TabId, Tab>, activeTabId: Option<TabId>, nextTabId: nat,
                 sockets: map<SocketId, Socket>, timers: map<TimerId, TabId>, nextSocket: nat, nextTimer: nat, tab: Tab,
                 tabs': seq<TabId>, records': map<TabId, Tab>, nextTabId': nat)
    requires Consistent(tabs, records, activeTabId, nextTabId, sockets, timers, nextSocket, nextTimer)
    requires tab.socket.None? && tab.reconnectTimer.None? && tab.reconnectAttempts == 0
    requires tabs' == tabs + [nextTabId] && records' == records[nextTabId := tab] && nextTabId' == nextTabId + 1
    ensures nextTabId !in records
    ensures Consistent(tabs', records', activeTabId, nextTabId', sockets, timers, nextSocket, nextTimer)
  {
    var t := nextTabId;
    assert Increasing(tabs + [t]) by {
      forall i, j | 0 <= i < j < |tabs + [t]|
        ensures (tabs + [t])[i] < (tabs + [t])[j]
      {
        assert (tabs + [t])[i] == tabs[i] && tabs[i] in tabs;
      }
    }
    forall u | u in tabs + [t]
      ensures u in records[t := tab]
    {
      if u != t {
        assert u in tabs;
      }
    }
  }

  /** `connectTerminal` on an open tab without a socket: its timer cleared and a new socket installed. */
  lemma Reconnecting(tabs: seq<TabId>, records: map<TabId, Tab>, activeTabId: Option<TabId>, nextTabId: nat,
                     sockets: map<SocketId, Socket>, timers: map<TimerId, TabId>, nextSocket: nat, nextTimer: nat, t: TabId,
                     records': map<TabId, Tab>, sockets': map<SocketId, Socket>, timers': map<TimerId, TabId>, nextSocket': nat)
    requires Consistent(tabs, records, activeTabId, nextTabId, sockets, timers, nextSocket, nextTimer)
    requires t in tabs && records[t].socket.None?
    requires && records' == records[t := Connected(records[t], nextSocket)]
             && sockets' == sockets[nextSocket := Socket(t, Connecting)]
             && timers' == Cleared(timers, records[t].reconnectTimer)
             && nextSocket' == nextSocket + 1
    ensures Consistent(tabs, records', activeTabId, nextTabId, sockets', timers', nextSocket', nextTimer)
  {
    var r := Connected(records[t], nextSocket);
    SocketAttached(tabs, records, sockets, nextSocket, t, r);
    TimerDropped(tabs, tabs, records, timers, nextTimer, t, r);
  }

  /** A new connecting socket installed in an open tab's record that had none. */
  lemma SocketAttached(tabs: seq<TabId>, records: map<TabId, Tab>, sockets: map<SocketId, Socket>, nextSocket: nat,
                       t: TabId, r: Tab)
    requires SocketsOwned(records, sockets, nextSocket) && OneSocketPerTab(tabs, records, sockets)
    requires t in records && records[t].socket.None? && r.socket == Some(nextSocket)
    ensures SocketsOwned(records[t := r], sockets[nextSocket := Socket(t, Connecting)], nextSocket + 1)
    ensures OneSocketPerTab(tabs, records[t := r], sockets[nextSocket := Socket(t, Connecting)])
  {
  }

  /**
   * Tab `t`'s record drops its timer, which stops being pending, while the
   * open tabs stay the same apart from possibly `t`.
   */
  lemma TimerDropped(tabs: seq<TabId>, tabs': seq<TabId>, records: map<TabId, Tab>, timers: map<TimerId, TabId>,
                     nextTimer: nat, t: TabId, r: Tab)
    requires TimersOwned(tabs, records, timers, nextTimer) && t in records && r.reconnectTimer.None?
    requires forall u :: u in tabs' ==> u in tabs
    requires forall u :: u in tabs && u != t ==> u in tabs'
    ensures TimersOwned(tabs', records[t := r], Cleared(timers, records[t].reconnectTimer), nextTimer)
  {
  }

  /** A record change that keeps the tab's socket, timer and attempt bound. */
  lemma RecordUpdated(tabs: seq<TabId>, records: map<TabId, Tab>, activeTabId: Option<TabId>, nextTabId: nat,
                      sockets: map<SocketId, Socket>, timers: map<TimerId, TabId>, nextSocket: nat, nextTimer: nat,
                      t: TabId, r: Tab)
    requires Consistent(tabs, records, activeTabId, nextTabId, sockets, timers, nextSocket, nextTimer)
    requires t in records && r.socket == records[t].socket && r.reconnectTimer == records[t].reconnectTimer
    requires r.reconnectAttempts <= MAX_RECONNECT_ATTEMPTS
    ensures Consistent(tabs, records[t := r], activeTabId, nextTabId, sockets, timers, nextSocket, nextTimer)
  {
  }

  /** A socket moving between states short of closed. */
  lemma SocketAdvanced(tabs: seq<TabId>, records: map<TabId, Tab>, activeTabId: Option<TabId>, nextTabId: nat,
                       sockets: map<SocketId, Socket>, timers: map<TimerId, TabId>, nextSocket: nat, nextTimer: nat,
                       s: SocketId, state: ReadyState)
    requires Consistent(tabs, records, activeTabId, nextTabId, sockets, timers, nextSocket, nextTimer)
    requires s in sockets && sockets[s].readyState != Closed && state != Closed
    ensures Consistent(tabs, records, activeTabId, nextTabId, sockets[s := Socket(sockets[s].tab, state)], timers, nextSocket, nextTimer)
  {
  }

  /** A server frame on an open socket: the record takes `AfterFrame` and an `error` starts closing the socket. */
  lemma FrameApplied(tabs: seq<TabId>, records: map<TabId, Tab>, activeTabId: Option<TabId>, nextTabId: nat,
                     sockets: map<SocketId, Socket>, timers: map<TimerId, TabId>, nextSocket: nat, nextTimer: nat,
                     s: SocketId, frame: ServerFrame, records': map<TabId, Tab>, sockets': map<SocketId, Socket>)
    requires Consistent(tabs, records, activeTabId, nextTabId, sockets, timers, nextSocket, nextTimer)
    requires s in sockets && sockets[s].readyState == Open
    requires var t := sockets[s].tab;
      && records' == records[t := AfterFrame(records[t], frame, t in tabs)]
      && sockets' == (if frame.Error? then sockets[s := Socket(t, Closing)] else sockets)
    ensures Consistent(tabs, records', activeTabId, nextTabId, sockets', timers, nextSocket, nextTimer)
  {
    var t := sockets[s].tab;
    RecordUpdated(tabs, records, activeTabId, nextTabId, sockets, timers, nextSocket, nextTimer, t, records'[t]);
    if frame.Error? {
      SocketAdvanced(tabs, records', activeTabId, nextTabId, sockets, timers, nextSocket, nextTimer, s, Closing);
    }
  }

  /** `onclose` of a socket whose tab was closed: only the record's socket is dropped. */
  lemma OrphanClosed(tabs: seq<TabId>, records: map<TabId, Tab>, activeTabId: Option<TabId>, nextTabId: nat,
                     sockets: map<SocketId, Socket>, timers: map<TimerId, TabId>, nextSocket: nat, nextTimer: nat,
                     s: SocketId)
    requires Consistent(tabs, records, activeTabId, nextTabId, sockets, timers, nextSocket, nextTimer)
    requires s in sockets && sockets[s].readyState != Closed && sockets[s].tab !in tabs
    ensures var t := sockets[s].tab;
      Consistent(tabs, records[t := records[t].(socket := None)], activeTabId, nextTabId,
                 sockets[s := Socket(t, Closed)], timers, nextSocket, nextTimer)
  {
  }

  /**
   * `onclose` of an open tab's socket: the record takes the close step and a
   * retry, if any, becomes a pending timer under the next handle.
   */
  lemma OpenTabClosed(tabs: seq<TabId>, records: map<TabId, Tab>, activeTabId: Option<TabId>, nextTabId: nat,
                      sockets: map<SocketId, Socket>, timers: map<TimerId, TabId>, nextSocket: nat, nextTimer: nat,
                      s: SocketId, records': map<TabId, Tab>, sockets': map<SocketId, Socket>,
                      timers': map<TimerId, TabId>, nextTimer': nat)
    requires Consistent(tabs, records, activeTabId, nextTabId, sockets, timers, nextSocket, nextTimer)
    requires s in sockets && sockets[s].readyState != Closed && sockets[s].tab in tabs
    requires var t := sockets[s].tab;
      var step := OnCloseStep(records[t], nextTimer);
      && records' == records[t := step.tab]
      && sockets' == sockets[s := Socket(t, Closed)]
      && timers' == (if step.retry.Some? then timers[nextTimer := t] else timers)
      && nextTimer' == (if step.retry.Some? then nextTimer + 1 else nextTimer)
    ensures Consistent(tabs, records', activeTabId, nextTabId, sockets', timers', nextSocket, nextTimer')
  {
    var t := sockets[s].tab;
    var step := OnCloseStep(records[t], nextTimer);
    assert records[t].socket == Some(s) && records[t].reconnectTimer.None?;
    SocketRetired(tabs, records, sockets, nextSocket, s, step.tab);
    TimerArmed(tabs, records, timers, nextTimer, t, step.tab, timers', nextTimer');
  }

  /** Closing an open tab's socket while its record drops it. */
  lemma SocketRetired(tabs: seq<TabId>, records: map<TabId, Tab>, sockets: map<SocketId, Socket>, nextSocket: nat,
                      s: SocketId, r: Tab)
    requires SocketsOwned(records, sockets, nextSocket) && OneSocketPerTab(tabs, records, sockets)
    requires s in sockets && sockets[s].readyState != Closed && sockets[s].tab in tabs && r.socket.None?
    ensures var t := sockets[s].tab;
      && SocketsOwned(records[t := r], sockets[s := Socket(t, Closed)], nextSocket)
      && OneSocketPerTab(tabs, records[t := r], sockets[s := Socket(t, Closed)])
  {
  }

  /** A tab without socket or timer that either arms the next timer or stays without one. */
  lemma TimerArmed(tabs: seq<TabId>, records: map<TabId, Tab>, timers: map<TimerId, TabId>, nextTimer: nat,
                   t: TabId, r: Tab, timers': map<TimerId, TabId>, nextTimer': nat)
    requires TimersOwned(tabs, records, timers, nextTimer)
    requires t in tabs && t in records && records[t].reconnectTimer.None? && r.socket.None?
    requires || (r.reconnectTimer == Some(nextTimer) && timers' == timers[nextTimer := t] && nextTimer' == nextTimer + 1)
             || (r.reconnectTimer.None? && timers' == timers && nextTimer' == nextTimer)
    ensures TimersOwned(tabs, records[t := r], timers', nextTimer')
  {
  }

  /**
   * The socket `closeTab` shuts: the tab's socket when it is open, and with
   * `closeConnecting` also when it is still connecting.
   */
  function ClosingSocket(tab: Tab, sockets: map<SocketId, Socket>, closeConnecting: bool): (s: Option<SocketId>)
    ensures s.Some? ==> s == tab.socket && s.value in sockets && Live(sockets[s.value].readyState)
    ensures s.None? && tab.socket.Some? && tab.socket.value in sockets ==>
      sockets[tab.socket.value].readyState != Open && !(closeConnecting && sockets[tab.socket.value].readyState == Connecting)
  {
    if tab.socket.Some? && tab.socket.value in sockets
       && (sockets[tab.socket.value].readyState == Open
           || (closeConnecting && sockets[tab.socket.value].readyState == Connecting))
    then tab.socket
    else None
  }

  /** A closed tab's record: no retrying, no timer, no socket. */
  function Retired(tab: Tab): (r: Tab)
    ensures !r.shouldReconnect && r.reconnectTimer.None? && r.socket.None?
    ensures r.(shouldReconnect := tab.shouldReconnect, reconnectTimer := tab.reconnectTimer, socket := tab.socket) == tab
  {
    tab.(shouldReconnect := false, reconnectTimer := None, socket := None)
  }

  /** The sockets once `closing`, if any, has been asked to close. */
  function CloseRequested(sockets: map<SocketId, Socket>, closing: Option<SocketId>): (r: map<SocketId, Socket>)
    requires closing.Some? ==> closing.value in sockets
    ensures r.Keys == sockets.Keys
    ensures forall s :: s in r && Some(s) != closing ==> r[s] == sockets[s]
    ensures closing.Some? ==> r[closing.value] == sockets[closing.value].(readyState := Closing)
  {
    if closing.Some? then sockets[closing.value := sockets[closing.value].(readyState := Closing)] else sockets
  }

  /** `closeTab` up to choosing the next active tab. */
  lemma TabRemoved(tabs: seq<TabId>, records: map<TabId, Tab>, activeTabId: Option<TabId>, nextTabId: nat,
                   sockets: map<SocketId, Socket>, timers: map<TimerId, TabId>, nextSocket: nat, nextTimer: nat,
                   t: TabId, closeConnecting: bool, tabs': seq<TabId>, records': map<TabId, Tab>,
                   activeTabId': Option<TabId>, sockets': map<SocketId, Socket>, timers': map<TimerId, TabId>)
    requires Consistent(tabs, records, activeTabId, nextTabId, sockets, timers, nextSocket, nextTimer)
    requires t in tabs
    requires && tabs' == Without(tabs, t)
             && records' == records[t := Retired(records[t])]
             && activeTabId' == (if activeTabId == Some(t) then None else activeTabId)
             && sockets' == CloseRequested(sockets, ClosingSocket(records[t], sockets, closeConnecting))
             && timers' == Cleared(timers, records[t].reconnectTimer)
    ensures Consistent(tabs', records', activeTabId', nextTabId, sockets', timers', nextSocket, nextTimer)
  {
    ClosingOnly(sockets, ClosingSocket(records[t], sockets, closeConnecting));
    RemovedSockets(records, sockets, nextSocket, t, sockets');
    RemovedOneSocket(tabs, records, sockets, t, sockets');
    TimerDropped(tabs, tabs', records, timers, nextTimer, t, Retired(records[t]));
    RegistryRemoved(tabs, records, nextTabId, t);
    AttemptsRetired(records, t);
  }

  lemma ClosingOnly(sockets: map<SocketId, Socket>, closing: Option<SocketId>)
    requires closing.Some? ==> closing.value in sockets && Live(sockets[closing.value].readyState)
    ensures OnlyClosing(sockets, CloseRequested(sockets, closing))
  {
  }

  lemma RegistryRemoved(tabs: seq<TabId>, records: map<TabId, Tab>, nextTabId: nat, t: TabId)
    requires Registry(tabs, records, nextTabId) && t in records
    ensures Registry(Without(tabs, t), records[t := Retired(records[t])], nextTabId)
  {
  }

  lemma AttemptsRetired(records: map<TabId, Tab>, t: TabId)
    requires AttemptsBounded(records) && t in records
    ensures AttemptsBounded(records[t := Retired(records[t])])
  {
  }

  /** Sockets of a closed tab may only move towards closing. */
  ghost predicate OnlyClosing(sockets: map<SocketId, Socket>, sockets': map<SocketId, Socket>) {
    && sockets'.Keys == sockets.Keys
    && forall s :: s in sockets' ==>
         && sockets'[s].tab == sockets[s].tab
         && (sockets'[s].readyState == sockets[s].readyState
             || (sockets'[s].readyState == Closing && Live(sockets[s].readyState)))
  }

  lemma RemovedSockets(records: map<TabId, Tab>, sockets: map<SocketId, Socket>, nextSocket: nat, t: TabId,
                       sockets': map<SocketId, Socket>)
    requires SocketsOwned(records, sockets, nextSocket) && t in records && OnlyClosing(sockets, sockets')
    ensures SocketsOwned(records[t := Retired(records[t])], sockets', nextSocket)
  {
  }

  lemma RemovedOneSocket(tabs: seq<TabId>, records: map<TabId, Tab>, sockets: map<SocketId, Socket>, t: TabId,
                         sockets': map<SocketId, Socket>)
    requires OneSocketPerTab(tabs, records, sockets) && t in records && OnlyClosing(sockets, sockets')
    ensures OneSocketPerTab(Without(tabs, t), records[t := Retired(records[t])], sockets')
  {
  }

  /** When connecting sockets are closed too, a closed tab leaves no socket reaching the server. */
  lemma RemovalLeavesNoOrphans(tabs: seq<TabId>, records: map<TabId, Tab>, activeTabId: Option<TabId>, nextTabId: nat,
                               sockets: map<SocketId, Socket>, timers: map<TimerId, TabId>, nextSocket: nat, nextTimer: nat,
                               t: TabId)
    requires Consistent(tabs, records, activeTabId, nextTabId, sockets, timers, nextSocket, nextTimer)
    requires NoOrphanSockets(tabs, sockets) && t in tabs
    ensures NoOrphanSockets(Without(tabs, t), CloseRequested(sockets, ClosingSocket(records[t], sockets, true)))
  {
  }

  /** A socket that does not come alive cannot make an orphan. */
  lemma NoOrphansAfterStateChange(tabs: seq<TabId>, sockets: map<SocketId, Socket>, s: SocketId, state: ReadyState)
    requires s in sockets && (Live(state) ==> Live(sockets[s].readyState))
    requires NoOrphanSockets(tabs, sockets)
    ensures NoOrphanSockets(tabs, sockets[s := Socket(sockets[s].tab, state)])
  {
  }

  /** Opening a tab cannot make an orphan. */
  lemma NoOrphansAfterOpening(tabs: seq<TabId>, tabs': seq<TabId>, sockets: map<SocketId, Socket>)
    requires NoOrphanSockets(tabs, sockets) && forall u :: u in tabs ==> u in tabs'
    ensures NoOrphanSockets(tabs', sockets)
  {
  }

  /** Whether closing a tab closes its socket in `state`: an open one always, a connecting one when asked to. */
  predicate CloseTakes(state: ReadyState, closeConnecting: bool) {
    state == Open || (closeConnecting && state == Connecting)
  }

  /**
   * The sockets once every tab of `closed` has been closed: each socket of
   * those tabs that the close takes is closing, every other socket is as it was.
   */
  function SocketsAfterClosing(sockets: map<SocketId, Socket>, closed: seq<TabId>, closeConnecting: bool): (r: map<SocketId, Socket>)
    ensures r.Keys == sockets.Keys
    ensures forall s :: s in r ==> r[s].tab == sockets[s].tab
  {
    map s | s in sockets ::
      if sockets[s].tab in closed && CloseTakes(sockets[s].readyState, closeConnecting)
      then sockets[s].(readyState := Closing) else sockets[s]
  }

  /** The records once every tab of `closed` has been closed: those retire, the rest are as they were. */
  function RecordsAfterClosing(records: map<TabId, Tab>, closed: seq<TabId>): (r: map<TabId, Tab>)
    ensures r.Keys == records.Keys
  {
    map u | u in records :: if u in closed then Retired(records[u]) else records[u]
  }

  /** What closing `tab` adds to the log: its retry timer cancelled, then its socket closed when the close takes it. */
  function ClosingEffects(tab: Tab, sockets: map<SocketId, Socket>, closeConnecting: bool): (effects: seq<Effect>)
    ensures |effects| <= 2
  {
    var closing := ClosingSocket(tab, sockets, closeConnecting);
    Cancelled(tab.reconnectTimer) + (if closing.Some? then [CloseSocket(closing.value)] else [])
  }

  /** `ClosingEffects` written out, as `Detach` logs them. */
  lemma ClosingEffectsUnfold(tab: Tab, sockets: map<SocketId, Socket>, closeConnecting: bool, log: seq<Effect>)
    ensures var closing := ClosingSocket(tab, sockets, closeConnecting);
      log + Cancelled(tab.reconnectTimer) + (if closing.Some? then [CloseSocket(closing.value)] else [])
      == log + ClosingEffects(tab, sockets, closeConnecting)
  {
  }

  /** What closing the tabs of `closed`, in that order, adds to the log. */
  function AllClosingEffects(closed: seq<TabId>, records: map<TabId, Tab>, sockets: map<SocketId, Socket>,
                             closeConnecting: bool): (effects: seq<Effect>)
    requires forall u :: u in closed ==> u in records
    ensures |effects| <= 2 * |closed|
  {
    if closed == [] then []
    else
      var last := closed[|closed| - 1];
      AllClosingEffects(closed[..|closed| - 1], records, sockets, closeConnecting)
        + ClosingEffects(records[last], sockets, closeConnecting)
  }

  /** Whether some tab of `closed` is tmux-backed, so that closing it invalidates the session cache. */
  ghost predicate AnyTmux(closed: seq<TabId>, records: map<TabId, Tab>) {
    exists u :: u in closed && u in records && TmuxMode(records[u].mode)
  }

  /**
   * What closing the open tab `t` does to the key order, the records, the
   * sockets and the log: the tab leaves the order, its record retires, its
   * socket is asked to close when the close takes it (see `ClosingSocket`),
   * and the log gains `ClosingEffects`. Every other record and socket is
   * left as it was.
   */
  ghost predicate TabClosed(t: TabId, closeConnecting: bool,
                            tabs: seq<TabId>, records: map<TabId, Tab>, sockets: map<SocketId, Socket>, log: seq<Effect>,
                            tabs': seq<TabId>, records': map<TabId, Tab>, sockets': map<SocketId, Socket>, log': seq<Effect>)
  {
    && t in records
    && var tab := records[t];
    && tabs' == Without(tabs, t)
    && records' == records[t := Retired(tab)]
    && sockets' == CloseRequested(sockets, ClosingSocket(tab, sockets, closeConnecting))
    && log' == log + ClosingEffects(tab, sockets, closeConnecting)
  }

  /**
   * Part way through closing every tab of `tabs0` in key order, from records
   * `records0`, sockets `sockets0`, log `log0` and a session cache holding
   * `cached0` taken at `timestamp0`: the first `k` tabs of `tabs0` have been
   * closed one by one and the rest are still open, untouched.
   */
  ghost predicate ClosingFrom(closeConnecting: bool, tabs0: seq<TabId>, records0: map<TabId, Tab>,
                              sockets0: map<SocketId, Socket>, log0: seq<Effect>,
                              cached0: Option<TmuxDirectory.Listing>, timestamp0: int, nextSocket: nat, k: nat,
                              tabs: seq<TabId>, records: map<TabId, Tab>, sockets: map<SocketId, Socket>,
                              log: seq<Effect>, cached: Option<TmuxDirectory.Listing>, timestamp: int)
  {
    && Increasing(tabs0) && (forall u :: u in tabs0 ==> u in records0)
    && SocketsOwned(records0, sockets0, nextSocket) && OneSocketPerTab(tabs0, records0, sockets0)
    && k <= |tabs0| && tabs == tabs0[k..]
    && records == RecordsAfterClosing(records0, tabs0[..k])
    && sockets == SocketsAfterClosing(sockets0, tabs0[..k], closeConnecting)
    && log == log0 + AllClosingEffects(tabs0[..k], records0, sockets0, closeConnecting)
    && (AnyTmux(tabs0[..k], records0) ==> cached.None? && timestamp == 0)
    && (!AnyTmux(tabs0[..k], records0) ==> cached == cached0 && timestamp == timestamp0)
  }

  /** Closing the first tab still open, as `RemoveTab` does, keeps `ClosingFrom` with one tab fewer. */
  lemma ClosingFirst(closeConnecting: bool, tabs0: seq<TabId>, records0: map<TabId, Tab>,
                     sockets0: map<SocketId, Socket>, log0: seq<Effect>,
                     cached0: Option<TmuxDirectory.Listing>, timestamp0: int, nextSocket: nat, k: nat,
                     tabs: seq<TabId>, records: map<TabId, Tab>, sockets: map<SocketId, Socket>,
                     log: seq<Effect>, cached: Option<TmuxDirectory.Listing>, timestamp: int,
                     tabs': seq<TabId>, records': map<TabId, Tab>, sockets': map<SocketId, Socket>,
                     log': seq<Effect>, cached': Option<TmuxDirectory.Listing>, timestamp': int)
    requires ClosingFrom(closeConnecting, tabs0, records0, sockets0, log0, cached0, timestamp0, nextSocket, k,
                         tabs, records, sockets, log, cached, timestamp)
    requires tabs != [] && TabClosed(tabs[0], closeConnecting, tabs, records, sockets, log, tabs', records', sockets', log')
    requires TmuxMode(records[tabs[0]].mode) ==> cached'.None? && timestamp' == 0
    requires !TmuxMode(records[tabs[0]].mode) ==> cached' == cached && timestamp' == timestamp
    ensures ClosingFrom(closeConnecting, tabs0, records0, sockets0, log0, cached0, timestamp0, nextSocket, k + 1,
                        tabs', records', sockets', log', cached', timestamp')
    ensures |tabs'| < |tabs|
  {
    var t := tabs[0];
    assert t == tabs0[k];
    ClosingOneMore(tabs0, records0, sockets0, nextSocket, k, closeConnecting);
    var effects := AllClosingEffects(tabs0[..k], records0, sockets0, closeConnecting);
    var more := ClosingEffects(records0[t], sockets0, closeConnecting);
    assert tabs' == tabs0[k + 1..];
    assert log' == (log0 + effects) + more;
    AppendAssociates(log0, effects, more);
  }

  /** Before the first close, no tab has been closed. */
  lemma ClosingStarts(closeConnecting: bool, tabs0: seq<TabId>, records0: map<TabId, Tab>,
                      sockets0: map<SocketId, Socket>, log0: seq<Effect>,
                      cached0: Option<TmuxDirectory.Listing>, timestamp0: int, nextSocket: nat)
    requires Increasing(tabs0) && (forall u :: u in tabs0 ==> u in records0)
    requires SocketsOwned(records0, sockets0, nextSocket) && OneSocketPerTab(tabs0, records0, sockets0)
    ensures ClosingFrom(closeConnecting, tabs0, records0, sockets0, log0, cached0, timestamp0, nextSocket, 0,
                        tabs0, records0, sockets0, log0, cached0, timestamp0)
  {
    assert tabs0[..0] == [] && tabs0[0..] == tabs0 && log0 + [] == log0;
    assert RecordsAfterClosing(records0, []) == records0;
    assert SocketsAfterClosing(sockets0, [], closeConnecting) == sockets0;
  }

  /** Once no tab is left open, every tab of `tabs0` has been closed. */
  lemma ClosingEnds(closeConnecting: bool, tabs0: seq<TabId>, records0: map<TabId, Tab>,
                    sockets0: map<SocketId, Socket>, log0: seq<Effect>,
                    cached0: Option<TmuxDirectory.Listing>, timestamp0: int, nextSocket: nat, k: nat,
                    records: map<TabId, Tab>, sockets: map<SocketId, Socket>,
                    log: seq<Effect>, cached: Option<TmuxDirectory.Listing>, timestamp: int)
    requires ClosingFrom(closeConnecting, tabs0, records0, sockets0, log0, cached0, timestamp0, nextSocket, k,
                         [], records, sockets, log, cached, timestamp)
    ensures records == RecordsAfterClosing(records0, tabs0)
    ensures sockets == SocketsAfterClosing(sockets0, tabs0, closeConnecting)
    ensures log == log0 + AllClosingEffects(tabs0, records0, sockets0, closeConnecting)
    ensures AnyTmux(tabs0, records0) ==> cached.None? && timestamp == 0
    ensures !AnyTmux(tabs0, records0) ==> cached == cached0 && timestamp == timestamp0
  {
    assert tabs0[..k] == tabs0;
  }

  /** Appending regroups. */
  lemma AppendAssociates<T>(a: seq<T>, b: seq<T>, c: seq<T>)
    ensures (a + b) + c == a + (b + c)
  {
  }

  /** A tab absent from the order leaves it as it is. */
  lemma {:induction false} WithoutAbsent(ids: seq<TabId>, t: TabId)
    requires t !in ids
    ensures Without(ids, t) == ids
  {
    if ids != [] {
      WithoutAbsent(ids[1..], t);
    }
  }

  /** Closing the first tab of the order leaves the rest of the order. */
  lemma WithoutFirst(ids: seq<TabId>, k: nat)
    requires Increasing(ids) && k < |ids|
    ensures Without(ids[k..], ids[k]) == ids[k + 1..]
  {
    var rest := ids[k..];
    assert rest[1..] == ids[k + 1..];
    forall i | 0 <= i < |rest[1..]|
      ensures rest[1..][i] != ids[k]
    {
      assert rest[1..][i] == ids[k + 1 + i];
    }
    WithoutAbsent(rest[1..], ids[k]);
  }

  /** Closing one more tab retires its record, which nothing had touched yet. */
  lemma RecordsClosingOneMore(records0: map<TabId, Tab>, closed: seq<TabId>, t: TabId)
    requires t !in closed && t in records0
    ensures var records := RecordsAfterClosing(records0, closed);
      && t in records && records[t] == records0[t]
      && records[t := Retired(records[t])] == RecordsAfterClosing(records0, closed + [t])
  {
  }

  /**
   * Closing one more tab of the order closes the socket that closing it
   * alone would have closed: no earlier close touched the sockets of this
   * tab, and the tab's own socket is the only one of its sockets still
   * connecting or open.
   */
  lemma SocketsClosingOneMore(tabs0: seq<TabId>, records0: map<TabId, Tab>, sockets0: map<SocketId, Socket>,
                              nextSocket: nat, closed: seq<TabId>, t: TabId, closeConnecting: bool)
    requires SocketsOwned(records0, sockets0, nextSocket) && OneSocketPerTab(tabs0, records0, sockets0)
    requires t in tabs0 && t in records0 && t !in closed
    ensures var sockets := SocketsAfterClosing(sockets0, closed, closeConnecting);
      var closing := ClosingSocket(records0[t], sockets0, closeConnecting);
      && ClosingSocket(records0[t], sockets, closeConnecting) == closing
      && CloseRequested(sockets, closing) == SocketsAfterClosing(sockets0, closed + [t], closeConnecting)
  {
    var sockets := SocketsAfterClosing(sockets0, closed, closeConnecting);
    var closing := ClosingSocket(records0[t], sockets0, closeConnecting);
    var after := SocketsAfterClosing(sockets0, closed + [t], closeConnecting);
    forall s | s in sockets0
      ensures CloseRequested(sockets, closing)[s] == after[s]
    {
      if sockets0[s].tab == t && CloseTakes(sockets0[s].readyState, closeConnecting) {
        assert records0[t].socket == Some(s);
      }
    }
  }

  /** Closing one more tab adds that tab's effects to the log. */
  lemma EffectsClosingOneMore(closed: seq<TabId>, t: TabId, records: map<TabId, Tab>, sockets: map<SocketId, Socket>,
                              closeConnecting: bool)
    requires (forall u :: u in closed ==> u in records) && t in records
    ensures AllClosingEffects(closed + [t], records, sockets, closeConnecting)
      == AllClosingEffects(closed, records, sockets, closeConnecting) + ClosingEffects(records[t], sockets, closeConnecting)
  {
    assert (closed + [t])[..|closed|] == closed;
  }

  /** Everything closing the tab at position `k` of the order does, in terms of the state before the first close. */
  lemma ClosingOneMore(tabs0: seq<TabId>, records0: map<TabId, Tab>, sockets0: map<SocketId, Socket>, nextSocket: nat,
                       k: nat, closeConnecting: bool)
    requires Increasing(tabs0) && k < |tabs0| && forall u :: u in tabs0 ==> u in records0
    requires SocketsOwned(records0, sockets0, nextSocket) && OneSocketPerTab(tabs0, records0, sockets0)
    ensures var t := tabs0[k];
      var records := RecordsAfterClosing(records0, tabs0[..k]);
      var sockets := SocketsAfterClosing(sockets0, tabs0[..k], closeConnecting);
      var closing := ClosingSocket(records0[t], sockets0, closeConnecting);
      && Without(tabs0[k..], t) == tabs0[k + 1..]
      && t in records && records[t] == records0[t]
      && records[t := Retired(records[t])] == RecordsAfterClosing(records0, tabs0[..k + 1])
      && ClosingSocket(records[t], sockets, closeConnecting) == closing
      && ClosingEffects(records[t], sockets, closeConnecting) == ClosingEffects(records0[t], sockets0, closeConnecting)
      && CloseRequested(sockets, closing) == SocketsAfterClosing(sockets0, tabs0[..k + 1], closeConnecting)
      && AllClosingEffects(tabs0[..k + 1], records0, sockets0, closeConnecting)
         == AllClosingEffects(tabs0[..k], records0, sockets0, closeConnecting) + ClosingEffects(records0[t], sockets0, closeConnecting)
      && (AnyTmux(tabs0[..k + 1], records0) <==> AnyTmux(tabs0[..k], records0) || TmuxMode(records0[t].mode))
  {
    var t := tabs0[k];
    assert tabs0[..k + 1] == tabs0[..k] + [t];
    assert t !in tabs0[..k] by {
      forall i | 0 <= i < k
        ensures tabs0[..k][i] != t
      {
        assert tabs0[..k][i] == tabs0[i];
      }
    }
    WithoutFirst(tabs0, k);
    RecordsClosingOneMore(records0, tabs0[..k], t);
    SocketsClosingOneMore(tabs0, records0, sockets0, nextSocket, tabs0[..k], t, closeConnecting);
    EffectsClosingOneMore(tabs0[..k], t, records0, sockets0, closeConnecting);
  }

  /** Closing every tab closes each live socket of a tab, when connecting ones are taken too. */
  lemma ClosingEveryLeavesNoOrphans(tabs0: seq<TabId>, sockets0: map<SocketId, Socket>)
    requires NoOrphanSockets(tabs0, sockets0)
    ensures NoOrphanSockets([], SocketsAfterClosing(sockets0, tabs0, true))
  {
    var sockets := SocketsAfterClosing(sockets0, tabs0, true);
    forall s | s in sockets
      ensures !Live(sockets[s].readyState)
    {
      if Live(sockets0[s].readyState) {
        assert sockets0[s].tab in tabs0;
      }
    }
  }

  /** With no tab open, any live socket is an orphan. */
  lemma LiveSocketOrphaned(tabs: seq<TabId>, sockets: map<SocketId, Socket>, s: SocketId)
    requires tabs == [] && s in sockets && Live(sockets[s].readyState)
    ensures !NoOrphanSockets(tabs, sockets)
  {
  }

  lemma ConnectedClearsTimer(tab: Tab, s: SocketId)
    ensures Connected(tab.(reconnectTimer := None), s) == Connected(tab, s)
  {
  }

  class App {
    /** The page's session cache, invalidated when a tmux-backed tab closes. */
    const cache: SessionCache.SessionCache
    /** The keys of `tabs`, in insertion order. */
    var tabs: seq<TabId>
    var records: map<TabId, Tab>
    var activeTabId: Option<TabId>
    var nextTabId: nat
    var sockets: map<SocketId, Socket>
    var timers: map<TimerId, TabId>
    var nextSocket: nat
    var nextTimer: nat
    var log: seq<Effect>

    ghost predicate Valid()
      reads this`tabs, this`records, this`activeTabId, this`nextTabId
      reads this`sockets, this`timers, this`nextSocket, this`nextTimer
    {
      Consistent(tabs, records, activeTabId, nextTabId, sockets, timers, nextSocket, nextTimer)
    }

    ghost predicate NoOrphans()
      reads this`tabs, this`sockets
    {
      NoOrphanSockets(tabs, sockets)
    }

    /** The socket of tab `t` when the tab has one and it is open: the condition every sender checks. */
    function OpenSocketOf(t: TabId): (s: Option<SocketId>)
      reads this`records, this`sockets
      ensures s.Some? <==> t in records && records[t].socket.Some? && records[t].socket.value in sockets
                           && sockets[records[t].socket.value].readyState == Open
      ensures s.Some? ==> records[t].socket == s
    {
      if t in records && records[t].socket.Some? && records[t].socket.value in sockets
         && sockets[records[t].socket.value].readyState == Open
      then records[t].socket
      else None
    }

    constructor(cache: SessionCache.SessionCache)
      ensures Valid() && NoOrphans()
      ensures this.cache == cache
      ensures tabs == [] && records == map[] && activeTabId.None? && nextTabId == 1
      ensures sockets == map[] && timers == map[] && nextSocket == 0 && nextTimer == 0 && log == []
    {
      this.cache := cache;
      tabs := [];
      records := map[];
      activeTabId := None;
      nextTabId := 1;
      sockets := map[];
      timers := map[];
      nextSocket := 0;
      nextTimer := 0;
      log := [];
    }

    /** `switchTab`: a tab that is not open leaves the selection alone. */
    method SwitchTab(t: TabId)
      requires Valid()
      modifies this`activeTabId
      ensures Valid()
      ensures activeTabId == (if t in tabs then Some(t) else old(activeTabId))
    {
      if activeTabId == Some(t) {
        return;
      }
      if t in tabs {
        activeTabId := Some(t);
      }
    }

    /**
     * The state after `connectTerminal` found tab `t` open, given the state
     * before: a pending retry timer cleared, and socket `nextSocket0`
     * connecting for the tab and installed in its record.
     */
    ghost predicate Attached(t: TabId, records0: map<TabId, Tab>, sockets0: map<SocketId, Socket>,
                             timers0: map<TimerId, TabId>, nextSocket0: nat, log0: seq<Effect>)
      requires t in records0
      reads this`records, this`sockets, this`timers, this`nextSocket, this`log
    {
      && records == records0[t := Connected(records0[t], nextSocket0)]
      && sockets == sockets0[nextSocket0 := Socket(t, Connecting)]
      && nextSocket == nextSocket0 + 1
      && (records0[t].reconnectTimer.None? ==> timers == timers0 && log == log0 + [OpenSocket(nextSocket0)])
      && (records0[t].reconnectTimer.Some? ==>
            var h := records0[t].reconnectTimer.value;
            timers == timers0 - {h} && log == log0 + [CancelTimer(h), OpenSocket(nextSocket0)])
    }

    /**
     * `connectTerminal`: a tab that is no longer open is left alone;
     * otherwise it is attached to a new socket. Both callers reach it after
     * the tab's previous socket is gone.
     */
    method ConnectTerminal(t: TabId)
      requires Valid()
      requires t in tabs && t in records ==> records[t].socket.None?
      modifies this`records, this`sockets, this`timers, this`nextSocket, this`log
      ensures Valid()
      ensures old(NoOrphans()) ==> NoOrphans()
      ensures t !in tabs ==>
        records == old(records) && sockets == old(sockets) && timers == old(timers)
        && nextSocket == old(nextSocket) && log == old(log)
      ensures t in tabs ==> t in old(records) && Attached(t, old(records), old(sockets), old(timers), old(nextSocket), old(log))
    {
      if t !in tabs {
        return;
      }
      Attach(t);
    }

    /** The body of `connectTerminal` past its guard. */
    method Attach(t: TabId)
      requires Valid() && t in tabs && records[t].socket.None?
      modifies this`records, this`sockets, this`timers, this`nextSocket, this`log
      ensures Valid()
      ensures old(NoOrphans()) ==> NoOrphans()
      ensures Attached(t, old(records), old(sockets), old(timers), old(nextSocket), old(log))
    {
      var tab := records[t];
      var s := nextSocket;
      var timers', sockets', records' := Cleared(timers, tab.reconnectTimer), sockets[s := Socket(t, Connecting)], records[t := Connected(tab, s)];
      Reconnecting(tabs, records, activeTabId, nextTabId, sockets, timers, s, nextTimer, t, records', sockets', timers', s + 1);
      timers, nextSocket, sockets, records, log := timers', s + 1, sockets', records', log + Cancelled(tab.reconnectTimer) + [OpenSocket(s)];
      assert Consistent(tabs, records, activeTabId, nextTabId, sockets, timers, nextSocket, nextTimer);
    }

    /**
     * `createTab`: the next id, a fresh record appended to the tab order, a
     * socket connecting for it, and the new tab selected.
     */
    method CreateTab(requestedLabel: string, mode: string, requestedSessionName: string) returns (t: TabId)
      requires Valid()
      modifies this`tabs, this`records, this`activeTabId, this`nextTabId
      modifies this`sockets, this`timers, this`nextSocket, this`log
      ensures Valid()
      ensures old(NoOrphans()) ==> NoOrphans()
      ensures t == old(nextTabId) && t !in old(records) && nextTabId == t + 1
      ensures tabs == old(tabs) + [t] && activeTabId == Some(t)
      ensures records == old(records)[t := Connected(NewTab(requestedLabel, mode, requestedSessionName), old(nextSocket))]
      ensures sockets == old(sockets)[old(nextSocket) := Socket(t, Connecting)] && nextSocket == old(nextSocket) + 1
      ensures timers == old(timers) && log == old(log) + [OpenSocket(old(nextSocket))]
    {
      t := nextTabId;
      var tab := NewTab(requestedLabel, mode, requestedSessionName);
      ghost var before, tabs0 := records, tabs;
      nextTabId, records, tabs := t + 1, records[t := tab], tabs + [t];
      TabAdded(tabs0, before, activeTabId, t, sockets, timers, nextSocket, nextTimer, tab, tabs, records, nextTabId);
      if NoOrphanSockets(tabs0, sockets) {
        NoOrphansAfterOpening(tabs0, tabs, sockets);
      }
      assert t in tabs && records[t] == tab && tab.reconnectTimer.None?;
      ConnectTerminal(t);
      UpdateTwice(before, t, tab, Connected(tab, old(nextSocket)));
      SwitchTab(t);
    }

    /**
     * A socket's `onopen`. The `create` frame goes out whether or not its
     * tab is still open; the record is reset and a reconnected toast shown
     * when attempts had been made.
     */
    method OnOpen(s: SocketId, cols: int, rows: int)
      requires Valid() && s in sockets && sockets[s].readyState == Connecting
      modifies this`records, this`sockets, this`log
      ensures Valid()
      ensures old(NoOrphans()) ==> NoOrphans()
      ensures var t := old(sockets[s]).tab;
        && t in old(records)
        && sockets == old(sockets)[s := Socket(t, Open)]
        && records == old(records)[t := Opened(old(records[t]), t in tabs)]
        && log == old(log) + [Send(s, Create(old(records[t]).mode, old(records[t]).sessionName, cols, rows))]
                           + Shows(t, OpenNotices(old(records[t])))
    {
      var t := sockets[s].tab;
      var tab := records[t];
      SocketAdvanced(tabs, records, activeTabId, nextTabId, sockets, timers, nextSocket, nextTimer, s, Open);
      RecordUpdated(tabs, records, activeTabId, nextTabId, sockets[s := Socket(t, Open)], timers, nextSocket, nextTimer,
                    t, Opened(tab, t in tabs));
      log := log + [Send(s, Create(tab.mode, tab.sessionName, cols, rows))] + Shows(t, OpenNotices(tab));
      sockets, records := sockets[s := Socket(t, Open)], records[t := Opened(tab, t in tabs)];
    }

    /**
     * A frame from the server on an open socket. Output is written to the
     * terminal; `exit` and `error` end retrying and are remembered for the
     * close; an `error` also closes the socket.
     */
    method OnServerFrame(s: SocketId, frame: ServerFrame)
      requires Valid() && s in sockets && sockets[s].readyState == Open
      modifies this`records, this`sockets, this`log
      ensures Valid()
      ensures old(NoOrphans()) ==> NoOrphans()
      ensures var t := old(sockets[s]).tab;
        && t in old(records)
        && records == old(records)[t := AfterFrame(old(records[t]), frame, t in tabs)]
        && sockets == (if frame.Error? then old(sockets)[s := Socket(t, Closing)] else old(sockets))
        && log == old(log) + (if frame.Output? then [Write(t, frame.data)] else [])
                           + Shows(t, FrameNotices(frame)) + (if frame.Error? then [CloseSocket(s)] else [])
    {
      var t := sockets[s].tab;
      var tab := records[t];
      var sockets', records' :=
        (if frame.Error? then sockets[s := Socket(t, Closing)] else sockets), records[t := AfterFrame(tab, frame, t in tabs)];
      FrameApplied(tabs, records, activeTabId, nextTabId, sockets, timers, nextSocket, nextTimer, s, frame, records', sockets');
      var log' := log + (if frame.Output? then [Write(t, frame.data)] else [])
                      + Shows(t, FrameNotices(frame)) + (if frame.Error? then [CloseSocket(s)] else []);
      sockets, records, log := sockets', records', log';
    }

    /** A socket's `onerror`: an open tab is marked disconnected. */
    method OnSocketError(s: SocketId)
      requires Valid() && s in sockets
      modifies this`records
      ensures Valid()
      ensures var t := old(sockets[s]).tab;
        && t in old(records)
        && records == (if t in tabs then old(records)[t := old(records[t]).(connected := false)] else old(records))
    {
      var t := sockets[s].tab;
      if t in tabs {
        RecordUpdated(tabs, records, activeTabId, nextTabId, sockets, timers, nextSocket, nextTimer,
                      t, records[t].(connected := false));
        records := records[t := records[t].(connected := false)];
      }
    }

    /**
     * A socket's `onclose`. The record forgets the socket; a tab that was
     * closed stops there, an open one takes `OnCloseStep`, showing its
     * notices and arming the retry timer it asks for.
     */
    method OnSocketClose(s: SocketId)
      requires Valid() && s in sockets && sockets[s].readyState != Closed
      modifies this`records, this`sockets, this`timers, this`nextTimer, this`log
      ensures Valid()
      ensures old(NoOrphans()) ==> NoOrphans()
      ensures var t := old(sockets[s]).tab;
        && t in old(records)
        && sockets == old(sockets)[s := Socket(t, Closed)]
        && (t !in tabs ==>
              && records == old(records)[t := old(records[t]).(socket := None)]
              && timers == old(timers) && nextTimer == old(nextTimer) && log == old(log))
        && (t in tabs ==>
              var step := OnCloseStep(old(records[t]), old(nextTimer));
              && records == old(records)[t := step.tab]
              && timers == (if step.retry.Some? then old(timers)[old(nextTimer) := t] else old(timers))
              && nextTimer == (if step.retry.Some? then old(nextTimer) + 1 else old(nextTimer))
              && log == old(log) + Shows(t, step.notices)
                                 + (if step.retry.Some? then [StartTimer(old(nextTimer), step.retry.value)] else []))
    {
      if sockets[s].tab !in tabs {
        ForgetSocket(s);
      } else {
        CloseStepTaken(s);
      }
    }

    /** `onclose` once the tab was closed: only the record's socket is dropped. */
    method ForgetSocket(s: SocketId)
      requires Valid() && s in sockets && sockets[s].readyState != Closed && sockets[s].tab !in tabs
      modifies this`records, this`sockets
      ensures Valid()
      ensures old(NoOrphans()) ==> NoOrphans()
      ensures var t := old(sockets[s]).tab;
        && t in old(records)
        && sockets == old(sockets)[s := Socket(t, Closed)]
        && records == old(records)[t := old(records[t]).(socket := None)]
    {
      var t := sockets[s].tab;
      OrphanClosed(tabs, records, activeTabId, nextTabId, sockets, timers, nextSocket, nextTimer, s);
      sockets, records := sockets[s := Socket(t, Closed)], records[t := records[t].(socket := None)];
    }

    /** `onclose` on an open tab: its close step, notices and retry timer. */
    method CloseStepTaken(s: SocketId)
      requires Valid() && s in sockets && sockets[s].readyState != Closed && sockets[s].tab in tabs
      modifies this`records, this`sockets, this`timers, this`nextTimer, this`log
      ensures Valid()
      ensures old(NoOrphans()) ==> NoOrphans()
      ensures var t := old(sockets[s]).tab;
        var step := OnCloseStep(old(records[t]), old(nextTimer));
        && t in old(records)
        && sockets == old(sockets)[s := Socket(t, Closed)]
        && records == old(records)[t := step.tab]
        && timers == (if step.retry.Some? then old(timers)[old(nextTimer) := t] else old(timers))
        && nextTimer == (if step.retry.Some? then old(nextTimer) + 1 else old(nextTimer))
        && log == old(log) + Shows(t, step.notices)
                           + (if step.retry.Some? then [StartTimer(old(nextTimer), step.retry.value)] else [])
    {
      var t := sockets[s].tab;
      var h := nextTimer;
      var step := OnCloseStep(records[t], h);
      ghost var records0, sockets0, timers0 := records, sockets, timers;
      if NoOrphans() {
        NoOrphansAfterStateChange(tabs, sockets, s, Closed);
      }
      log := log + Shows(t, step.notices) + (if step.retry.Some? then [StartTimer(h, step.retry.value)] else []);
      timers, nextTimer, sockets, records :=
        (if step.retry.Some? then timers[h := t] else timers), (if step.retry.Some? then h + 1 else h),
        sockets[s := Socket(t, Closed)], records[t := step.tab];
      OpenTabClosed(tabs, records0, activeTabId, nextTabId, sockets0, timers0, nextSocket, h, s,
                    records, sockets, timers, nextTimer);
    }

    /** A retry timer fires: it is no longer pending and its tab connects again. */
    method OnRetryTimer(h: TimerId)
      requires Valid() && h in timers
      modifies this`records, this`sockets, this`timers, this`nextSocket, this`log
      ensures Valid()
      ensures old(NoOrphans()) ==> NoOrphans()
      ensures var t := old(timers[h]);
        && t in tabs && t in old(records)
        && records == old(records)[t := Connected(old(records[t]), old(nextSocket))]
        && sockets == old(sockets)[old(nextSocket) := Socket(t, Connecting)]
        && nextSocket == old(nextSocket) + 1
        && timers == old(timers) - {h}
        && log == old(log) + [OpenSocket(old(nextSocket))]
    {
      var t := timers[h];
      assert t in tabs && t in records;
      var tab := records[t];
      ghost var before := records;
      var timers', records' := timers - {h}, records[t := tab.(reconnectTimer := None)];
      TimerCleared(tabs, records, activeTabId, nextTabId, sockets, timers, nextSocket, nextTimer, t, records', timers');
      timers, records := timers', records';
      ConnectTerminal(t);
      ConnectedClearsTimer(tab, old(nextSocket));
      UpdateTwice(before, t, tab.(reconnectTimer := None), Connected(tab, old(nextSocket)));
    }

    /**
     * The body of `closeTab`, parameterised by whether a socket that is
     * still connecting is closed as well. The record stops retrying and
     * loses its timer and socket, the tab leaves the order, a tmux-backed
     * tab invalidates the session cache, and when the active tab closes the
     * first remaining tab is selected.
     */
    method RemoveTab(t: TabId, closeConnecting: bool)
      requires Valid() && cache.Valid()
      modifies this`tabs, this`records, this`activeTabId, this`sockets, this`timers, this`log, cache
      ensures Valid() && cache.Valid()
      ensures t !in old(tabs) ==>
        && tabs == old(tabs) && records == old(records) && activeTabId == old(activeTabId)
        && sockets == old(sockets) && timers == old(timers) && log == old(log) && unchanged(cache)
      ensures t in old(tabs) ==>
        var tab := old(records[t]);
        && TabClosed(t, closeConnecting, old(tabs), old(records), old(sockets), old(log), tabs, records, sockets, log)
        && timers == Cleared(old(timers), tab.reconnectTimer)
        && activeTabId == (if old(activeTabId) != Some(t) then old(activeTabId)
                           else if tabs == [] then None else Some(tabs[0]))
        && (TmuxMode(tab.mode) ==> cache.cached.None? && cache.timestamp == 0)
        && (!TmuxMode(tab.mode) ==> unchanged(cache))
      ensures cache.inFlight == old(cache.inFlight) && cache.nextRequest == old(cache.nextRequest)
    {
      if t !in tabs {
        return;
      }
      var tab := records[t];
      var wasActive := activeTabId == Some(t);
      ClosingEffectsUnfold(tab, sockets, closeConnecting, log);
      Detach(t, closeConnecting);
      if TmuxMode(tab.mode) {
        cache.Invalidate();
      }
      if wasActive && tabs != [] {
        SwitchTab(tabs[0]);
      }
    }

    /** `closeTab` on an open tab, short of the cache and the new selection. */
    method Detach(t: TabId, closeConnecting: bool)
      requires Valid() && t in tabs
      modifies this`tabs, this`records, this`activeTabId, this`sockets, this`timers, this`log
      ensures Valid()
      ensures var tab := old(records[t]);
        var closing := ClosingSocket(tab, old(sockets), closeConnecting);
        && tabs == Without(old(tabs), t)
        && records == old(records)[t := Retired(tab)]
        && timers == Cleared(old(timers), tab.reconnectTimer)
        && sockets == CloseRequested(old(sockets), closing)
        && log == old(log) + Cancelled(tab.reconnectTimer) + (if closing.Some? then [CloseSocket(closing.value)] else [])
        && activeTabId == (if old(activeTabId) == Some(t) then None else old(activeTabId))
    {
      var tab := records[t];
      var closing := ClosingSocket(tab, sockets, closeConnecting);
      var timers', sockets', records', tabs', activeTabId' :=
        Cleared(timers, tab.reconnectTimer), CloseRequested(sockets, closing), records[t := Retired(tab)],
        Without(tabs, t), if activeTabId == Some(t) then None else activeTabId;
      TabRemoved(tabs, records, activeTabId, nextTabId, sockets, timers, nextSocket, nextTimer, t, closeConnecting,
                 tabs', records', activeTabId', sockets', timers');
      var log' := log + Cancelled(tab.reconnectTimer) + (if closing.Some? then [CloseSocket(closing.value)] else []);
      timers, sockets, records, tabs, activeTabId, log := timers', sockets', records', tabs', activeTabId', log';
    }

    /**
     * `closeTab` as it is meant to behave: the tab's socket is closed
     * whether it is open or still connecting, so no socket of a closed tab
     * reaches the server, and a closed active tab hands the selection to the
     * oldest remaining tab.
     */
    method CloseTab(t: TabId)
      requires Valid() && cache.Valid()
      modifies this`tabs, this`records, this`activeTabId, this`sockets, this`timers, this`log, cache
      ensures Valid() && cache.Valid()
      ensures old(NoOrphans()) ==> NoOrphans()
      ensures t !in old(tabs) ==>
        && tabs == old(tabs) && records == old(records) && activeTabId == old(activeTabId)
        && sockets == old(sockets) && timers == old(timers) && log == old(log) && unchanged(cache)
      ensures t in old(tabs) ==>
        var tab := old(records[t]);
        && TabClosed(t, true, old(tabs), old(records), old(sockets), old(log), tabs, records, sockets, log)
        && timers == Cleared(old(timers), tab.reconnectTimer)
        && (TmuxMode(tab.mode) ==> cache.cached.None? && cache.timestamp == 0)
        && (!TmuxMode(tab.mode) ==> unchanged(cache))
      ensures cache.inFlight == old(cache.inFlight) && cache.nextRequest == old(cache.nextRequest)
      ensures old(activeTabId) != Some(t) ==> activeTabId == old(activeTabId)
      ensures old(activeTabId) == Some(t) ==>
        (activeTabId.None? <==> tabs == []) && (activeTabId.Some? ==> forall u :: u in tabs ==> activeTabId.value <= u)
    {
      if t in tabs && NoOrphans() {
        RemovalLeavesNoOrphans(tabs, records, activeTabId, nextTabId, sockets, timers, nextSocket, nextTimer, t);
      }
      RemoveTab(t, true);
      if tabs != [] {
        FirstIsOldest(tabs);
      }
    }

    /**
     * The state once every tab of `tabs0` has been closed, from records
     * `records0`, sockets `sockets0`, log `log0` and a session cache holding
     * `cached0` taken at `timestamp0`: no tab is open or selected and no
     * retry is pending, every closed tab has retired, each socket the close
     * takes is closing and every other socket is as it was, the log gained
     * each tab's effects in order, and the cache was invalidated exactly
     * when some closed tab was tmux-backed.
     */
    ghost predicate ClosedEvery(closeConnecting: bool, tabs0: seq<TabId>, records0: map<TabId, Tab>,
                                sockets0: map<SocketId, Socket>, log0: seq<Effect>,
                                cached0: Option<TmuxDirectory.Listing>, timestamp0: int)
      requires forall u :: u in tabs0 ==> u in records0
      reads this`tabs, this`records, this`activeTabId, this`sockets, this`timers, this`log, cache
    {
      && tabs == [] && activeTabId.None? && timers == map[]
      && records == RecordsAfterClosing(records0, tabs0)
      && sockets == SocketsAfterClosing(sockets0, tabs0, closeConnecting)
      && log == log0 + AllClosingEffects(tabs0, records0, sockets0, closeConnecting)
      && (AnyTmux(tabs0, records0) ==> cache.cached.None? && cache.timestamp == 0)
      && (!AnyTmux(tabs0, records0) ==> cache.cached == cached0 && cache.timestamp == timestamp0)
    }

    /**
     * The loop of `closeAllTabs` once confirmed: `closeTab` on each id of a
     * snapshot of the key order, with `closeConnecting` choosing the
     * `closeTab` used as in `RemoveTab`.
     */
    method CloseEvery(closeConnecting: bool)
      requires Valid() && cache.Valid()
      modifies this`tabs, this`records, this`activeTabId, this`sockets, this`timers, this`log, cache
      ensures Valid() && cache.Valid()
      ensures ClosedEvery(closeConnecting, old(tabs), old(records), old(sockets), old(log), old(cache.cached), old(cache.timestamp))
      ensures cache.inFlight == old(cache.inFlight) && cache.nextRequest == old(cache.nextRequest)
    {
      var tabIds := tabs;
      ghost var records0, sockets0, log0 := records, sockets, log;
      ghost var cached0, timestamp0 := cache.cached, cache.timestamp;
      ClosingStarts(closeConnecting, tabIds, records0, sockets0, log0, cached0, timestamp0, nextSocket);
      var i := 0;
      while i < |tabIds|
        invariant Valid() && cache.Valid()
        invariant ClosingFrom(closeConnecting, tabIds, records0, sockets0, log0, cached0, timestamp0, nextSocket, i,
                              tabs, records, sockets, log, cache.cached, cache.timestamp)
        invariant cache.inFlight == old(cache.inFlight) && cache.nextRequest == old(cache.nextRequest)
      {
        CloseFirst(closeConnecting, tabIds, records0, sockets0, log0, cached0, timestamp0, i);
        i := i + 1;
      }
      ClosingEnds(closeConnecting, tabIds, records0, sockets0, log0, cached0, timestamp0, nextSocket, i,
                  records, sockets, log, cache.cached, cache.timestamp);
      NoTimersWithoutTabs();
    }

    /** One turn of `CloseEvery`: the `k`th tab of `tabs0`, the first still open, is closed. */
    method CloseFirst(closeConnecting: bool, tabs0: seq<TabId>, ghost records0: map<TabId, Tab>,
                      ghost sockets0: map<SocketId, Socket>, ghost log0: seq<Effect>,
                      ghost cached0: Option<TmuxDirectory.Listing>, ghost timestamp0: int, k: nat)
      requires Valid() && cache.Valid() && k < |tabs0|
      requires ClosingFrom(closeConnecting, tabs0, records0, sockets0, log0, cached0, timestamp0, nextSocket, k,
                           tabs, records, sockets, log, cache.cached, cache.timestamp)
      modifies this`tabs, this`records, this`activeTabId, this`sockets, this`timers, this`log, cache
      ensures Valid() && cache.Valid()
      ensures ClosingFrom(closeConnecting, tabs0, records0, sockets0, log0, cached0, timestamp0, nextSocket, k + 1,
                          tabs, records, sockets, log, cache.cached, cache.timestamp)
      ensures cache.inFlight == old(cache.inFlight) && cache.nextRequest == old(cache.nextRequest)
    {
      ghost var tabsBefore, recordsBefore, socketsBefore, logBefore := tabs, records, sockets, log;
      ghost var cachedBefore, timestampBefore := cache.cached, cache.timestamp;
      RemoveTab(tabs0[k], closeConnecting);
      ClosingFirst(closeConnecting, tabs0, records0, sockets0, log0, cached0, timestamp0, nextSocket, k,
                   tabsBefore, recordsBefore, socketsBefore, logBefore, cachedBefore, timestampBefore,
                   tabs, records, sockets, log, cache.cached, cache.timestamp);
    }

    /** With no tab open, no retry timer is pending. */
    lemma NoTimersWithoutTabs()
      requires Valid() && tabs == []
      ensures timers == map[]
    {
      assert forall h :: h !in timers;
    }

    /**
     * `closeAllTabs` once confirmed, as written: every tab is closed in key
     * order with `closeTab` as written, so each tab retires and nothing stays
     * selected, but every socket that was still connecting keeps connecting
     * with no tab left to own it.
     */
    method CloseAllTabs()
      requires Valid() && cache.Valid()
      modifies this`tabs, this`records, this`activeTabId, this`sockets, this`timers, this`log, cache
      ensures Valid() && cache.Valid()
      ensures ClosedEvery(false, old(tabs), old(records), old(sockets), old(log), old(cache.cached), old(cache.timestamp))
      ensures cache.inFlight == old(cache.inFlight) && cache.nextRequest == old(cache.nextRequest)
      ensures (exists s :: s in old(sockets) && old(sockets[s]).readyState == Connecting) ==> !NoOrphans()
    {
      ghost var sockets0 := sockets;
      CloseEvery(false);
      if s :| s in sockets0 && sockets0[s].readyState == Connecting {
        LiveSocketOrphaned(tabs, sockets, s);
      }
    }

    /**
     * `closeAllTabs` with the corrected `closeTab`: every tab is closed and
     * retired, nothing is selected, and no live socket is left without a tab.
     */
    method CloseAllTabsIntended()
      requires Valid() && cache.Valid()
      modifies this`tabs, this`records, this`activeTabId, this`sockets, this`timers, this`log, cache
      ensures Valid() && cache.Valid()
      ensures ClosedEvery(true, old(tabs), old(records), old(sockets), old(log), old(cache.cached), old(cache.timestamp))
      ensures cache.inFlight == old(cache.inFlight) && cache.nextRequest == old(cache.nextRequest)
      ensures old(NoOrphans()) ==> NoOrphans()
    {
      if NoOrphans() {
        ClosingEveryLeavesNoOrphans(tabs, sockets);
      }
      CloseEvery(true);
    }

    /**
     * `closeTab` as written: only an open socket is closed. A socket still
     * connecting stays connecting while its tab is gone, and its `onopen`
     * (see `OnOpen`) will still send `create` for it.
     */
    method CloseTabAsWritten(t: TabId)
      requires Valid() && cache.Valid()
      modifies this`tabs, this`records, this`activeTabId, this`sockets, this`timers, this`log, cache
      ensures Valid() && cache.Valid()
      ensures t !in old(tabs) ==>
        && tabs == old(tabs) && records == old(records) && activeTabId == old(activeTabId)
        && sockets == old(sockets) && timers == old(timers) && log == old(log) && unchanged(cache)
      ensures t in old(tabs) ==>
        var tab := old(records[t]);
        && TabClosed(t, false, old(tabs), old(records), old(sockets), old(log), tabs, records, sockets, log)
        && timers == Cleared(old(timers), tab.reconnectTimer)
        && activeTabId == (if old(activeTabId) != Some(t) then old(activeTabId)
                           else if tabs == [] then None else Some(tabs[0]))
        && (TmuxMode(tab.mode) ==> cache.cached.None? && cache.timestamp == 0)
        && (!TmuxMode(tab.mode) ==> unchanged(cache))
      ensures cache.inFlight == old(cache.inFlight) && cache.nextRequest == old(cache.nextRequest)
      ensures old(t in tabs && records[t].socket.Some?) && old(records[t].socket.value) in old(sockets)
              && old(sockets[records[t].socket.value].readyState) == Connecting ==>
        var s := old(records[t].socket.value);
        s in sockets && sockets[s] == Socket(t, Connecting) && !NoOrphans()
    {
      RemoveTab(t, false);
    }

    /** The terminal's `onData` handler: keystrokes go out only while the tab's socket is open. */
    method OnTermData(t: TabId, data: string)
      modifies this`log
      ensures OpenSocketOf(t).Some? ==> log == old(log) + [Send(OpenSocketOf(t).value, Input(data))]
      ensures OpenSocketOf(t).None? ==> log == old(log)
    {
      var s := OpenSocketOf(t);
      if s.Some? {
        log := log + [Send(s.value, Input(data))];
      }
    }

    /** `handleWindowResize`: the active tab's new size is sent while its socket is open. */
    method OnWindowResize(cols: int, rows: int)
      modifies this`log
      ensures var target := if activeTabId.Some? && activeTabId.value in tabs then OpenSocketOf(activeTabId.value) else None;
        && (target.Some? ==> log == old(log) + [Send(target.value, Resize(cols, rows))])
        && (target.None? ==> log == old(log))
    {
      if activeTabId.None? || activeTabId.value !in tabs {
        return;
      }
      var s := OpenSocketOf(activeTabId.value);
      if s.Some? {
        log := log + [Send(s.value, Resize(cols, rows))];
      }
    }

    /** `sendKey` from the virtual keyboard: a recognised key is sent to the active tab. */
    method SendKey(key: string, modifier: string)
      modifies this`log
      ensures var target := if activeTabId.Some? && activeTabId.value in tabs then OpenSocketOf(activeTabId.value) else None;
        && (target.Some? && KeyData(key, modifier).Some? ==>
              log == old(log) + [Send(target.value, Input(KeyData(key, modifier).value))])
        && (target.None? || KeyData(key, modifier).None? ==> log == old(log))
    {
      if activeTabId.None? || activeTabId.value !in tabs {
        return;
      }
      var s := OpenSocketOf(activeTabId.value);
      var data := KeyData(key, modifier);
      if s.Some? && data.Some? {
        log := log + [Send(s.value, Input(data.value))];
      }
    }

    /**
     * `sendTmuxCommandInternal`: the prefixed command goes to the given tab,
     * or else the active one, and `[` and `q` switch copy mode on and off.
     */
    method SendTmuxCommand(tabOverride: Option<TabId>, command: string)
      requires Valid()
      modifies this`log, this`records
      ensures Valid()
      ensures var t := if tabOverride.Some? then tabOverride else activeTabId;
        var target := if t.Some? && t.value in tabs then OpenSocketOf(t.value) else None;
        && (target.Some? ==>
              && log == old(log) + [Send(target.value, Input(TmuxCommandData(command)))]
              && records == old(records)[t.value := old(records[t.value]).(
                   tmuxCopyModeActive := CopyModeAfterCommand(old(records[t.value]).tmuxCopyModeActive, command))])
        && (target.None? ==> log == old(log) && records == old(records))
    {
      var t := if tabOverride.Some? then tabOverride else activeTabId;
      if t.None? || t.value !in tabs {
        return;
      }
      var s := OpenSocketOf(t.value);
      if s.None? {
        return;
      }
      var tab := records[t.value];
      var r := tab.(tmuxCopyModeActive := CopyModeAfterCommand(tab.tmuxCopyModeActive, command));
      RecordUpdated(tabs, records, activeTabId, nextTabId, sockets, timers, nextSocket, nextTimer, t.value, r);
      log := log + [Send(s.value, Input(TmuxCommandData(command)))];
      records := records[t.value := r];
    }

    /** `handleTmuxSoftKey`: previous, next and last window, on an open tab whose socket is open. */
    method HandleTmuxSoftKey(t: TabId, action: string)
      modifies this`log
      ensures var target := if t in tabs then OpenSocketOf(t) else None;
        && (target.Some? && SoftKeyData(action).Some? ==>
              log == old(log) + [Send(target.value, Input(SoftKeyData(action).value))])
        && (target.None? || SoftKeyData(action).None? ==> log == old(log))
    {
      if t !in tabs {
        return;
      }
      var s := OpenSocketOf(t);
      var data := SoftKeyData(action);
      if s.Some? && data.Some? {
        log := log + [Send(s.value, Input(data.value))];
      }
    }

    /**
     * `performScroll`: tmux-backed tabs scroll through copy mode, other tabs
     * move the terminal's own viewport, whose top line, buffer length and
     * row count are given. `handled` says whether the scroll indicator is
     * refreshed afterwards.
     */
    method PerformScroll(t: TabId, direction: Direction, viewportStart: int, bufferLength: int, rows: int)
      returns (handled: bool)
      requires Valid()
      modifies this`log, this`records
      ensures Valid()
      ensures t !in tabs ==> !handled && log == old(log) && records == old(records)
      ensures t in tabs && !TmuxMode(old(records[t]).mode) ==>
        var target := LocalScrollTarget(viewportStart, bufferLength, rows, direction);
        && records == old(records)
        && handled == !target.Ignored?
        && log == old(log) + (if handled then [ScrollViewport(t, target)] else [])
      ensures t in tabs && TmuxMode(old(records[t]).mode) ==> TmuxScrolled(t, direction, handled, old(records), old(log))
    {
      if t !in tabs {
        return false;
      }
      if TmuxMode(records[t].mode) {
        handled := PerformTmuxScroll(t, direction);
      } else {
        var target := LocalScrollTarget(viewportStart, bufferLength, rows, direction);
        handled := !target.Ignored?;
        if handled {
          log := log + [ScrollViewport(t, target)];
        }
      }
    }

    /**
     * The outcome of `performTmuxScroll` on open tab `t`: nothing without an
     * open socket; otherwise the keystrokes of `TmuxScroll` are sent and the
     * copy-mode flag follows it.
     */
    ghost predicate TmuxScrolled(t: TabId, direction: Direction, handled: bool, records0: map<TabId, Tab>, log0: seq<Effect>)
      requires t in records0
      reads this`records, this`sockets, this`log
    {
      var s := if t in records0 && records0[t].socket.Some? && records0[t].socket.value in sockets
                  && sockets[records0[t].socket.value].readyState == Open
               then records0[t].socket else None;
      var r := TmuxScroll(records0[t].tmuxCopyModeActive, direction);
      && (s.None? ==> !handled && log == log0 && records == records0)
      && (s.Some? ==>
            && handled == r.2
            && log == log0 + Inputs(s.value, r.0)
            && records == records0[t := records0[t].(tmuxCopyModeActive := r.1)])
    }

    /** `performTmuxScroll`. */
    method PerformTmuxScroll(t: TabId, direction: Direction) returns (handled: bool)
      requires Valid() && t in tabs
      modifies this`log, this`records
      ensures Valid()
      ensures t in old(records) && TmuxScrolled(t, direction, handled, old(records), old(log))
    {
      var s := OpenSocketOf(t);
      if s.None? {
        return false;
      }
      var tab := records[t];
      var r := TmuxScroll(tab.tmuxCopyModeActive, direction);
      RecordUpdated(tabs, records, activeTabId, nextTabId, sockets, timers, nextSocket, nextTimer,
                    t, tab.(tmuxCopyModeActive := r.1));
      log := log + Inputs(s.value, r.0);
      records := records[t := tab.(tmuxCopyModeActive := r.1)];
      handled := r.2;
    }
  }

  /** A fresh tab manager with one tmux tab whose socket 0 is still connecting. */
  method NewTmuxTab() returns (app: App, t: TabId)
    ensures fresh(app) && fresh(app.cache)
    ensures app.Valid() && app.cache.Valid()
    ensures t in app.tabs && t in app.records && app.records[t].socket == Some(0)
    ensures app.records[t].mode == "tmux" && app.records[t].sessionName == "" && app.records[t].reconnectAttempts == 0
    ensures 0 in app.sockets && app.sockets[0] == Socket(t, Connecting)
  {
    var cache := new SessionCache.SessionCache();
    app := new App(cache);
    t := app.CreateTab("", "tmux", "");
  }

  /**
   * The discrepancy of `CloseTabAsWritten`, on a concrete run: a tmux tab is
   * created and closed before its socket opens; the socket then opens and
   * sends `create` for a tab that no longer exists.
   */
  method ClosedTabStillCreates() returns (app: App, s: SocketId)
    ensures s in app.sockets && app.sockets[s].tab !in app.tabs && app.sockets[s].readyState == Open
    ensures |app.log| > 0 && app.log[|app.log| - 1] == Send(s, Create("tmux", "", 80, 24))
  {
    var t;
    app, t := NewTmuxTab();
    s := 0;
    app.CloseTabAsWritten(t);
    assert app.sockets[s] == Socket(t, Connecting) && t !in app.tabs;
    OrphanOpens(app, t, s);
  }

  /**
   * The same with `closeAllTabs`: a tmux tab is created and every tab is
   * closed before its socket opens; the socket still opens and sends
   * `create` for a tab that no longer exists.
   */
  method AllClosedStillCreates() returns (app: App, s: SocketId)
    ensures s in app.sockets && app.tabs == [] && app.sockets[s].readyState == Open
    ensures |app.log| > 0 && app.log[|app.log| - 1] == Send(s, Create("tmux", "", 80, 24))
  {
    var t;
    app, t := NewTmuxTab();
    s := 0;
    ghost var tabs0, records0, sockets0 := app.tabs, app.records, app.sockets;
    app.CloseAllTabs();
    assert app.sockets == SocketsAfterClosing(sockets0, tabs0, false);
    assert app.records == RecordsAfterClosing(records0, tabs0);
    assert app.sockets[s] == Socket(t, Connecting);
    OrphanOpens(app, t, s);
  }

  /** The socket `s` of the closed tmux tab `t` opens, and its `onopen` sends `create`. */
  method OrphanOpens(app: App, t: TabId, s: SocketId)
    requires app.Valid() && s in app.sockets && app.sockets[s] == Socket(t, Connecting)
    requires t in app.records && app.records[t].mode == "tmux" && app.records[t].sessionName == ""
    requires app.records[t].reconnectAttempts == 0
    modifies app`records, app`sockets, app`log
    ensures s in app.sockets && app.sockets[s] == Socket(t, Open)
    ensures |app.log| > 0 && app.log[|app.log| - 1] == Send(s, Create("tmux", "", 80, 24))
  {
    assert Shows(t, OpenNotices(app.records[t])) == [];
    app.OnOpen(s, 80, 24);
  }
}
