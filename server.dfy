/**
 * The terminal server: the registry of live terminals, the idle timers that
 * reap them, the per-connection message protocol, the rename endpoint and the
 * heartbeat sweep. Sockets, ptys, tmux and timers are outside the model: their
 * events arrive as method calls, their outcomes as parameters, and everything
 * the server asks of them is appended to an effect log.
 */
module TerminalServer {
  import opened Wrappers
  import opened Text
  import opened Protocol
  import opened TmuxDirectory
  import opened Maps

  /**
   * A terminal id is `Date.now().toString()`; it is kept here as the
   * millisecond stamp itself (decimal rendering is injective, so equal ids and
   * equal stamps coincide). Nothing makes two stamps differ.
   */
  type TerminalId = nat
  type ConnId = nat
  type ProcId = nat
  type TimerHandle = nat

  /** What a pty runs: the user's shell, or `tmux attach-session -t target`. */
  datatype Command = Shell | TmuxAttach(target: string)

  /** One entry of the `terminals` map. */
  datatype Session = Session(proc: ProcId, sessionMode: string, sessionName: string, conn: ConnId, idleTimer: Option<TimerHandle>)

  datatype ReadyState = Open | Closing | Closed

  /** A WebSocket with its heartbeat flag and the handler's closure variables `term` and `terminalId`. */
  datatype Connection = Connection(isAlive: bool, readyState: ReadyState, term: Option<ProcId>, terminalId: Option<TerminalId>)

  /** What a pty's exit and output handlers captured when they were registered. */
  datatype Binding = Binding(conn: ConnId, terminalId: TerminalId)

  /** A request the server makes of a socket, a pty or tmux. */
  datatype Effect =
    | Send(conn: ConnId, frame: ServerFrame)
    | Close(conn: ConnId, code: int)
    | NewTmuxSession(name: string)
    | Spawn(proc: ProcId, command: Command, cols: int, rows: int)
    | Write(proc: ProcId, data: string)
    | ResizeTerm(proc: ProcId, cols: int, rows: int)
    | Kill(proc: ProcId)
    | Detach(name: string)
    | RenameTmuxSession(from: string, to: string)

  /** Outcomes of the external calls a `create` makes: `which tmux`, `has-session`, `new-session`, `pty.spawn`. */
  datatype Oracle = Oracle(tmuxAvailable: bool, hasSession: bool, newSessionOk: bool, spawnOk: bool)

  const MSG_LIMIT := "Maximum number of terminals reached. Please close an existing session and try again."
  const MSG_NO_TMUX := "tmux is not installed on the server."
  const MSG_SHELL_FAILED := "Failed to start a shell session."
  const MSG_IDLE := "Session closed due to inactivity."
  const MSG_RENAME_FAILED := "Failed to rename tmux session."

  function AttachFailed(name: string): string {
    "Failed to attach to tmux session \"" + name + "\"."
  }

  function CreateFailed(name: string): string {
    "Failed to create tmux session \"" + name + "\"."
  }

  /** `msg.mode || 'new'`. */
  function EffectiveMode(mode: string): (m: string)
    ensures m != ""
    ensures m == "new" <==> mode == "" || mode == "new"
    ensures mode != "" ==> m == mode
  {
    if mode == "" then "new" else mode
  }

  /** `x || d` for a numeric field: a zero (or missing) value takes the default. */
  function OrDefault(x: int, d: int): int {
    if x == 0 then d else x
  }

  /** `msg.sessionName || \`tailmux-${Date.now()}\``. */
  function TmuxSessionName(requested: string, stamp: nat): (name: string)
    ensures name != ""
    ensures requested != "" ==> name == requested
    ensures requested == "" ==> |name| > 8 && name[..8] == "tailmux-" && name[8..] == NatToString(stamp)
  {
    if requested != "" then requested else "tailmux-" + NatToString(stamp)
  }

  predicate TmuxBacked(mode: string) {
    mode == "attach" || mode == "tmux"
  }

  /**
   * `detachTmuxClient` as the teardown paths call it: only tmux-backed sessions
   * with a name, and only when tmux is still installed.
   */
  function DetachEffects(s: Session, tmuxAvailable: bool): (effects: seq<Effect>)
    ensures |effects| <= 1
    ensures effects != [] <==> TmuxBacked(s.sessionMode) && s.sessionName != "" && tmuxAvailable
    ensures effects != [] ==> effects[0] == Detach(s.sessionName)
  {
    if TmuxBacked(s.sessionMode) && s.sessionName != "" && tmuxAvailable then [Detach(s.sessionName)] else []
  }

  /** What a `create` frame leads to: a refusal with its message and close code, or a pty to start. */
  datatype CreatePlan = Refuse(message: string, code: int) | Launch(command: Command, sessionName: string)

  predicate AtCapacity(maxTerminals: int, size: nat) {
    maxTerminals > 0 && size >= maxTerminals
  }

  /** Whether a `create` gets as far as `tmux new-session`. */
  predicate TriesNewSession(maxTerminals: int, size: nat, mode: string, env: Oracle) {
    !AtCapacity(maxTerminals, size) && EffectiveMode(mode) == "tmux" && env.tmuxAvailable && !env.hasSession
  }

  /**
   * The decision the `create` handler takes. A pty is started only below the
   * limit and after a successful spawn; tmux is needed for the tmux modes; an
   * `attach` without a name falls through to a plain shell.
   */
  function PlanCreate(maxTerminals: int, size: nat, mode: string, requested: string, stamp: nat, env: Oracle): (plan: CreatePlan)
    ensures AtCapacity(maxTerminals, size) ==> plan == Refuse(MSG_LIMIT, CLOSE_TRY_AGAIN_LATER)
    ensures plan.Refuse? ==> plan.code == CLOSE_TRY_AGAIN_LATER || plan.code == CLOSE_INTERNAL_ERROR
    ensures plan.Launch? ==> env.spawnOk && !AtCapacity(maxTerminals, size)
    ensures plan.Launch? && plan.command.TmuxAttach? ==>
      env.tmuxAvailable && plan.command.target == plan.sessionName && plan.sessionName != ""
    ensures plan.Launch? ==>
      (plan.command.Shell? <==> EffectiveMode(mode) != "tmux" && !(EffectiveMode(mode) == "attach" && requested != ""))
    ensures plan.Launch? && plan.command.Shell? ==> plan.sessionName == requested
    ensures TriesNewSession(maxTerminals, size, mode, env) && !env.newSessionOk ==>
      plan == Refuse(CreateFailed(TmuxSessionName(requested, stamp)), CLOSE_INTERNAL_ERROR)
    ensures !AtCapacity(maxTerminals, size) && plan.Refuse? ==> plan.code == CLOSE_INTERNAL_ERROR
    ensures (&& !AtCapacity(maxTerminals, size) && env.spawnOk
             && (EffectiveMode(mode) == "tmux" || (EffectiveMode(mode) == "attach" && requested != "") ==> env.tmuxAvailable)
             && !(TriesNewSession(maxTerminals, size, mode, env) && !env.newSessionOk))
      ==> plan.Launch?
    ensures plan.Launch? && plan.command.TmuxAttach? ==>
      plan.sessionName == (if EffectiveMode(mode) == "tmux" then TmuxSessionName(requested, stamp) else requested)
  {
    var sessionMode := EffectiveMode(mode);
    if AtCapacity(maxTerminals, size) then Refuse(MSG_LIMIT, CLOSE_TRY_AGAIN_LATER)
    else if sessionMode == "attach" && requested != "" then
      if !env.tmuxAvailable then Refuse(MSG_NO_TMUX, CLOSE_INTERNAL_ERROR)
      else if !env.spawnOk then Refuse(AttachFailed(requested), CLOSE_INTERNAL_ERROR)
      else Launch(TmuxAttach(requested), requested)
    else if sessionMode == "tmux" then
      var name := TmuxSessionName(requested, stamp);
      if !env.tmuxAvailable then Refuse(MSG_NO_TMUX, CLOSE_INTERNAL_ERROR)
      else if !env.hasSession && !env.newSessionOk then Refuse(CreateFailed(name), CLOSE_INTERNAL_ERROR)
      else if !env.spawnOk then Refuse(AttachFailed(name), CLOSE_INTERNAL_ERROR)
      else Launch(TmuxAttach(name), name)
    else if !env.spawnOk then Refuse(MSG_SHELL_FAILED, CLOSE_INTERNAL_ERROR)
    else Launch(Shell, requested)
  }

  /** A missing mode behaves as `new`, and `attach` without a name as a plain shell. */
  lemma ModeDefaults(maxTerminals: int, size: nat, requested: string, stamp: nat, env: Oracle)
    ensures PlanCreate(maxTerminals, size, "", requested, stamp, env) == PlanCreate(maxTerminals, size, "new", requested, stamp, env)
    ensures PlanCreate(maxTerminals, size, "attach", "", stamp, env) == PlanCreate(maxTerminals, size, "new", "", stamp, env)
  {
  }

  /**
   * What the idle callback asks for, in order: the inactivity error, the tmux
   * detach when it applies, the kill, and a normal close if the socket is open.
   */
  function IdleEffects(s: Session, open: bool, tmuxAvailable: bool): (effects: seq<Effect>)
    ensures |effects| == 2 + |DetachEffects(s, tmuxAvailable)| + (if open then 1 else 0)
    ensures effects[0] == Send(s.conn, Error(MSG_IDLE))
    ensures Kill(s.proc) in effects
    ensures Close(s.conn, CLOSE_NORMAL) in effects <==> open
    ensures effects[1..1 + |DetachEffects(s, tmuxAvailable)|] == DetachEffects(s, tmuxAvailable)
    ensures effects[1 + |DetachEffects(s, tmuxAvailable)|] == Kill(s.proc)
    ensures open ==> effects[|effects| - 1] == Close(s.conn, CLOSE_NORMAL)
  {
    [Send(s.conn, Error(MSG_IDLE))] + DetachEffects(s, tmuxAvailable) + [Kill(s.proc)]
      + (if open then [Close(s.conn, CLOSE_NORMAL)] else [])
  }

  /** Drops a cleared timer from the pending ones. */
  function Cancel(timers: map<TimerHandle, TerminalId>, timer: Option<TimerHandle>): (r: map<TimerHandle, TerminalId>)
    ensures timer.None? ==> r == timers
    ensures timer.Some? ==> r.Keys == timers.Keys - {timer.value}
    ensures forall h :: h in r ==> h in timers && r[h] == timers[h]
  {
    if timer.Some? then timers - {timer.value} else timers
  }

  /** `ws.close()`: an open socket starts closing; any other is left as it is. */
  function AfterClose(x: Connection): (y: Connection)
    ensures y.readyState == (if x.readyState == Open then Closing else x.readyState)
    ensures y.isAlive == x.isAlive && y.term == x.term && y.terminalId == x.terminalId
  {
    if x.readyState == Open then x.(readyState := Closing) else x
  }

  /** The entries of `terminals` after a successful rename from `from` to `to`. */
  function RenameEntry(s: Session, from: string, to: string): Session {
    if s.sessionName == from then s.(sessionName := to) else s
  }

  /** The `error` field of a failed `rename-session`: tmux's trimmed stderr, or a fixed message. */
  function RenameFailure(stderr: string): (message: string)
    ensures message != ""
    ensures Trim(stderr) != "" ==> message == Trim(stderr)
    ensures Trim(stderr) == "" ==> message == MSG_RENAME_FAILED
  {
    var t := Trim(stderr);
    if t == "" then MSG_RENAME_FAILED else t
  }

  datatype RenameResponse = Renamed(newName: string) | Rejected(status: int, error: string)

  /** The answer of `POST /api/tmux/rename`, given the outcomes of `which tmux` and `rename-session`. */
  function RenameAnswer(currentName: Option<string>, newName: Option<string>, tmuxAvailable: bool, renameOk: bool, stderr: string): (r: RenameResponse)
    ensures r.Renamed? <==> tmuxAvailable && RenameRejection(currentName, newName).None? && renameOk
    ensures r.Renamed? ==> r.newName == BodyName(newName) && IsValidSessionName(r.newName)
    ensures !tmuxAvailable ==> r == Rejected(400, MSG_NO_TMUX)
    ensures tmuxAvailable && RenameRejection(currentName, newName).Some? ==>
      r == Rejected(400, RenameRejection(currentName, newName).value)
    ensures r.Rejected? ==> (r.status == 500 <==> tmuxAvailable && RenameRejection(currentName, newName).None?)
  {
    if !tmuxAvailable then Rejected(400, MSG_NO_TMUX)
    else match RenameRejection(currentName, newName)
      case Some(message) => Rejected(400, message)
      case None => if renameOk then Renamed(BodyName(newName)) else Rejected(500, RenameFailure(stderr))
  }

  /** A client the heartbeat still sees: `wss.clients` drops a socket once it has closed. */
  predicate Live(x: Connection) {
    x.readyState != Closed
  }

  /** One client's step of a heartbeat tick: a silent client is terminated, any other is marked and pinged. */
  function Swept(x: Connection): (y: Connection)
    ensures !Live(x) ==> y == x
    ensures Live(x) && !x.isAlive ==> y == x.(readyState := Closing)
    ensures Live(x) && x.isAlive ==> y == x.(isAlive := false)
  {
    if !Live(x) then x
    else if !x.isAlive then x.(readyState := Closing)
    else x.(isAlive := false)
  }

  predicate Terminates(x: Connection) {
    Live(x) && !x.isAlive
  }

  /** A live client that answers no ping is terminated by the first or the second tick. */
  lemma SilentClientTerminated(x: Connection)
    requires Live(x)
    ensures Terminates(x) || Terminates(Swept(x))
  {
  }

  /** A live client that answers the ping of every tick is never terminated. */
  lemma AnsweringClientSurvives(x: Connection)
    requires Live(x) && x.isAlive
    ensures !Terminates(x)
    ensures var answered := Swept(x).(isAlive := true);
      Live(answered) && answered.isAlive && answered.readyState == x.readyState
  {
  }

  ghost predicate TimersBelow(timers: map<TimerHandle, TerminalId>, next: nat) {
    forall h :: h in timers ==> h < next
  }

  /** Each session's idle timer is pending and will fire for that session. */
  ghost predicate TimersPending(terminals: map<TerminalId, Session>, timers: map<TimerHandle, TerminalId>) {
    forall id :: id in terminals && terminals[id].idleTimer.Some? ==>
      terminals[id].idleTimer.value in timers && timers[terminals[id].idleTimer.value] == id
  }

  /** Each pending timer is the current timer of the session it will fire for. */
  ghost predicate TimersMatch(terminals: map<TerminalId, Session>, timers: map<TimerHandle, TerminalId>) {
    forall h :: h in timers ==> timers[h] in terminals && terminals[timers[h]].idleTimer == Some(h)
  }

  ghost predicate ConnsKnown(terminals: map<TerminalId, Session>, handlers: map<ProcId, Binding>, conns: map<ConnId, Connection>) {
    && (forall id :: id in terminals ==> terminals[id].conn in conns)
    && (forall p :: p in handlers ==> handlers[p].conn in conns)
  }

  /** Connection ids come from a counter, and `terminalId` is set whenever `term` is. */
  ghost predicate ConnsWellFormed(conns: map<ConnId, Connection>, next: nat) {
    forall c :: c in conns ==> c < next && (conns[c].term.Some? ==> conns[c].terminalId.Some?)
  }

  ghost predicate HandlersBelow(handlers: map<ProcId, Binding>, next: nat) {
    forall p :: p in handlers ==> p < next
  }

  /** Rearming the timer of `id` with the fresh handle `next` keeps the timer invariants. */
  lemma RearmKeeps(terminals: map<TerminalId, Session>, timers: map<TimerHandle, TerminalId>, next: nat, id: TerminalId)
    requires id in terminals && TimersBelow(timers, next) && TimersPending(terminals, timers)
    ensures var t := terminals[id := terminals[id].(idleTimer := Some(next))];
      var m := Cancel(timers, terminals[id].idleTimer)[next := id];
      && TimersBelow(m, next + 1) && TimersPending(t, m)
      && (TimersMatch(terminals, timers) ==> TimersMatch(t, m))
  {
    var t := terminals[id := terminals[id].(idleTimer := Some(next))];
    var m := Cancel(timers, terminals[id].idleTimer)[next := id];
    forall other | other in t && t[other].idleTimer.Some?
      ensures t[other].idleTimer.value in m && m[t[other].idleTimer.value] == other
    {
      if other != id {
        var h := t[other].idleTimer.value;
        assert h in timers && timers[h] == other && h < next;
      }
    }
  }

  /** Clearing the timer of `id` keeps the timer invariants. */
  lemma ClearKeeps(terminals: map<TerminalId, Session>, timers: map<TimerHandle, TerminalId>, id: TerminalId)
    requires id in terminals && TimersPending(terminals, timers)
    ensures var t := terminals[id := terminals[id].(idleTimer := None)];
      var m := Cancel(timers, terminals[id].idleTimer);
      && TimersPending(t, m)
      && (TimersMatch(terminals, timers) ==> TimersMatch(t, m))
  {
    var t := terminals[id := terminals[id].(idleTimer := None)];
    var m := Cancel(timers, terminals[id].idleTimer);
    forall other | other in t && t[other].idleTimer.Some?
      ensures t[other].idleTimer.value in m && m[t[other].idleTimer.value] == other
    {
      var h := t[other].idleTimer.value;
      assert h in timers && timers[h] == other;
    }
  }

  /** Removing a session keeps the timer invariants; matching survives when its timer was cleared first. */
  lemma DropKeeps(terminals: map<TerminalId, Session>, timers: map<TimerHandle, TerminalId>, id: TerminalId)
    requires TimersPending(terminals, timers)
    ensures TimersPending(terminals - {id}, timers)
    ensures TimersMatch(terminals, timers) && (id in terminals ==> terminals[id].idleTimer.None?) ==>
      TimersMatch(terminals - {id}, timers)
  {
  }

  /** A fired timer is no longer pending, and the session it fired for is removed. */
  lemma FireKeeps(terminals: map<TerminalId, Session>, timers: map<TimerHandle, TerminalId>, h: TimerHandle)
    requires h in timers && TimersPending(terminals, timers)
    ensures TimersPending(terminals - {timers[h]}, timers - {h})
    ensures timers[h] !in terminals ==> TimersPending(terminals, timers - {h})
    ensures TimersMatch(terminals, timers) ==> TimersMatch(terminals - {timers[h]}, timers - {h})
  {
    var id := timers[h];
    forall other | other in terminals - {id} && terminals[other].idleTimer.Some?
      ensures terminals[other].idleTimer.value in timers - {h}
    {
      assert timers[terminals[other].idleTimer.value] == other;
    }
  }

  /** A new entry without a timer keeps the timer invariants; matching survives when the id was free. */
  lemma InsertKeeps(terminals: map<TerminalId, Session>, timers: map<TimerHandle, TerminalId>, id: TerminalId, s: Session)
    requires s.idleTimer.None? && TimersPending(terminals, timers)
    ensures TimersPending(terminals[id := s], timers)
    ensures TimersMatch(terminals, timers) && id !in terminals ==> TimersMatch(terminals[id := s], timers)
  {
  }

  lemma DropConnsKnown(terminals: map<TerminalId, Session>, handlers: map<ProcId, Binding>, conns: map<ConnId, Connection>, id: TerminalId)
    requires ConnsKnown(terminals, handlers, conns)
    ensures ConnsKnown(terminals - {id}, handlers, conns)
  {
  }

  /** Replacing one connection's record keeps the invariants over connections. */
  lemma ConnUpdateKeeps(terminals: map<TerminalId, Session>, handlers: map<ProcId, Binding>, conns: map<ConnId, Connection>,
                        next: nat, c: ConnId, x: Connection)
    requires c in conns && ConnsKnown(terminals, handlers, conns) && ConnsWellFormed(conns, next)
    requires x.term.Some? ==> x.terminalId.Some?
    ensures ConnsKnown(terminals, handlers, conns[c := x]) && ConnsWellFormed(conns[c := x], next)
  {
  }

  /** Rewriting entries without touching their timers or sockets keeps the invariants over them. */
  lemma RewriteKeeps(t0: map<TerminalId, Session>, t1: map<TerminalId, Session>, timers: map<TimerHandle, TerminalId>,
                     handlers: map<ProcId, Binding>, conns: map<ConnId, Connection>)
    requires t0.Keys == t1.Keys
    requires forall id :: id in t1 ==> t1[id].idleTimer == t0[id].idleTimer && t1[id].conn == t0[id].conn
    ensures TimersPending(t0, timers) ==> TimersPending(t1, timers)
    ensures TimersMatch(t0, timers) ==> TimersMatch(t1, timers)
    ensures ConnsKnown(t0, handlers, conns) ==> ConnsKnown(t1, handlers, conns)
    ensures |t0| == |t1|
  {
    SameKeysSameSize(t0, t1);
  }

  class Server {
    const maxTerminals: int
    const heartbeatInterval: int
    const idleTimeoutMs: int

    /** The `terminals` map. */
    var terminals: map<TerminalId, Session>
    /** Every connection the server has accepted, by id. */
    var conns: map<ConnId, Connection>
    /** Pending idle timers and the terminal id each one's callback captured. */
    var timers: map<TimerHandle, TerminalId>
    /** The exit and output handlers registered on each spawned pty. */
    var handlers: map<ProcId, Binding>
    var nextHandle: nat
    var nextProc: nat
    var nextConn: nat
    /** Everything asked of sockets, ptys and tmux so far, in order. */
    var outbox: seq<Effect>

    ghost predicate Valid()
      reads this`terminals, this`timers, this`conns, this`handlers, this`nextHandle, this`nextProc, this`nextConn
    {
      && (maxTerminals > 0 ==> |terminals| <= maxTerminals)
      && TimersBelow(timers, nextHandle)
      && TimersPending(terminals, timers)
      && ConnsKnown(terminals, handlers, conns)
      && ConnsWellFormed(conns, nextConn)
      && HandlersBelow(handlers, nextProc)
    }

    /**
     * Every pending idle timer is the current timer of the session it will
     * reap. This holds as long as terminal ids do not collide.
     */
    ghost predicate TimersMatchSessions()
      reads this`terminals, this`timers
    {
      TimersMatch(terminals, timers)
    }

    /** With matching timers, no session has two idle timers pending. */
    lemma AtMostOneTimerPerSession()
      requires TimersMatchSessions()
      ensures forall h1, h2 :: h1 in timers && h2 in timers && timers[h1] == timers[h2] ==> h1 == h2
    {
    }

    constructor(maxTerminals: int, heartbeatInterval: int, idleTimeoutMs: int)
      ensures Valid() && TimersMatchSessions()
      ensures this.maxTerminals == maxTerminals && this.heartbeatInterval == heartbeatInterval
      ensures this.idleTimeoutMs == idleTimeoutMs
      ensures terminals == map[] && conns == map[] && timers == map[] && handlers == map[] && outbox == []
    {
      this.maxTerminals := maxTerminals;
      this.heartbeatInterval := heartbeatInterval;
      this.idleTimeoutMs := idleTimeoutMs;
      terminals := map[];
      conns := map[];
      timers := map[];
      handlers := map[];
      nextHandle := 0;
      nextProc := 0;
      nextConn := 0;
      outbox := [];
    }

    /** Whether the idle timer of `id` was rearmed with handle `h`, starting from `t0` and `m0`. */
    ghost predicate Rearmed(t0: map<TerminalId, Session>, m0: map<TimerHandle, TerminalId>, h: TimerHandle, id: TerminalId)
      requires id in t0
      reads this
    {
      && terminals == t0[id := t0[id].(idleTimer := Some(h))]
      && timers == Cancel(m0, t0[id].idleTimer)[h := id]
    }

    /** `clearIdleTimeout`. */
    method ClearIdleTimeout(id: TerminalId)
      requires Valid()
      modifies this
      ensures Valid()
      ensures conns == old(conns) && handlers == old(handlers) && outbox == old(outbox)
      ensures nextHandle == old(nextHandle) && nextProc == old(nextProc) && nextConn == old(nextConn)
      ensures id !in old(terminals) ==> terminals == old(terminals) && timers == old(timers)
      ensures id in old(terminals) ==>
        && terminals == old(terminals)[id := old(terminals[id]).(idleTimer := None)]
        && timers == Cancel(old(timers), old(terminals[id]).idleTimer)
      ensures old(TimersMatchSessions()) ==> TimersMatchSessions()
    {
      if id in terminals && terminals[id].idleTimer.Some? {
        ClearKeeps(terminals, timers, id);
        SizeAfterUpdate(terminals, id, terminals[id].(idleTimer := None));
        timers := timers - {terminals[id].idleTimer.value};
        terminals := terminals[id := terminals[id].(idleTimer := None)];
      }
    }

    /** `scheduleIdleTimeout`: (re)arms the one idle timer of a live session. */
    method ScheduleIdleTimeout(id: TerminalId)
      requires Valid()
      modifies this
      ensures Valid()
      ensures conns == old(conns) && handlers == old(handlers) && outbox == old(outbox)
      ensures nextProc == old(nextProc) && nextConn == old(nextConn)
      ensures idleTimeoutMs <= 0 || id !in old(terminals) ==>
        terminals == old(terminals) && timers == old(timers) && nextHandle == old(nextHandle)
      ensures idleTimeoutMs > 0 && id in old(terminals) ==>
        nextHandle == old(nextHandle) + 1 && Rearmed(old(terminals), old(timers), old(nextHandle), id)
      ensures old(TimersMatchSessions()) ==> TimersMatchSessions()
    {
      if idleTimeoutMs <= 0 {
        return;
      }
      if id !in terminals {
        return;
      }
      var session := terminals[id];
      RearmKeeps(terminals, timers, nextHandle, id);
      SizeAfterUpdate(terminals, id, session.(idleTimer := Some(nextHandle)));
      if session.idleTimer.Some? {
        timers := timers - {session.idleTimer.value};
      }
      var h := nextHandle;
      nextHandle := nextHandle + 1;
      timers := timers[h := id];
      terminals := terminals[id := session.(idleTimer := Some(h))];
    }

    /** `wss.on('connection')`: a fresh open socket, alive, with no terminal yet. */
    method Connect() returns (c: ConnId)
      requires Valid()
      modifies this
      ensures Valid()
      ensures c !in old(conns) && conns == old(conns)[c := Connection(true, Open, None, None)]
      ensures terminals == old(terminals) && timers == old(timers) && handlers == old(handlers) && outbox == old(outbox)
      ensures old(TimersMatchSessions()) ==> TimersMatchSessions()
    {
      c := nextConn;
      nextConn := nextConn + 1;
      conns := conns[c := Connection(true, Open, None, None)];
    }

    /** `ws.on('pong')`. */
    method OnPong(c: ConnId)
      requires Valid() && c in conns
      modifies this
      ensures Valid()
      ensures conns == old(conns)[c := old(conns[c]).(isAlive := true)]
      ensures terminals == old(terminals) && timers == old(timers) && handlers == old(handlers) && outbox == old(outbox)
      ensures old(TimersMatchSessions()) ==> TimersMatchSessions()
    {
      ConnUpdateKeeps(terminals, handlers, conns, nextConn, c, conns[c].(isAlive := true));
      conns := conns[c := conns[c].(isAlive := true)];
    }

    /** `sendError` followed by `ws.close(code)`. */
    method Reject(c: ConnId, message: string, code: int)
      requires Valid() && c in conns
      modifies this
      ensures Valid()
      ensures outbox == old(outbox) + [Send(c, Error(message)), Close(c, code)]
      ensures conns == old(conns)[c := AfterClose(old(conns[c]))]
      ensures terminals == old(terminals) && timers == old(timers) && handlers == old(handlers)
      ensures nextHandle == old(nextHandle) && nextProc == old(nextProc) && nextConn == old(nextConn)
    {
      outbox := outbox + [Send(c, Error(message)), Close(c, code)];
      ConnUpdateKeeps(terminals, handlers, conns, nextConn, c, AfterClose(conns[c]));
      conns := conns[c := AfterClose(conns[c])];
    }

    /**
     * A `create` frame on connection `c`. `stamp` and `id` are the two
     * `Date.now()` readings: the default tmux session name and the terminal id.
     * A refusal sends exactly one error frame and closes the socket, leaving
     * the registry as it was; a launch registers the new session.
     */
    method OnCreate(c: ConnId, mode: string, sessionName: string, cols: int, rows: int, env: Oracle, stamp: nat, id: TerminalId)
      requires Valid() && c in conns
      modifies this
      ensures Valid()
      ensures old(conns[c].term).Some? ==>
        terminals == old(terminals) && timers == old(timers) && conns == old(conns) && outbox == old(outbox)
      ensures old(conns[c].term).None? ==>
        var plan := PlanCreate(maxTerminals, old(|terminals|), mode, sessionName, stamp, env);
        var tried := if TriesNewSession(maxTerminals, old(|terminals|), mode, env)
          then [NewTmuxSession(TmuxSessionName(sessionName, stamp))] else [];
        plan.Refuse? ==>
          && terminals == old(terminals) && timers == old(timers)
          && conns == old(conns)[c := AfterClose(old(conns[c]))]
          && outbox == old(outbox) + tried + [Send(c, Error(plan.message)), Close(c, plan.code)]
      ensures old(conns[c].term).None? ==>
        var plan := PlanCreate(maxTerminals, old(|terminals|), mode, sessionName, stamp, env);
        var tried := if TriesNewSession(maxTerminals, old(|terminals|), mode, env)
          then [NewTmuxSession(TmuxSessionName(sessionName, stamp))] else [];
        plan.Launch? ==>
          Started(old(terminals), old(timers), old(conns), old(handlers), old(outbox) + tried, old(nextProc), old(nextHandle),
                  c, EffectiveMode(mode), plan.sessionName, plan.command, cols, rows, id)
      ensures old(TimersMatchSessions()) && id !in old(terminals) ==> TimersMatchSessions()
    {
      if conns[c].term.Some? {
        return;
      }
      var plan := PlanCreate(maxTerminals, |terminals|, mode, sessionName, stamp, env);
      if TriesNewSession(maxTerminals, |terminals|, mode, env) {
        outbox := outbox + [NewTmuxSession(TmuxSessionName(sessionName, stamp))];
      }
      match plan
      case Refuse(message, code) =>
        Reject(c, message, code);
      case Launch(command, name) =>
        Start(c, EffectiveMode(mode), name, command, cols, rows, id);
    }

    /**
     * The state after a successful spawn, starting from `t0`, `m0`, `c0`,
     * `hd0` and `o0`: pty `p` runs `command`, its session is registered under
     * `id` with a fresh idle timer when idle timeouts are on, the connection
     * holds the pty and the id, and the browser is told the terminal is ready.
     */
    ghost predicate Started(t0: map<TerminalId, Session>, m0: map<TimerHandle, TerminalId>, c0: map<ConnId, Connection>,
                            hd0: map<ProcId, Binding>, o0: seq<Effect>, p: ProcId, h: TimerHandle,
                            c: ConnId, mode: string, name: string, command: Command, cols: int, rows: int, id: TerminalId)
      requires c in c0
      reads this
    {
      var timer := if idleTimeoutMs > 0 then Some(h) else None;
      && terminals == t0[id := Session(p, mode, name, c, timer)]
      && timers == (if idleTimeoutMs > 0 then m0[h := id] else m0)
      && conns == c0[c := c0[c].(term := Some(p), terminalId := Some(id))]
      && handlers == hd0[p := Binding(c, id)]
      && outbox == o0 + [Spawn(p, command, OrDefault(cols, 80), OrDefault(rows, 24)), Send(c, Ready)]
    }

    /** The end of a successful `create`: spawn, register, arm the idle timer, send `ready`. */
    method Start(c: ConnId, sessionMode: string, name: string, command: Command, cols: int, rows: int, id: TerminalId)
      requires Valid() && c in conns && !AtCapacity(maxTerminals, |terminals|)
      modifies this
      ensures Valid()
      ensures Started(old(terminals), old(timers), old(conns), old(handlers), old(outbox), old(nextProc), old(nextHandle),
                      c, sessionMode, name, command, cols, rows, id)
      ensures old(TimersMatchSessions()) && id !in old(terminals) ==> TimersMatchSessions()
    {
      ghost var t0, h0 := terminals, nextHandle;
      var p := SpawnAndRegister(c, sessionMode, name, command, cols, rows, id);
      UpdateTwice(t0, id, Session(p, sessionMode, name, c, None), Session(p, sessionMode, name, c, Some(h0)));
      // Arming the timer leaves no trace in the effect log, so `ready` is logged first.
      outbox := outbox + [Send(c, Ready)];
      ScheduleIdleTimeout(id);
    }

    /**
     * `pty.spawn` as pty `p`, then `terminals.set(id, …)` together with the
     * handlers bound to `p` and the connection's `term` and `terminalId`.
     */
    method SpawnAndRegister(c: ConnId, sessionMode: string, name: string, command: Command, cols: int, rows: int, id: TerminalId)
      returns (p: ProcId)
      requires Valid() && c in conns && !AtCapacity(maxTerminals, |terminals|)
      modifies this
      ensures Valid()
      ensures p == old(nextProc) && nextProc == p + 1
      ensures terminals == old(terminals)[id := Session(p, sessionMode, name, c, None)]
      ensures conns == old(conns)[c := old(conns[c]).(term := Some(p), terminalId := Some(id))]
      ensures handlers == old(handlers)[p := Binding(c, id)]
      ensures outbox == old(outbox) + [Spawn(p, command, OrDefault(cols, 80), OrDefault(rows, 24))]
      ensures timers == old(timers) && nextHandle == old(nextHandle) && nextConn == old(nextConn)
      ensures old(TimersMatchSessions()) && id !in old(terminals) ==> TimersMatchSessions()
    {
      p := nextProc;
      var session := Session(p, sessionMode, name, c, None);
      ConnUpdateKeeps(terminals, handlers, conns, nextConn, c, conns[c].(term := Some(p), terminalId := Some(id)));
      CardinalityAfterInsert(terminals, id, session);
      InsertKeeps(terminals, timers, id, session);
      nextProc, outbox := nextProc + 1, outbox + [Spawn(p, command, OrDefault(cols, 80), OrDefault(rows, 24))];
      conns, terminals, handlers :=
        conns[c := conns[c].(term := Some(p), terminalId := Some(id))], terminals[id := session], handlers[p := Binding(c, id)];
    }

    /** An `input` frame: written to the pty, and the idle timer rearmed, only once a terminal exists. */
    method OnInput(c: ConnId, data: string)
      requires Valid() && c in conns
      modifies this
      ensures Valid()
      ensures conns == old(conns) && handlers == old(handlers)
      ensures old(conns[c].term).None? ==>
        terminals == old(terminals) && timers == old(timers) && outbox == old(outbox)
      ensures old(conns[c].term).Some? ==>
        var id := old(conns[c].terminalId).value;
        && outbox == old(outbox) + [Write(old(conns[c].term).value, data)]
        && (idleTimeoutMs <= 0 || id !in old(terminals) ==> terminals == old(terminals) && timers == old(timers))
        && (idleTimeoutMs > 0 && id in old(terminals) ==> Rearmed(old(terminals), old(timers), old(nextHandle), id))
      ensures old(TimersMatchSessions()) ==> TimersMatchSessions()
    {
      var x := conns[c];
      if x.term.Some? {
        outbox := outbox + [Write(x.term.value, data)];
        ScheduleIdleTimeout(x.terminalId.value);
      }
    }

    /** A `resize` frame: passed to the pty as given, only once a terminal exists. */
    method OnResize(c: ConnId, cols: int, rows: int)
      requires Valid() && c in conns
      modifies this
      ensures Valid()
      ensures terminals == old(terminals) && timers == old(timers) && conns == old(conns) && handlers == old(handlers)
      ensures old(conns[c].term).None? ==> outbox == old(outbox)
      ensures old(conns[c].term).Some? ==> outbox == old(outbox) + [ResizeTerm(old(conns[c].term).value, cols, rows)]
    {
      var x := conns[c];
      if x.term.Some? {
        outbox := outbox + [ResizeTerm(x.term.value, cols, rows)];
      }
    }

    /** `term.onData`: output of pty `p` goes to the socket that created it. */
    method OnOutput(p: ProcId, data: string)
      requires Valid() && p in handlers
      modifies this
      ensures Valid()
      ensures outbox == old(outbox) + [Send(old(handlers[p]).conn, Output(data))]
      ensures terminals == old(terminals) && timers == old(timers) && conns == old(conns) && handlers == old(handlers)
    {
      outbox := outbox + [Send(handlers[p].conn, Output(data))];
    }

    /** `term.onExit`: the entry goes, and the browser gets one `exit` frame with the code before the socket is closed. */
    method OnProcessExit(p: ProcId, exitCode: int)
      requires Valid() && p in handlers
      modifies this
      ensures Valid()
      ensures var b := old(handlers[p]);
        && Forgotten(old(terminals), old(timers), b.terminalId)
        && outbox == old(outbox) + [Send(b.conn, Exit(exitCode)), Close(b.conn, CLOSE_NO_STATUS)]
        && conns == old(conns)[b.conn := AfterClose(old(conns[b.conn]))]
      ensures handlers == old(handlers)
      ensures old(TimersMatchSessions()) ==> TimersMatchSessions()
    {
      var b := handlers[p];
      Forget(b.terminalId);
      outbox := outbox + [Send(b.conn, Exit(exitCode)), Close(b.conn, CLOSE_NO_STATUS)];
      ConnUpdateKeeps(terminals, handlers, conns, nextConn, b.conn, AfterClose(conns[b.conn]));
      conns := conns[b.conn := AfterClose(conns[b.conn])];
    }

    /** Whether `id` was dropped from `t0`, its idle timer cleared from `m0` first. */
    ghost predicate Forgotten(t0: map<TerminalId, Session>, m0: map<TimerHandle, TerminalId>, id: TerminalId)
      reads this
    {
      && terminals == t0 - {id}
      && timers == (if id in t0 then Cancel(m0, t0[id].idleTimer) else m0)
    }

    /** `clearIdleTimeout(id)` followed by `terminals.delete(id)`. */
    method Forget(id: TerminalId)
      requires Valid()
      modifies this
      ensures Valid()
      ensures Forgotten(old(terminals), old(timers), id)
      ensures conns == old(conns) && handlers == old(handlers) && outbox == old(outbox)
      ensures nextHandle == old(nextHandle) && nextProc == old(nextProc) && nextConn == old(nextConn)
      ensures old(TimersMatchSessions()) ==> TimersMatchSessions()
    {
      ghost var t0 := terminals;
      ClearIdleTimeout(id);
      CardinalityAfterRemove(terminals, id);
      DropKeeps(terminals, timers, id);
      if id in t0 {
        UpdateThenRemove(t0, id, terminals[id]);
      }
      DropConnsKnown(terminals, handlers, conns, id);
      terminals := terminals - {id};
    }

    /**
     * `ws.on('close')`: the connection's session, if it is still registered,
     * is detached, its timer cleared, its pty killed and its entry removed;
     * either way `term` is dropped.
     */
    method OnClose(c: ConnId, tmuxAvailable: bool)
      requires Valid() && c in conns
      modifies this
      ensures Valid()
      ensures conns == old(conns)[c := old(conns[c]).(readyState := Closed, term := None)]
      ensures handlers == old(handlers)
      ensures var id := old(conns[c].terminalId);
        id.None? || id.value !in old(terminals) ==>
          terminals == old(terminals) && timers == old(timers) && outbox == old(outbox)
      ensures var id := old(conns[c].terminalId);
        id.Some? && id.value in old(terminals) ==>
          var s := old(terminals[id.value]);
          && Forgotten(old(terminals), old(timers), id.value)
          && outbox == old(outbox) + DetachEffects(s, tmuxAvailable) + [Kill(s.proc)]
      ensures old(TimersMatchSessions()) ==> TimersMatchSessions()
    {
      var x := conns[c];
      ConnUpdateKeeps(terminals, handlers, conns, nextConn, c, x.(readyState := Closed, term := None));
      conns := conns[c := x.(readyState := Closed, term := None)];
      if x.terminalId.None? || x.terminalId.value !in terminals {
        return;
      }
      var id := x.terminalId.value;
      var session := terminals[id];
      outbox := outbox + DetachEffects(session, tmuxAvailable) + [Kill(session.proc)];
      Forget(id);
    }

    /**
     * The idle timer `h` fires. A session already gone is left alone;
     * otherwise it is reaped as `IdleEffects` describes. Either way the timer
     * is no longer pending.
     */
    method OnIdleTimer(h: TimerHandle, tmuxAvailable: bool)
      requires Valid() && h in timers
      modifies this
      ensures Valid()
      ensures handlers == old(handlers) && timers == old(timers) - {h}
      ensures old(timers[h]) !in old(terminals) ==>
        terminals == old(terminals) && conns == old(conns) && outbox == old(outbox)
      ensures old(timers[h]) in old(terminals) ==>
        ReapedIdle(old(terminals), old(conns), old(outbox), old(timers[h]), tmuxAvailable)
      ensures old(TimersMatchSessions()) ==> TimersMatchSessions()
    {
      var id := timers[h];
      FireKeeps(terminals, timers, h);
      if id in terminals {
        ReapIdle(id, tmuxAvailable);
      }
      timers := timers - {h};
    }

    /**
     * The state after the idle callback reaped `id`, starting from `t0`, `c0`
     * and `o0`: the entry is gone, an open socket is closing, and the effects
     * are those of `IdleEffects`.
     */
    ghost predicate ReapedIdle(t0: map<TerminalId, Session>, c0: map<ConnId, Connection>, o0: seq<Effect>, id: TerminalId, tmuxAvailable: bool)
      requires id in t0 && t0[id].conn in c0
      reads this
    {
      var s := t0[id];
      var open := c0[s.conn].readyState == Open;
      && terminals == t0 - {id}
      && conns == (if open then c0[s.conn := AfterClose(c0[s.conn])] else c0)
      && outbox == o0 + IdleEffects(s, open, tmuxAvailable)
    }

    /** The idle callback once it has found the session. */
    method ReapIdle(id: TerminalId, tmuxAvailable: bool)
      requires Valid() && id in terminals
      modifies this
      ensures Valid()
      ensures timers == old(timers) && handlers == old(handlers)
      ensures old(terminals[id]).conn in old(conns)
      ensures ReapedIdle(old(terminals), old(conns), old(outbox), id, tmuxAvailable)
      ensures nextHandle == old(nextHandle) && nextProc == old(nextProc) && nextConn == old(nextConn)
    {
      var current := terminals[id];
      var open := conns[current.conn].readyState == Open;
      outbox := outbox + IdleEffects(current, open, tmuxAvailable);
      DropKeeps(terminals, timers, id);
      DropConnsKnown(terminals, handlers, conns, id);
      CardinalityAfterRemove(terminals, id);
      terminals := terminals - {id};
      if open {
        ConnUpdateKeeps(terminals, handlers, conns, nextConn, current.conn, AfterClose(conns[current.conn]));
        conns := conns[current.conn := AfterClose(conns[current.conn])];
      }
    }

    /**
     * `POST /api/tmux/rename`: validation first, then `rename-session`, and
     * only after it succeeds every entry carrying the old name is renamed.
     */
    method HandleRename(currentName: Option<string>, newName: Option<string>, tmuxAvailable: bool, renameOk: bool, stderr: string)
      returns (response: RenameResponse)
      requires Valid()
      modifies this
      ensures Valid()
      ensures response == RenameAnswer(currentName, newName, tmuxAvailable, renameOk, stderr)
      ensures outbox == old(outbox) +
        (if tmuxAvailable && RenameRejection(currentName, newName).None?
         then [RenameTmuxSession(BodyName(currentName), BodyName(newName))] else [])
      ensures response.Rejected? ==> terminals == old(terminals)
      ensures response.Renamed? ==>
        && terminals.Keys == old(terminals).Keys
        && forall id :: id in terminals ==> terminals[id] == RenameEntry(old(terminals[id]), BodyName(currentName), BodyName(newName))
      ensures timers == old(timers) && conns == old(conns) && handlers == old(handlers)
      ensures old(TimersMatchSessions()) ==> TimersMatchSessions()
    {
      if !tmuxAvailable {
        return Rejected(400, MSG_NO_TMUX);
      }
      var rejection := RenameRejection(currentName, newName);
      if rejection.Some? {
        return Rejected(400, rejection.value);
      }
      var current := BodyName(currentName);
      var name := BodyName(newName);
      outbox := outbox + [RenameTmuxSession(current, name)];
      if !renameOk {
        return Rejected(500, RenameFailure(stderr));
      }
      RenameSessions(current, name);
      response := Renamed(name);
    }

    /** `terminals.forEach`: every entry whose `sessionName` is `from` now carries `to`; nothing else changes. */
    method RenameSessions(from: string, to: string)
      requires Valid()
      modifies this
      ensures Valid()
      ensures terminals.Keys == old(terminals).Keys
      ensures forall id :: id in terminals ==> terminals[id] == RenameEntry(old(terminals[id]), from, to)
      ensures timers == old(timers) && conns == old(conns) && handlers == old(handlers) && outbox == old(outbox)
      ensures old(TimersMatchSessions()) ==> TimersMatchSessions()
    {
      ghost var before := terminals;
      var todo := terminals.Keys;
      while todo != {}
        invariant todo <= before.Keys
        invariant terminals.Keys == before.Keys
        invariant forall id :: id in terminals ==>
          terminals[id] == if id in todo then before[id] else RenameEntry(before[id], from, to)
        invariant timers == old(timers) && conns == old(conns) && handlers == old(handlers) && outbox == old(outbox)
        invariant nextHandle == old(nextHandle) && nextProc == old(nextProc) && nextConn == old(nextConn)
        decreases todo
      {
        var id :| id in todo;
        terminals := terminals[id := RenameEntry(terminals[id], from, to)];
        todo := todo - {id};
      }
      RewriteKeeps(before, terminals, timers, handlers, conns);
    }

    /**
     * One heartbeat tick over `wss.clients`: silent clients are terminated,
     * the others marked not alive and pinged.
     */
    method HeartbeatTick() returns (terminated: set<ConnId>, pinged: set<ConnId>)
      requires Valid() && heartbeatInterval > 0
      modifies this
      ensures Valid()
      ensures conns.Keys == old(conns).Keys
      ensures forall c :: c in conns ==> conns[c] == Swept(old(conns[c]))
      ensures forall c :: c in terminated <==> c in old(conns) && Terminates(old(conns[c]))
      ensures forall c :: c in pinged <==> c in old(conns) && Live(old(conns[c])) && old(conns[c]).isAlive
      ensures terminals == old(terminals) && timers == old(timers) && handlers == old(handlers) && outbox == old(outbox)
      ensures old(TimersMatchSessions()) ==> TimersMatchSessions()
    {
      ghost var before := conns;
      var todo := conns.Keys;
      terminated := {};
      pinged := {};
      while todo != {}
        invariant todo <= before.Keys
        invariant conns.Keys == before.Keys
        invariant forall c :: c in conns ==> conns[c] == if c in todo then before[c] else Swept(before[c])
        invariant forall c :: c in terminated <==> c in before && c !in todo && Terminates(before[c])
        invariant forall c :: c in pinged <==> c in before && c !in todo && Live(before[c]) && before[c].isAlive
        invariant terminals == old(terminals) && timers == old(timers) && handlers == old(handlers) && outbox == old(outbox)
        invariant nextHandle == old(nextHandle) && nextProc == old(nextProc) && nextConn == old(nextConn)
        decreases todo
      {
        var c :| c in todo;
        var client := conns[c];
        if Live(client) {
          if !client.isAlive {
            terminated := terminated + {c};
            conns := conns[c := client.(readyState := Closing)];
          } else {
            conns := conns[c := client.(isAlive := false)];
            pinged := pinged + {c};
          }
        }
        todo := todo - {c};
      }
    }
  }
}
