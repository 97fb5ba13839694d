/**
 * The browser client's pure policies: the reconnect backoff, the page
 * arithmetic of local scrolling, and the bytes sent for on-screen keys,
 * tmux commands and tmux soft keys.
 */
module ClientPolicy {
  import opened Wrappers

  const MAX_RECONNECT_ATTEMPTS: nat := 5
  const RECONNECT_BASE_DELAY: nat := 500
  const RECONNECT_MAX_DELAY: nat := 5000

  function Pow2(n: nat): (r: nat)
    ensures r >= 1
  {
    if n == 0 then 1 else 2 * Pow2(n - 1)
  }

  /**
   * The delay before the next reconnect, in milliseconds, computed from the
   * number of attempts made so far: `min(5000, 500 * 2^attempts)`.
   */
  function Backoff(attempts: nat): (delay: nat)
    ensures RECONNECT_BASE_DELAY <= delay <= RECONNECT_MAX_DELAY
    ensures delay <= RECONNECT_BASE_DELAY * Pow2(attempts)
    ensures delay == RECONNECT_MAX_DELAY || delay == RECONNECT_BASE_DELAY * Pow2(attempts)
  {
    if RECONNECT_BASE_DELAY * Pow2(attempts) < RECONNECT_MAX_DELAY then RECONNECT_BASE_DELAY * Pow2(attempts)
    else RECONNECT_MAX_DELAY
  }

  /** The five delays a tab waits through before it gives up. */
  lemma BackoffSchedule()
    ensures Backoff(0) == 500 && Backoff(1) == 1000 && Backoff(2) == 2000 && Backoff(3) == 4000 && Backoff(4) == 5000
  {
    assert Pow2(1) == 2 && Pow2(2) == 4 && Pow2(3) == 8;
    assert Pow2(4) == 16;
  }

  lemma {:induction false} Pow2Monotone(a: nat, b: nat)
    requires a <= b
    ensures Pow2(a) <= Pow2(b)
    decreases b
  {
    if a < b {
      Pow2Monotone(a, b - 1);
    }
  }

  /** Waiting never gets shorter as attempts accumulate. */
  lemma BackoffMonotone(a: nat, b: nat)
    requires a <= b
    ensures Backoff(a) <= Backoff(b)
  {
    Pow2Monotone(a, b);
  }

  /** Each further attempt doubles the delay until the cap is reached. */
  lemma BackoffDoubles(n: nat)
    ensures Backoff(n + 1) == if 2 * Backoff(n) < RECONNECT_MAX_DELAY then 2 * Backoff(n) else RECONNECT_MAX_DELAY
  {
    assert Pow2(n + 1) == 2 * Pow2(n);
  }

  /** From the fourth retry on, the delay is the cap. */
  lemma {:induction false} BackoffCapped(n: nat)
    requires n >= 4
    ensures Backoff(n) == RECONNECT_MAX_DELAY
  {
    Pow2Monotone(4, n);
    assert Pow2(4) == 16;
  }

  // ---------------------------------------------------------------------------
  // Local scrolling

  /** A page is three quarters of the visible rows, and at least one line. */
  function PageSize(rows: int): (p: int)
    ensures p >= 1
    ensures rows >= 2 ==> p < rows
    ensures 4 * p <= 3 * rows || p == 1
    ensures 3 * rows >= 4 ==> 4 * p <= 3 * rows < 4 * p + 4
    ensures 3 * rows < 4 ==> p == 1
  {
    var q := (3 * rows) / 4;
    if q < 1 then 1 else q
  }

  /** The last line the viewport can start at. */
  function MaxViewportStart(bufferLength: int, rows: int): (m: int)
    ensures m >= 0 && m >= bufferLength - rows
    ensures m == 0 || m == bufferLength - rows
  {
    if bufferLength - rows > 0 then bufferLength - rows else 0
  }

  /**
   * The `direction` string the scroll handlers switch on. `Unknown` holds
   * any other string; `DirectionOf` is the only way the model builds one,
   * so its name is never "up", "down" or "bottom".
   */
  datatype Direction = Up | Down | Bottom | Unknown(name: string)

  /** The `switch (direction)` of the scroll handlers: the three known names, and anything else. */
  function DirectionOf(name: string): (d: Direction)
    ensures d == Up <==> name == "up"
    ensures d == Down <==> name == "down"
    ensures d == Bottom <==> name == "bottom"
    ensures d.Unknown? <==> name != "up" && name != "down" && name != "bottom"
    ensures d.Unknown? ==> d.name == name
  {
    if name == "up" then Up
    else if name == "down" then Down
    else if name == "bottom" then Bottom
    else Unknown(name)
  }

  /** What a scroll button does on a plain terminal. */
  datatype LocalScroll = ScrollToLine(line: int) | ScrollToBottom | Ignored

  /**
   * `performLocalScroll`: a page up stops at the first line and a page down
   * at the last viewport start; an unknown direction is not handled.
   */
  function LocalScrollTarget(viewportStart: int, bufferLength: int, rows: int, direction: Direction): (r: LocalScroll)
    ensures direction.Unknown? <==> r == Ignored
    ensures direction == Bottom <==> r == ScrollToBottom
    ensures direction == Up ==>
      && r.ScrollToLine? && r.line >= 0 && r.line >= viewportStart - PageSize(rows)
      && (r.line == 0 || r.line == viewportStart - PageSize(rows))
      && (viewportStart >= 0 ==> r.line <= viewportStart)
    ensures direction == Down ==>
      && r.ScrollToLine? && r.line <= MaxViewportStart(bufferLength, rows)
      && r.line <= viewportStart + PageSize(rows)
      && (r.line == MaxViewportStart(bufferLength, rows) || r.line == viewportStart + PageSize(rows))
      && (viewportStart <= MaxViewportStart(bufferLength, rows) ==> r.line >= viewportStart)
  {
    var pageSize := PageSize(rows);
    match direction
    case Up => ScrollToLine(if viewportStart - pageSize > 0 then viewportStart - pageSize else 0)
    case Down =>
      var maxStart := MaxViewportStart(bufferLength, rows);
      ScrollToLine(if maxStart < viewportStart + pageSize then maxStart else viewportStart + pageSize)
    case Bottom => ScrollToBottom
    case Unknown(_) => Ignored
  }

  /** A valid viewport start stays valid after any page step. */
  lemma ScrollStaysInBuffer(viewportStart: int, bufferLength: int, rows: int, direction: Direction)
    requires 0 <= viewportStart <= MaxViewportStart(bufferLength, rows)
    ensures var r := LocalScrollTarget(viewportStart, bufferLength, rows, direction);
      r.ScrollToLine? ==> 0 <= r.line <= MaxViewportStart(bufferLength, rows)
  {
  }

  /** Away from both ends, a page down followed by a page up comes back to the same line. */
  lemma PageDownThenUp(viewportStart: int, bufferLength: int, rows: int)
    requires 0 <= viewportStart && viewportStart + PageSize(rows) <= MaxViewportStart(bufferLength, rows)
    ensures var down := LocalScrollTarget(viewportStart, bufferLength, rows, Down);
      down == ScrollToLine(viewportStart + PageSize(rows))
      && LocalScrollTarget(down.line, bufferLength, rows, Up) == ScrollToLine(viewportStart)
  {
  }

  // ---------------------------------------------------------------------------
  // Keys and tmux commands

  const TMUX_PREFIX: string := "\U{0002}"
  const ESC: char := '\U{001B}'

  /** The escape sequence of a cursor key, if `key` names one. */
  function ArrowSequence(key: string): (r: Option<string>)
    ensures r.Some? ==> |r.value| == 3 && r.value[0] == ESC && r.value[1] == '['
  {
    if key == "ArrowUp" then Some([ESC, '[', 'A'])
    else if key == "ArrowDown" then Some([ESC, '[', 'B'])
    else if key == "ArrowRight" then Some([ESC, '[', 'C'])
    else if key == "ArrowLeft" then Some([ESC, '[', 'D'])
    else None
  }

  /**
   * `sendKey`: the control modifiers `c`, `d` and `z` win over the key; then
   * Escape, Tab, Enter and the arrows. Anything else sends nothing.
   */
  function KeyData(key: string, modifier: string): (data: Option<string>)
    ensures data.Some? ==> data.value != []
    ensures modifier == "c" ==> data == Some("\U{0003}")
    ensures modifier == "d" ==> data == Some("\U{0004}")
    ensures modifier == "z" ==> data == Some("\U{001A}")
    ensures modifier !in {"c", "d", "z"} && ArrowSequence(key).Some? ==> data == ArrowSequence(key)
    ensures modifier !in {"c", "d", "z"} && key == "Escape" ==> data == Some([ESC])
    ensures modifier !in {"c", "d", "z"} && key == "Tab" ==> data == Some("\t")
    ensures modifier !in {"c", "d", "z"} && key == "Enter" ==> data == Some("\r")
    ensures data.None? <==> modifier !in {"c", "d", "z"} && key !in {"Escape", "Tab", "Enter"} && ArrowSequence(key).None?
  {
    if modifier == "c" then Some("\U{0003}")
    else if modifier == "d" then Some("\U{0004}")
    else if modifier == "z" then Some("\U{001A}")
    else if key == "Escape" then Some([ESC])
    else if key == "Tab" then Some("\t")
    else if key == "Enter" then Some("\r")
    else ArrowSequence(key)
  }

  /**
   * `sendTmuxCommandInternal`: the tmux prefix `Ctrl-B`, then the command,
   * with arrows sent as their escape sequences and the HTML-escaped quote
   * `&quot;` as a plain `"`.
   */
  function TmuxCommandData(command: string): (data: string)
    ensures |data| >= 1 && data[..1] == TMUX_PREFIX
    ensures ArrowSequence(command).Some? ==> data == TMUX_PREFIX + ArrowSequence(command).value
    ensures command == "&quot;" ==> data == TMUX_PREFIX + "\""
    ensures ArrowSequence(command).None? && command != "&quot;" ==> data == TMUX_PREFIX + command
  {
    match ArrowSequence(command)
    case Some(sequence) => TMUX_PREFIX + sequence
    case None => if command == "&quot;" then TMUX_PREFIX + "\"" else TMUX_PREFIX + command
  }

  /** A tmux arrow command is the prefix followed by exactly what the arrow key itself sends. */
  lemma ArrowsAgree(arrow: string)
    requires arrow in {"ArrowUp", "ArrowDown", "ArrowLeft", "ArrowRight"}
    ensures KeyData(arrow, "").Some?
    ensures TmuxCommandData(arrow) == TMUX_PREFIX + KeyData(arrow, "").value
  {
  }

  /** Different keys send different bytes (the modifiers aside). */
  lemma KeyDataInjective(k1: string, k2: string)
    requires KeyData(k1, "").Some? && KeyData(k1, "") == KeyData(k2, "")
    ensures k1 == k2
  {
  }

  /** Different tmux commands send different bytes, except that `&quot;` is an alias of `"`. */
  lemma TmuxCommandInjective(c1: string, c2: string)
    requires TmuxCommandData(c1) == TmuxCommandData(c2)
    requires c1 != "&quot;" && c2 != "&quot;"
    requires ArrowSequence(c1).None? && ArrowSequence(c2).None?
    ensures c1 == c2
  {
    assert c1 == TmuxCommandData(c1)[1..];
    assert c2 == TmuxCommandData(c2)[1..];
  }

  /** Whether a tmux command puts the tab's tmux client into or out of copy mode. */
  function CopyModeAfterCommand(active: bool, command: string): (r: bool)
    ensures command == "[" ==> r
    ensures command == "q" ==> !r
    ensures command != "[" && command != "q" ==> r == active
  {
    if command == "[" then true else if command == "q" then false else active
  }

  /** `handleTmuxSoftKey`: previous, next and last window. */
  function SoftKeyData(action: string): (data: Option<string>)
    ensures data.Some? <==> action in {"prev", "next", "last"}
    ensures data.Some? ==> |data.value| == 2 && data.value == TmuxCommandData(data.value[1..])
    ensures action == "prev" ==> data == Some(TMUX_PREFIX + "p")
    ensures action == "next" ==> data == Some(TMUX_PREFIX + "n")
    ensures action == "last" ==> data == Some(TMUX_PREFIX + "l")
  {
    if action == "prev" then Some(TMUX_PREFIX + "p")
    else if action == "next" then Some(TMUX_PREFIX + "n")
    else if action == "last" then Some(TMUX_PREFIX + "l")
    else None
  }

  /** Bytes sent to a tmux tab by its scroll buttons. */
  const ENTER_COPY_MODE: string := "\U{0002}["
  const PAGE_UP: string := [ESC, '[', '5', '~']
  const PAGE_DOWN: string := [ESC, '[', '6', '~']
  const LEAVE_COPY_MODE: string := "q"

  /**
   * `performTmuxScroll` on an open socket: page keys enter copy mode first
   * when it is off; `bottom` leaves copy mode, and does nothing when it is
   * already off. Returns the bytes sent, the new copy-mode flag, and whether
   * the button was handled.
   */
  function TmuxScroll(copyMode: bool, direction: Direction): (r: (seq<string>, bool, bool))
    ensures direction == Up || direction == Down ==>
      && r.1 && r.2
      && r.0 == (if copyMode then [] else [ENTER_COPY_MODE]) + [if direction == Up then PAGE_UP else PAGE_DOWN]
    ensures direction == Bottom ==> !r.1 && (r.2 <==> copyMode) && r.0 == (if copyMode then [LEAVE_COPY_MODE] else [])
    ensures direction.Unknown? ==> r == ([], copyMode, false)
  {
    match direction
    case Up => ((if copyMode then [] else [ENTER_COPY_MODE]) + [PAGE_UP], true, true)
    case Down => ((if copyMode then [] else [ENTER_COPY_MODE]) + [PAGE_DOWN], true, true)
    case Bottom => if copyMode then ([LEAVE_COPY_MODE], false, true) else ([], false, false)
    case Unknown(_) => ([], copyMode, false)
  }

  /** Copy mode is entered at most once however many pages are scrolled, and `bottom` always leaves it. */
  lemma CopyModeEnteredOnce(copyMode: bool, d1: Direction, d2: Direction)
    requires d1 in {Up, Down} && d2 in {Up, Down}
    ensures var first := TmuxScroll(copyMode, d1); var second := TmuxScroll(first.1, d2);
      ENTER_COPY_MODE !in second.0 && |second.0| == 1
      && TmuxScroll(second.1, Bottom) == ([LEAVE_COPY_MODE], false, true)
  {
  }
}
