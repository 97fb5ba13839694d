/**
 * The server's view of tmux: reading `tmux list-sessions` output into session
 * records, the `/api/sessions` payload, and the validation of a rename request.
 * Running the tmux binary is outside the model: its availability, exit status
 * and output arrive as parameters.
 */
module TmuxDirectory {
  import opened Wrappers
  import opened Text

  /**
   * One listed session. `windows` is `None` where `parseInt` gives NaN;
   * `createdSeconds` is the epoch stamp the server turns into an ISO date.
   */
  datatype TmuxSession = TmuxSession(name: string, windows: Option<int>, attached: bool, createdSeconds: int)

  /** `new Date(ms).toISOString()` throws a RangeError beyond 8.64e15 ms either side of the epoch. */
  const MAX_DATE_SECONDS: int := 8_640_000_000_000

  /** The `i`-th `|`-separated field, or `None` when the line is shorter (destructuring gives `undefined`). */
  function Field(fields: seq<string>, i: nat): Option<string> {
    if i < |fields| then Some(fields[i]) else None
  }

  /** `parseInt` of a field; `parseInt(undefined)` is NaN. */
  function ParseField(field: Option<string>): Option<int> {
    match field
    case None => None
    case Some(s) => ParseInt(s)
  }

  /** Whether `new Date(seconds * 1000).toISOString()` succeeds for a parsed stamp. */
  predicate IsDateStamp(seconds: Option<int>) {
    seconds.Some? && -MAX_DATE_SECONDS <= seconds.value <= MAX_DATE_SECONDS
  }

  /**
   * One line of the listing. `None` when its creation stamp cannot become a
   * date: `toISOString` throws and the surrounding `catch` drops the whole list.
   */
  function ParseLine(line: string): (r: Option<TmuxSession>)
    ensures r.Some? <==> IsDateStamp(ParseField(Field(Split(line, '|'), 3)))
    ensures r.Some? ==> '|' !in r.value.name
    ensures r.Some? ==> r.value.name == Split(line, '|')[0]
    ensures r.Some? ==> r.value.windows == ParseField(Field(Split(line, '|'), 1))
    ensures r.Some? ==> Some(r.value.createdSeconds) == ParseField(Field(Split(line, '|'), 3))
    ensures r.Some? ==>
      var attached := ParseField(Field(Split(line, '|'), 2));
      (r.value.attached <==> attached.Some? && attached.value > 0)
  {
    var fields := Split(line, '|');
    var created := ParseField(Field(fields, 3));
    if !IsDateStamp(created) then None
    else
      var attached := ParseField(Field(fields, 2));
      Some(TmuxSession(fields[0], ParseField(Field(fields, 1)), attached.Some? && attached.value > 0, created.value))
  }

  /** `lines.filter(Boolean)`: the non-empty lines, in order. */
  function NonEmptyLines(lines: seq<string>): (r: seq<string>)
    ensures |r| <= |lines|
    ensures forall i :: 0 <= i < |r| ==> r[i] != ""
    ensures (forall i :: 0 <= i < |lines| ==> lines[i] != "") ==> r == lines
  {
    if lines == [] then []
    else (if lines[0] == "" then [] else [lines[0]]) + NonEmptyLines(lines[1..])
  }

  /** `lines.map(...)`: every line parsed, or `None` as soon as one of them throws. */
  function ParseAll(lines: seq<string>): (r: Option<seq<TmuxSession>>)
    ensures r.Some? <==> forall i :: 0 <= i < |lines| ==> ParseLine(lines[i]).Some?
    ensures r.Some? ==> |r.value| == |lines|
    ensures r.Some? ==> forall i :: 0 <= i < |lines| ==> ParseLine(lines[i]) == Some(r.value[i])
  {
    if lines == [] then Some([])
    else
      match (ParseLine(lines[0]), ParseAll(lines[1..]))
      case (Some(s), Some(rest)) => Some([s] + rest)
      case _ => None
  }

  /**
   * `getTmuxSessions`: an empty list when tmux is missing or the command
   * fails; otherwise the output is trimmed, split into lines, empty lines are
   * dropped and each line becomes one session.
   */
  function ListSessions(tmuxAvailable: bool, listOk: bool, output: string): (sessions: seq<TmuxSession>)
    ensures !tmuxAvailable || !listOk ==> sessions == []
    ensures |sessions| <= |NonEmptyLines(Split(Trim(output), '\n'))|
    ensures var lines := NonEmptyLines(Split(Trim(output), '\n'));
      tmuxAvailable && listOk && (forall i :: 0 <= i < |lines| ==> ParseLine(lines[i]).Some?) ==>
        |sessions| == |lines| && forall i :: 0 <= i < |lines| ==> ParseLine(lines[i]) == Some(sessions[i])
    ensures var lines := NonEmptyLines(Split(Trim(output), '\n'));
      (exists i :: 0 <= i < |lines| && ParseLine(lines[i]).None?) ==> sessions == []
    ensures forall i :: 0 <= i < |sessions| ==> '|' !in sessions[i].name
  {
    if !tmuxAvailable || !listOk then []
    else
      match ParseAll(NonEmptyLines(Split(Trim(output), '\n')))
      case None => []
      case Some(sessions) => sessions
  }

  /** The `/api/sessions` payload. */
  datatype Listing = Listing(tmuxAvailable: bool, sessions: seq<TmuxSession>, message: Option<string>)

  const MSG_TMUX_NOT_INSTALLED := "tmux is not installed. Install it with: brew install tmux"

  /** `GET /api/sessions`: a hint instead of sessions when tmux is missing. */
  function SessionsEndpoint(tmuxAvailable: bool, listOk: bool, output: string): (r: Listing)
    ensures r.tmuxAvailable == tmuxAvailable
    ensures !tmuxAvailable ==> r.sessions == [] && r.message == Some(MSG_TMUX_NOT_INSTALLED)
    ensures tmuxAvailable ==> r.message.None? && r.sessions == ListSessions(true, listOk, output)
  {
    if !tmuxAvailable then Listing(false, [], Some(MSG_TMUX_NOT_INSTALLED))
    else Listing(true, ListSessions(tmuxAvailable, listOk, output), None)
  }

  // ---------------------------------------------------------------------------
  // What tmux prints, and reading it back

  /** One session as tmux reports it through the `-F` format. */
  datatype Row = Row(name: string, windows: nat, attached: nat, created: nat)

  /** The line tmux prints for `row` under `#{session_name}|#{session_windows}|#{session_attached}|#{session_created}`. */
  function FormatRow(row: Row): string {
    Join([row.name, NatToString(row.windows), NatToString(row.attached), NatToString(row.created)], '|')
  }

  /** The whole listing: one line per session, each ending in a newline. */
  function FormatListing(rows: seq<Row>): string {
    if rows == [] then "" else Join(FormatLines(rows), '\n') + "\n"
  }

  function FormatLines(rows: seq<Row>): (lines: seq<string>)
    ensures |lines| == |rows|
    ensures forall i :: 0 <= i < |rows| ==> lines[i] == FormatRow(rows[i])
  {
    if rows == [] then [] else [FormatRow(rows[0])] + FormatLines(rows[1..])
  }

  /** What the server should report for `row`. */
  function Expected(row: Row): TmuxSession {
    TmuxSession(row.name, Some(row.windows), row.attached > 0, row.created)
  }

  /** Session names the format can carry unambiguously. */
  predicate Printable(row: Row) {
    && '|' !in row.name && '\n' !in row.name
    && (row.name == [] || !IsWhitespace(row.name[0]))
    && row.created <= MAX_DATE_SECONDS
  }

  lemma NoSeparatorInNumber(n: nat, c: char)
    requires DigitValue(c) >= 10
    ensures c !in NatToString(n)
  {
    var s := NatToString(n);
    assert forall i :: 0 <= i < |s| ==> s[i] != c;
  }

  /** A joined string holds no character that is neither the separator nor in a piece. */
  lemma {:induction false} JoinAvoids(parts: seq<string>, sep: char, c: char)
    requires c != sep
    requires forall i :: 0 <= i < |parts| ==> c !in parts[i]
    ensures c !in Join(parts, sep)
  {
    if |parts| > 1 {
      JoinAvoids(parts[1..], sep, c);
    }
  }

  /** A joined string ends with its last piece and starts with its first. */
  lemma {:induction false} JoinEnds(parts: seq<string>, sep: char)
    requires |parts| >= 1
    ensures var j := Join(parts, sep); var last := parts[|parts| - 1];
      |last| <= |j| && j[|j| - |last|..] == last && j[..|parts[0]|] == parts[0]
  {
    if |parts| > 1 {
      JoinEnds(parts[1..], sep);
    }
  }

  lemma ParseFormattedRow(row: Row)
    requires Printable(row)
    ensures ParseLine(FormatRow(row)) == Some(Expected(row))
  {
    var fields := [row.name, NatToString(row.windows), NatToString(row.attached), NatToString(row.created)];
    NoSeparatorInNumber(row.windows, '|');
    NoSeparatorInNumber(row.attached, '|');
    NoSeparatorInNumber(row.created, '|');
    SplitJoin(fields, '|');
    ParseIntNatToString(row.windows);
    ParseIntNatToString(row.attached);
    ParseIntNatToString(row.created);
  }

  /** The line for `row` holds no newline and ends with a digit of the creation stamp. */
  lemma FormattedRowShape(row: Row)
    requires Printable(row)
    ensures '\n' !in FormatRow(row)
    ensures FormatRow(row) != [] && DigitValue(FormatRow(row)[|FormatRow(row)| - 1]) < 10
    ensures !IsWhitespace(FormatRow(row)[0])
  {
    var created := NatToString(row.created);
    var fields := [row.name, NatToString(row.windows), NatToString(row.attached), created];
    NoSeparatorInNumber(row.windows, '\n');
    NoSeparatorInNumber(row.attached, '\n');
    NoSeparatorInNumber(row.created, '\n');
    JoinAvoids(fields, '|', '\n');
    var line := FormatRow(row);
    assert line == row.name + ['|'] + Join(fields[1..], '|');
    JoinEnds(fields, '|');
    assert line[|line| - 1] == created[|created| - 1];
    if row.name == [] {
      assert line[0] == '|';
    } else {
      assert line[0] == row.name[0];
    }
  }

  /**
   * Reading back what tmux prints recovers every session: names, window
   * counts, the attached flag (set exactly when tmux reports a positive count)
   * and the creation stamps, in order.
   */
  lemma ListSessionsRoundTrip(rows: seq<Row>)
    requires forall i :: 0 <= i < |rows| ==> Printable(rows[i])
    ensures var sessions := ListSessions(true, true, FormatListing(rows));
      && |sessions| == |rows|
      && forall i :: 0 <= i < |rows| ==> sessions[i] == Expected(rows[i])
  {
    if rows == [] {
      assert ListSessions(true, true, "") == [] by {
        assert Trim("") == "";
        assert Split("", '\n') == [""];
      }
    } else {
      var expected := seq(|rows|, i requires 0 <= i < |rows| => Expected(rows[i]));
      assert ListSessions(true, true, FormatListing(rows)) == expected by {
        NonEmptyRoundTrip(rows, expected);
      }
    }
  }

  /** The round trip for a listing of at least one session. */
  lemma NonEmptyRoundTrip(rows: seq<Row>, expected: seq<TmuxSession>)
    requires rows != [] && |expected| == |rows|
    requires forall i :: 0 <= i < |rows| ==> Printable(rows[i]) && expected[i] == Expected(rows[i])
    ensures ListSessions(true, true, FormatListing(rows)) == expected
  {
    var lines := FormatLines(rows);
    FormattedLines(rows, expected);
    assert FormatListing(rows) == Join(lines, '\n') + "\n";
    assert !IsWhitespace(lines[0][0]);
    assert !IsWhitespace(lines[|lines| - 1][|lines[|lines| - 1]| - 1]);
    ListSessionsOfLines(lines, expected);
  }

  /** Every formatted line is one non-blank line that parses back to its row. */
  lemma FormattedLines(rows: seq<Row>, expected: seq<TmuxSession>)
    requires |expected| == |rows|
    requires forall i :: 0 <= i < |rows| ==> Printable(rows[i]) && expected[i] == Expected(rows[i])
    ensures var lines := FormatLines(rows);
      forall i :: 0 <= i < |rows| ==>
        && '\n' !in lines[i] && lines[i] != [] && !IsWhitespace(lines[i][0])
        && !IsWhitespace(lines[i][|lines[i]| - 1])
        && ParseLine(lines[i]) == Some(expected[i])
  {
    forall i | 0 <= i < |rows|
      ensures '\n' !in FormatRow(rows[i]) && FormatRow(rows[i]) != [] && !IsWhitespace(FormatRow(rows[i])[0])
      ensures !IsWhitespace(FormatRow(rows[i])[|FormatRow(rows[i])| - 1])
      ensures ParseLine(FormatRow(rows[i])) == Some(expected[i])
    {
      FormattedRowShape(rows[i]);
      ParseFormattedRow(rows[i]);
    }
  }

  /** A listing made of lines that each parse is read back line by line. */
  lemma ListSessionsOfLines(lines: seq<string>, sessions: seq<TmuxSession>)
    requires |lines| >= 1 && |sessions| == |lines|
    requires forall i :: 0 <= i < |lines| ==> '\n' !in lines[i] && lines[i] != []
    requires forall i :: 0 <= i < |lines| ==> ParseLine(lines[i]) == Some(sessions[i])
    requires !IsWhitespace(lines[0][0])
    requires !IsWhitespace(lines[|lines| - 1][|lines[|lines| - 1]| - 1])
    ensures ListSessions(true, true, Join(lines, '\n') + "\n") == sessions
  {
    var output := Join(lines, '\n') + "\n";
    SplitListing(lines);
    ParseAllOf(lines, sessions);
    ListSessionsOf(output, lines, sessions);
  }

  /** Splitting a trimmed listing on newlines gives its lines back. */
  lemma SplitListing(lines: seq<string>)
    requires |lines| >= 1
    requires forall i :: 0 <= i < |lines| ==> '\n' !in lines[i] && lines[i] != []
    requires !IsWhitespace(lines[0][0])
    requires !IsWhitespace(lines[|lines| - 1][|lines[|lines| - 1]| - 1])
    ensures Split(Trim(Join(lines, '\n') + "\n"), '\n') == lines
  {
    TrimListing(lines);
    SplitJoin(lines, '\n');
  }

  /** Lines that each parse are parsed together. */
  lemma ParseAllOf(lines: seq<string>, sessions: seq<TmuxSession>)
    requires |sessions| == |lines|
    requires forall i :: 0 <= i < |lines| ==> ParseLine(lines[i]) == Some(sessions[i])
    ensures ParseAll(lines) == Some(sessions)
  {
    var parsed := ParseAll(lines);
    assert parsed.Some?;
    assert forall i :: 0 <= i < |lines| ==> Some(parsed.value[i]) == ParseLine(lines[i]) == Some(sessions[i]);
    assert parsed.value == sessions;
  }

  /** `getTmuxSessions` on output whose lines are known, all non-empty, and all parse. */
  lemma ListSessionsOf(output: string, lines: seq<string>, sessions: seq<TmuxSession>)
    requires Split(Trim(output), '\n') == lines
    requires forall i :: 0 <= i < |lines| ==> lines[i] != []
    requires ParseAll(lines) == Some(sessions)
    ensures ListSessions(true, true, output) == sessions
  {
    assert NonEmptyLines(lines) == lines;
  }

  /** Trimming a listing only drops its final newline, when its first and last characters are not blank. */
  lemma TrimListing(lines: seq<string>)
    requires |lines| >= 1 && lines[0] != [] && lines[|lines| - 1] != []
    requires !IsWhitespace(lines[0][0])
    requires !IsWhitespace(lines[|lines| - 1][|lines[|lines| - 1]| - 1])
    ensures Trim(Join(lines, '\n') + "\n") == Join(lines, '\n')
  {
    var body := Join(lines, '\n');
    JoinEnds(lines, '\n');
    var last := lines[|lines| - 1];
    assert body[0] == lines[0][0];
    assert body[|body| - 1] == last[|last| - 1];
    var output := body + "\n";
    assert SkipWhitespace(output, 0) == 0;
    assert SkipWhitespaceBack(output, 0, |output|) == |body|;
    assert output[..|body|] == body;
  }

  // ---------------------------------------------------------------------------
  // Rename validation

  /** Characters of `/^[\w\-.]+$/`: ASCII letters, digits, underscore, dash, dot. */
  predicate IsNameChar(c: char) {
    'a' <= c <= 'z' || 'A' <= c <= 'Z' || '0' <= c <= '9' || c == '_' || c == '-' || c == '.'
  }

  predicate IsValidSessionName(s: string) {
    |s| > 0 && forall i :: 0 <= i < |s| ==> IsNameChar(s[i])
  }

  const MSG_CURRENT_REQUIRED := "Current session name is required."
  const MSG_NEW_EMPTY := "New session name cannot be empty."
  const MSG_BAD_NAME := "Session name may only contain letters, numbers, dash, underscore, or dot."

  /** A request body field as the rename handler reads it: a string is trimmed, anything else is `''`. */
  function BodyName(field: Option<string>): string {
    Trim(field.GetOr(""))
  }

  /**
   * The validation of `POST /api/tmux/rename`: the message it answers with, or
   * `None` when the request may go to tmux.
   */
  function RenameRejection(currentName: Option<string>, newName: Option<string>): (err: Option<string>)
    ensures err.None? <==> BodyName(currentName) != "" && IsValidSessionName(BodyName(newName))
    ensures BodyName(currentName) == "" ==> err == Some(MSG_CURRENT_REQUIRED)
    ensures BodyName(currentName) != "" && BodyName(newName) == "" ==> err == Some(MSG_NEW_EMPTY)
    ensures BodyName(currentName) != "" && BodyName(newName) != "" && !IsValidSessionName(BodyName(newName)) ==>
      err == Some(MSG_BAD_NAME)
  {
    var current := BodyName(currentName);
    var name := BodyName(newName);
    if current == "" then Some(MSG_CURRENT_REQUIRED)
    else if name == "" then Some(MSG_NEW_EMPTY)
    else if !IsValidSessionName(name) then Some(MSG_BAD_NAME)
    else None
  }

  /** A new name holding a slash, or a space that trimming keeps, is refused. */
  lemma SpaceOrSlashRejected(currentName: Option<string>, name: string)
    requires '/' in name || ' ' in Trim(name)
    ensures RenameRejection(currentName, Some(name)).Some?
  {
    var t := Trim(name);
    TrimKeepsContent(name);
    assert !IsWhitespace('/');
    assert '/' in t || ' ' in t;
    var i :| 0 <= i < |t| && (t[i] == '/' || t[i] == ' ');
    assert !IsNameChar(t[i]);
  }
}
