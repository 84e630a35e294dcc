/**
  The record parsers of `listSessions`, `getPanes`, `getWindows` and
  `getWindowInfo`: each sends a `-F` format whose fields are separated by
  `|`, and turns the `output` of the response into records by splitting it
  on `'\n'` and each line on `'|'`. Here they are functions of the response
  already obtained.

  A field past the end of a line's `split('|')` is `undefined` (`None`);
  `parseInt` of it, or of text without digits, is NaN (`None`). The first
  field always exists, since `split` never returns an empty array.

  For each format, the line tmux prints for a record is given by a
  function of that record's values, and the parsers are shown to read the
  values back.
 */
module Records {
  import opened JsString
  import opened Types

  /** `TmuxPane` (src/types.ts). */
  datatype Pane = Pane(id: string, active: bool, width: Option<int>, height: Option<int>,
                       command: Option<string>, pid: Option<int>)

  /**
    The window records `getWindows` and `getWindowInfo` build: `TmuxWindow`
    and, beyond the interface, `index`, `layout` and `flags`.
   */
  datatype Window = Window(id: string, name: Option<string>, active: bool, index: Option<int>,
                           layout: Option<string>, flags: seq<char>, panes: seq<Pane>)

  /**
    `TmuxSession` (src/types.ts). `created` is the number of seconds the
    `Date` is built from; `windows` is always empty.
   */
  datatype Session = Session(id: string, name: Option<string>, created: Option<int>, attached: bool,
                             windows: seq<Window>)

  /** `value === '1'` */
  predicate IsOne(v: Option<string>)
  {
    v == Some("1")
  }

  /** `parseInt(value)` of a field that may be missing. */
  function IntField(v: Option<string>): Option<int>
  {
    ParseInt(ToText(v))
  }

  /**
    The lines the list parsers read: none when the command failed or its
    output is empty (`!result.success || !result.output`), otherwise
    `output.split('\n')`.
   */
  function OutputLines(r: Response): (ls: seq<string>)
    ensures ls == [] <==> !r.success || r.output == ""
    ensures ls != [] ==> JoinWith(ls, '\n') == r.output
    ensures forall i :: 0 <= i < |ls| ==> '\n' !in ls[i]
  {
    if !r.success || r.output == "" then [] else Split(r.output, '\n')
  }

  // ---------------------------------------------------------------- sessions

  /** The `-F` directives of `listSessions`, in the order its parser reads the fields. */
  function SessionDirectives(): seq<string>
  {
    ["#{session_id}", "#{session_name}", "#{session_created}", "#{session_attached}"]
  }

  /** The `-F` format of `listSessions`: `split('|')` gives back its four directives. */
  function SessionFormat(): (f: string)
    ensures Split(f, '|') == SessionDirectives()
  {
    DirectivesUnseparated();
    SplitJoin(SessionDirectives(), '|');
    JoinWith(SessionDirectives(), '|')
  }

  lemma DirectivesUnseparated()
    ensures forall i :: 0 <= i < |SessionDirectives()| ==> '|' !in SessionDirectives()[i]
  {
    var d := SessionDirectives();
    assert '|' !in d[0] && '|' !in d[1] && '|' !in d[2] && '|' !in d[3];
  }

  /** The command `listSessions` sends. */
  function ListSessionsCommand(): string
  {
    "list-sessions -F \"" + SessionFormat() + "\""
  }

  /** `const [id, name, created, attached] = line.split('|')` and the record made of them. */
  function SessionOf(line: string): Session
  {
    var f := Split(line, '|');
    Session(f[0], Field(f, 1), IntField(Field(f, 2)), IsOne(Field(f, 3)), [])
  }

  /** `listSessions()` on the response to its command: one session per line. */
  function ListSessions(r: Response): (ss: seq<Session>)
    ensures ss == [] <==> !r.success || r.output == ""
    ensures |ss| == |OutputLines(r)|
  {
    var ls := OutputLines(r);
    seq(|ls|, i requires 0 <= i < |ls| => SessionOf(ls[i]))
  }

  /**
    A session as the tmux server knows it: the values of `#{session_id}`,
    `#{session_name}`, `#{session_created}` (seconds since the epoch) and
    `#{session_attached}` (the number of attached clients).
   */
  datatype SessionInfo = SessionInfo(id: string, name: string, created: nat, clients: nat)

  /** The line tmux prints for `#{session_id}|#{session_name}|#{session_created}|#{session_attached}`. */
  function SessionLine(s: SessionInfo): string
  {
    JoinWith([s.id, s.name, NatToDecimal(s.created), NatToDecimal(s.clients)], '|')
  }

  /** What `listSessions` makes of that session: attached only when exactly one client is. */
  function SessionSeen(s: SessionInfo): Session
  {
    Session(s.id, Some(s.name), Some(s.created), s.clients == 1, [])
  }

  /** Text tmux can print in one field: no separator and no line break. */
  predicate Plain(s: string)
  {
    '|' !in s && '\n' !in s
  }

  predicate PlainSession(s: SessionInfo)
  {
    Plain(s.id) && Plain(s.name)
  }

  /** The decimal text of `n` is `"1"` exactly when `n` is 1. */
  lemma DecimalIsOne(n: nat)
    ensures NatToDecimal(n) == "1" <==> n == 1
  {
    if n >= 10 {
      assert |NatToDecimal(n)| >= 2 by {
        assert NatToDecimal(n) == NatToDecimal(n / 10) + ['0' + (n % 10) as char];
      }
    }
  }

  /** The decimal text of a number has neither separator nor line break. */
  lemma DecimalPlain(n: nat)
    ensures Plain(NatToDecimal(n))
  {
    var d := NatToDecimal(n);
    assert forall k :: 0 <= k < |d| ==> IsDecimalDigit(d[k]);
  }

  /** `parseInt` of a field holding the decimal text of `n` is `n`. */
  lemma DecimalField(n: nat)
    ensures IntField(Some(NatToDecimal(n))) == Some(n)
  {
    ParseIntDecimal(n, "");
    assert NatToDecimal(n) + "" == NatToDecimal(n);
  }

  lemma SessionLinePlain(s: SessionInfo)
    requires PlainSession(s)
    ensures '\n' !in SessionLine(s) && SessionLine(s) != ""
  {
    var parts := [s.id, s.name, NatToDecimal(s.created), NatToDecimal(s.clients)];
    DecimalPlain(s.created);
    DecimalPlain(s.clients);
    JoinWithout(parts, '|', '\n');
    assert SessionLine(s) == s.id + ['|'] + JoinWith(parts[1..], '|');
    assert SessionLine(s)[|s.id|] == '|';
  }

  /** `listSessions` reads one session's line back. */
  lemma SessionRoundTrip(s: SessionInfo)
    requires PlainSession(s)
    ensures SessionOf(SessionLine(s)) == SessionSeen(s)
  {
    var parts := [s.id, s.name, NatToDecimal(s.created), NatToDecimal(s.clients)];
    DecimalPlain(s.created);
    DecimalPlain(s.clients);
    SplitJoin(parts, '|');
    DecimalField(s.created);
    DecimalIsOne(s.clients);
  }

  // ------------------------------------------------------------------- lines

  /**
    Rows printed one per line, each non-empty, form a successful response
    whose lines are those rows (no rows: empty output, no lines).
   */
  lemma RowsRead(rows: seq<string>, error: Option<string>)
    requires forall i :: 0 <= i < |rows| ==> rows[i] != "" && '\n' !in rows[i]
    ensures OutputLines(Response(true, JoinWith(rows, '\n'), error)) == rows
  {
    if rows != [] {
      NonEmptyJoin(rows, '\n');
      SplitJoin(rows, '\n');
    }
  }

  lemma NonEmptyJoin(parts: seq<string>, sep: char)
    requires parts != [] && parts[0] != ""
    ensures JoinWith(parts, sep) != ""
  {
    if |parts| >= 2 {
      assert JoinWith(parts, sep) == parts[0] + [sep] + JoinWith(parts[1..], sep);
    }
  }

  /** The lines tmux prints for a list of sessions, and the output they make. */
  function SessionRows(ss: seq<SessionInfo>): seq<string>
  {
    seq(|ss|, i requires 0 <= i < |ss| => SessionLine(ss[i]))
  }

  function SessionsOutput(ss: seq<SessionInfo>): string
  {
    JoinWith(SessionRows(ss), '\n')
  }

  /** `listSessions` reads back every session tmux lists, in order. */
  lemma ListSessionsRoundTrip(ss: seq<SessionInfo>, error: Option<string>)
    requires forall i :: 0 <= i < |ss| ==> PlainSession(ss[i])
    ensures var got := ListSessions(Response(true, SessionsOutput(ss), error));
      |got| == |ss| && forall i :: 0 <= i < |ss| ==> got[i] == SessionSeen(ss[i])
  {
    var rows := SessionRows(ss);
    forall i | 0 <= i < |rows| ensures rows[i] != "" && '\n' !in rows[i] {
      SessionLinePlain(ss[i]);
    }
    RowsRead(rows, error);
    forall i | 0 <= i < |ss| ensures SessionOf(rows[i]) == SessionSeen(ss[i]) {
      SessionRoundTrip(ss[i]);
    }
  }

  // ------------------------------------------------------------------- panes

  /** `const [id, active, width, height, command, pid] = line.split('|')` and its record. */
  function PaneOf(line: string): Pane
  {
    var f := Split(line, '|');
    Pane(f[0], IsOne(Field(f, 1)), IntField(Field(f, 2)), IntField(Field(f, 3)),
         Field(f, 4), IntField(Field(f, 5)))
  }

  /** `getPanes(sessionName, windowId)` on the response to its command: one pane per line. */
  function GetPanes(r: Response): (ps: seq<Pane>)
    ensures ps == [] <==> !r.success || r.output == ""
    ensures |ps| == |OutputLines(r)|
  {
    var ls := OutputLines(r);
    seq(|ls|, i requires 0 <= i < |ls| => PaneOf(ls[i]))
  }

  /**
    A pane as the tmux server knows it, the values of `#{pane_id}`,
    `#{pane_active}`, `#{pane_width}`, `#{pane_height}`,
    `#{pane_current_command}` and `#{pane_pid}`.
   */
  datatype PaneInfo = PaneInfo(id: string, active: bool, width: nat, height: nat, command: string, pid: nat)

  /** tmux prints a flag as `1` or `0`. */
  function FlagText(b: bool): string
  {
    if b then "1" else "0"
  }

  /** The line tmux prints for the `getPanes` format. */
  function PaneLine(p: PaneInfo): string
  {
    JoinWith([p.id, FlagText(p.active), NatToDecimal(p.width), NatToDecimal(p.height),
              p.command, NatToDecimal(p.pid)], '|')
  }

  function PaneSeen(p: PaneInfo): Pane
  {
    Pane(p.id, p.active, Some(p.width), Some(p.height), Some(p.command), Some(p.pid))
  }

  predicate PlainPane(p: PaneInfo)
  {
    Plain(p.id) && Plain(p.command)
  }

  lemma PaneLineParts(p: PaneInfo)
    requires PlainPane(p)
    ensures var parts := [p.id, FlagText(p.active), NatToDecimal(p.width), NatToDecimal(p.height),
                          p.command, NatToDecimal(p.pid)];
      forall i :: 0 <= i < |parts| ==> Plain(parts[i])
  {
    DecimalPlain(p.width);
    DecimalPlain(p.height);
    DecimalPlain(p.pid);
  }

  /** `getPanes` reads one pane's line back. */
  lemma PaneRoundTrip(p: PaneInfo)
    requires PlainPane(p)
    ensures PaneOf(PaneLine(p)) == PaneSeen(p)
  {
    var parts := [p.id, FlagText(p.active), NatToDecimal(p.width), NatToDecimal(p.height),
                  p.command, NatToDecimal(p.pid)];
    PaneLineParts(p);
    SplitJoin(parts, '|');
    DecimalField(p.width);
    DecimalField(p.height);
    DecimalField(p.pid);
  }

  lemma PaneLinePlain(p: PaneInfo)
    requires PlainPane(p)
    ensures '\n' !in PaneLine(p) && PaneLine(p) != ""
  {
    var parts := [p.id, FlagText(p.active), NatToDecimal(p.width), NatToDecimal(p.height),
                  p.command, NatToDecimal(p.pid)];
    PaneLineParts(p);
    JoinWithout(parts, '|', '\n');
    assert PaneLine(p) == p.id + ['|'] + JoinWith(parts[1..], '|');
    assert PaneLine(p)[|p.id|] == '|';
  }

  /** The output tmux prints for a list of panes. */
  function PanesOutput(ps: seq<PaneInfo>): string
  {
    JoinWith(seq(|ps|, i requires 0 <= i < |ps| => PaneLine(ps[i])), '\n')
  }

  /** `getPanes` reads back every pane tmux lists, in order. */
  lemma GetPanesRoundTrip(ps: seq<PaneInfo>, error: Option<string>)
    requires forall i :: 0 <= i < |ps| ==> PlainPane(ps[i])
    ensures var got := GetPanes(Response(true, PanesOutput(ps), error));
      |got| == |ps| && forall i :: 0 <= i < |ps| ==> got[i] == PaneSeen(ps[i])
  {
    var rows := seq(|ps|, i requires 0 <= i < |ps| => PaneLine(ps[i]));
    forall i | 0 <= i < |rows| ensures rows[i] != "" && '\n' !in rows[i] {
      PaneLinePlain(ps[i]);
    }
    RowsRead(rows, error);
    forall i | 0 <= i < |ps| ensures PaneOf(rows[i]) == PaneSeen(ps[i]) {
      PaneRoundTrip(ps[i]);
    }
  }

  // ----------------------------------------------------------------- windows

  /**
    One line of `getWindows`: `const [id, name, active, index, layout,
    flags] = line.split('|')`, the panes of window `id` (what
    `getPanes(sessionName, id)` returned, given here as `panesOf`), and the
    record. `flags.split('')` throws a `TypeError` when the line has fewer
    than six fields.
   */
  function WindowOf(line: string, panesOf: string -> seq<Pane>): (r: Result<Window>)
    ensures r.Err? <==> |Split(line, '|')| < 6
    ensures r.Err? ==> r.error == FlagsUndefined
  {
    var f := Split(line, '|');
    match Field(f, 5)
    case None => Err(FlagsUndefined)
    case Some(flags) =>
      Ok(Window(f[0], Field(f, 1), IsOne(Field(f, 2)), IntField(Field(f, 3)), Field(f, 4),
                flags, panesOf(f[0])))
  }

  /** A line with a sixth field, so that `flags.split('')` has a string to split. */
  predicate HasFlags(line: string)
  {
    |Split(line, '|')| >= 6
  }

  /**
    `Promise.all` over the lines: the windows in line order, or the
    `TypeError` when a line has no flags field.
   */
  function WindowsOf(lines: seq<string>, panesOf: string -> seq<Pane>): Result<seq<Window>>
    decreases |lines|
  {
    if lines == [] then Ok([])
    else
      match WindowOf(lines[0], panesOf)
      case Err(e) => Err(e)
      case Ok(w) =>
        match WindowsOf(lines[1..], panesOf)
        case Err(e) => Err(e)
        case Ok(ws) => Ok([w] + ws)
  }

  /** One step of `Promise.all`: the first line's window, then the rest. */
  lemma WindowsOfCons(lines: seq<string>, panesOf: string -> seq<Pane>)
    requires lines != []
    ensures var r := WindowsOf(lines, panesOf);
      var t := WindowsOf(lines[1..], panesOf);
      && (r.Ok? <==> HasFlags(lines[0]) && t.Ok?)
      && (r.Err? ==> r.error == FlagsUndefined || (t.Err? && r.error == t.error))
  {
  }

  /** Every line has flags exactly when the first does and every later one does. */
  lemma AllFlagsCons(lines: seq<string>)
    requires lines != []
    ensures (forall i :: 0 <= i < |lines| ==> HasFlags(lines[i]))
        <==> HasFlags(lines[0]) && forall i :: 0 <= i < |lines[1..]| ==> HasFlags(lines[1..][i])
  {
    if HasFlags(lines[0]) && forall i :: 0 <= i < |lines[1..]| ==> HasFlags(lines[1..][i]) {
      forall i | 0 <= i < |lines| ensures HasFlags(lines[i]) {
        if i > 0 {
          assert lines[i] == lines[1..][i - 1];
        }
      }
    }
  }

  /** The lines are read exactly when each has a flags field; a failure is the `TypeError`. */
  lemma {:induction false} WindowsOfDecides(lines: seq<string>, panesOf: string -> seq<Pane>)
    ensures var r := WindowsOf(lines, panesOf);
      && (r.Ok? <==> forall i :: 0 <= i < |lines| ==> HasFlags(lines[i]))
      && (r.Err? ==> r.error == FlagsUndefined)
    decreases |lines|
  {
    if lines != [] {
      WindowsOfDecides(lines[1..], panesOf);
      WindowsOfCons(lines, panesOf);
      AllFlagsCons(lines);
    }
  }

  /** Values read item by item from the rest stay so with one more item in front. */
  lemma ReadInFront<A, B>(read: A -> Result<B>, xs: seq<A>, y: B, ys: seq<B>)
    requires |xs| == |ys| + 1
    requires read(xs[0]) == Ok(y)
    requires forall i :: 0 <= i < |ys| ==> read(xs[1..][i]) == Ok(ys[i])
    ensures forall i :: 0 <= i < |xs| ==> read(xs[i]) == Ok(([y] + ys)[i])
  {
    forall i | 0 <= i < |xs| ensures read(xs[i]) == Ok(([y] + ys)[i]) {
      if i > 0 {
        assert xs[i] == xs[1..][i - 1];
      }
    }
  }

  /** A successful read has one window per line, each read from its own line. */
  lemma {:induction false} WindowsOfValues(lines: seq<string>, panesOf: string -> seq<Pane>)
    ensures var r := WindowsOf(lines, panesOf);
      && (r.Ok? ==> |r.value| == |lines|)
      && (r.Ok? ==> forall i :: 0 <= i < |lines| ==> WindowOf(lines[i], panesOf) == Ok(r.value[i]))
    decreases |lines|
  {
    var r := WindowsOf(lines, panesOf);
    if lines != [] && r.Ok? {
      WindowsOfValues(lines[1..], panesOf);
      var w := WindowOf(lines[0], panesOf).value;
      var rest := WindowsOf(lines[1..], panesOf).value;
      assert r.value == [w] + rest;
      var read := (line: string) => WindowOf(line, panesOf);
      ReadInFront(read, lines, w, rest);
      assert forall i :: 0 <= i < |lines| ==> read(lines[i]) == WindowOf(lines[i], panesOf);
    }
  }

  /**
    The windows are read exactly when every line has a flags field, one
    window per line in line order; otherwise the result is the `TypeError`.
   */
  lemma WindowsOfRead(lines: seq<string>, panesOf: string -> seq<Pane>)
    ensures var r := WindowsOf(lines, panesOf);
      && (r.Ok? <==> forall i :: 0 <= i < |lines| ==> HasFlags(lines[i]))
      && (r.Err? ==> r.error == FlagsUndefined)
      && (r.Ok? ==> |r.value| == |lines|)
      && (r.Ok? ==> forall i :: 0 <= i < |lines| ==> WindowOf(lines[i], panesOf) == Ok(r.value[i]))
  {
    WindowsOfDecides(lines, panesOf);
    WindowsOfValues(lines, panesOf);
  }

  /** `getWindows(sessionName)` on the response to its command. */
  function GetWindows(r: Response, panesOf: string -> seq<Pane>): (res: Result<seq<Window>>)
    ensures !r.success || r.output == "" ==> res == Ok([])
  {
    WindowsOf(OutputLines(r), panesOf)
  }

  /**
    `getWindows` yields windows exactly when every line of the output has
    six fields, one window per line; otherwise it fails with the `TypeError`.
   */
  lemma GetWindowsFails(r: Response, panesOf: string -> seq<Pane>)
    ensures var ls := OutputLines(r);
      var res := GetWindows(r, panesOf);
      && (res.Ok? <==> forall i :: 0 <= i < |ls| ==> HasFlags(ls[i]))
      && (res.Err? ==> res.error == FlagsUndefined)
      && (res.Ok? ==> |res.value| == |ls|)
  {
    WindowsOfRead(OutputLines(r), panesOf);
  }

  /**
    A window as the tmux server knows it: `#{window_id}`, `#{window_name}`,
    `#{window_active}`, `#{window_index}`, `#{window_layout}` and
    `#{window_flags}`.
   */
  datatype WindowInfo = WindowInfo(id: string, name: string, active: bool, index: nat,
                                   layout: string, flags: string)

  predicate PlainWindow(w: WindowInfo)
  {
    Plain(w.id) && Plain(w.name) && Plain(w.layout) && Plain(w.flags)
  }

  /** The line tmux prints for the `getWindows` format (index before layout). */
  function WindowLine(w: WindowInfo): string
  {
    JoinWith([w.id, w.name, FlagText(w.active), NatToDecimal(w.index), w.layout, w.flags], '|')
  }

  /** The line tmux prints for the `getWindowInfo` format (layout before index). */
  function WindowInfoLine(w: WindowInfo): string
  {
    JoinWith([w.id, w.name, FlagText(w.active), w.layout, NatToDecimal(w.index), w.flags], '|')
  }

  /** The record either parser makes of that window, with the panes it was given. */
  function WindowSeen(w: WindowInfo, panesOf: string -> seq<Pane>): Window
  {
    Window(w.id, Some(w.name), w.active, Some(w.index), Some(w.layout), w.flags, panesOf(w.id))
  }

  /** `getWindows` reads one window's line back. */
  lemma WindowRoundTrip(w: WindowInfo, panesOf: string -> seq<Pane>)
    requires PlainWindow(w)
    ensures WindowOf(WindowLine(w), panesOf) == Ok(WindowSeen(w, panesOf))
  {
    var f := Split(WindowLine(w), '|');
    LineFields(w);
    assert Field(f, 5) == Some(w.flags);
    assert IsOne(Field(f, 2)) == w.active;
    DecimalField(w.index);
    assert IntField(Field(f, 3)) == Some(w.index);
  }

  lemma LineFields(w: WindowInfo)
    requires PlainWindow(w)
    ensures Split(WindowLine(w), '|')
         == [w.id, w.name, FlagText(w.active), NatToDecimal(w.index), w.layout, w.flags]
  {
    var parts := [w.id, w.name, FlagText(w.active), NatToDecimal(w.index), w.layout, w.flags];
    DecimalPlain(w.index);
    assert forall i :: 0 <= i < |parts| ==> Plain(parts[i]);
    SplitJoin(parts, '|');
  }

  lemma WindowLinePlain(w: WindowInfo)
    requires PlainWindow(w)
    ensures '\n' !in WindowLine(w) && WindowLine(w) != ""
  {
    var parts := [w.id, w.name, FlagText(w.active), NatToDecimal(w.index), w.layout, w.flags];
    DecimalPlain(w.index);
    assert forall i :: 0 <= i < |parts| ==> Plain(parts[i]);
    JoinWithout(parts, '|', '\n');
    assert WindowLine(w) == w.id + ['|'] + JoinWith(parts[1..], '|');
    assert WindowLine(w)[|w.id|] == '|';
  }

  /** The output tmux prints for a list of windows. */
  function WindowsOutput(ws: seq<WindowInfo>): string
  {
    JoinWith(seq(|ws|, i requires 0 <= i < |ws| => WindowLine(ws[i])), '\n')
  }

  /** `getWindows` reads back every window tmux lists, in order, each with its panes. */
  lemma GetWindowsRoundTrip(ws: seq<WindowInfo>, panesOf: string -> seq<Pane>, error: Option<string>)
    requires forall i :: 0 <= i < |ws| ==> PlainWindow(ws[i])
    ensures var got := GetWindows(Response(true, WindowsOutput(ws), error), panesOf);
      && got.Ok? && |got.value| == |ws|
      && forall i :: 0 <= i < |ws| ==> got.value[i] == WindowSeen(ws[i], panesOf)
  {
    var rows := seq(|ws|, i requires 0 <= i < |ws| => WindowLine(ws[i]));
    forall i | 0 <= i < |rows| ensures rows[i] != "" && '\n' !in rows[i] {
      WindowLinePlain(ws[i]);
    }
    RowsRead(rows, error);
    forall i | 0 <= i < |ws| ensures WindowOf(rows[i], panesOf) == Ok(WindowSeen(ws[i], panesOf)) {
      WindowRoundTrip(ws[i], panesOf);
    }
    WindowsOfRead(rows, panesOf);
  }

  /**
    `getWindowInfo(sessionName, windowId)` on the response to its command:
    `null` when the command failed or printed nothing; otherwise the whole
    output is split on `'|'` — not line by line — and read as `id, name,
    active, layout, index, flags`, with the panes of `id`.
   */
  function GetWindowInfo(r: Response, panesOf: string -> seq<Pane>): (res: Result<Option<Window>>)
    ensures !r.success || r.output == "" <==> res == Ok(None)
    ensures res.Err? <==> r.success && r.output != "" && |Split(r.output, '|')| < 6
    ensures res.Err? ==> res.error == FlagsUndefined
  {
    if !r.success || r.output == "" then Ok(None)
    else
      var f := Split(r.output, '|');
      match Field(f, 5)
      case None => Err(FlagsUndefined)
      case Some(flags) =>
        Ok(Some(Window(f[0], Field(f, 1), IsOne(Field(f, 2)), IntField(Field(f, 4)), Field(f, 3),
                       flags, panesOf(f[0]))))
  }

  /** `getWindowInfo` reads back the window tmux describes in its own field order. */
  lemma WindowInfoRoundTrip(w: WindowInfo, panesOf: string -> seq<Pane>, error: Option<string>)
    requires PlainWindow(w)
    ensures GetWindowInfo(Response(true, WindowInfoLine(w), error), panesOf) == Ok(Some(WindowSeen(w, panesOf)))
  {
    var f := Split(WindowInfoLine(w), '|');
    InfoFields(w);
    assert Field(f, 5) == Some(w.flags);
    assert IsOne(Field(f, 2)) == w.active;
    DecimalField(w.index);
    assert IntField(Field(f, 4)) == Some(w.index);
    NonEmptyInfoLine(w);
  }

  lemma InfoFields(w: WindowInfo)
    requires PlainWindow(w)
    ensures Split(WindowInfoLine(w), '|')
         == [w.id, w.name, FlagText(w.active), w.layout, NatToDecimal(w.index), w.flags]
  {
    var parts := [w.id, w.name, FlagText(w.active), w.layout, NatToDecimal(w.index), w.flags];
    DecimalPlain(w.index);
    assert forall i :: 0 <= i < |parts| ==> Plain(parts[i]);
    SplitJoin(parts, '|');
  }

  lemma NonEmptyInfoLine(w: WindowInfo)
    ensures WindowInfoLine(w) != ""
  {
    var parts := [w.id, w.name, FlagText(w.active), w.layout, NatToDecimal(w.index), w.flags];
    assert WindowInfoLine(w) == w.id + ['|'] + JoinWith(parts[1..], '|');
  }

  /** No window before position `i` is active. */
  predicate FirstActive(ws: seq<Window>, i: nat)
    requires i <= |ws|
  {
    forall j :: 0 <= j < i ==> !ws[j].active
  }

  /** `getActiveWindow`: `windows.find(w => w.active) || null`. */
  function FindActive(ws: seq<Window>): (r: Option<Window>)
    ensures r.None? <==> forall i :: 0 <= i < |ws| ==> !ws[i].active
    ensures r.Some? ==> exists i :: 0 <= i < |ws| && ws[i] == r.value && ws[i].active && FirstActive(ws, i)
    decreases |ws|
  {
    if ws == [] then None
    else if ws[0].active then Some(ws[0])
    else
      var r := FindActive(ws[1..]);
      assert forall i :: 1 <= i < |ws| ==> ws[i] == ws[1..][i - 1];
      if r.Some? then
        assert exists i :: 1 <= i < |ws| && ws[i] == r.value && ws[i].active && FirstActive(ws, i) by {
          var k :| 0 <= k < |ws[1..]| && ws[1..][k] == r.value && ws[1..][k].active && FirstActive(ws[1..], k);
          assert ws[k + 1] == r.value;
        }
        r
      else r
  }
}
