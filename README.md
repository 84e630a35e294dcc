# TmuxManager — a verified model of the tmux control-mode client

This project models `TmuxManager`, the class in `src/tmux-manager.ts` that drives a
`tmux -C` (control mode) process. The model covers three things:

- The client sends commands by writing them, each followed by a newline, to the
  process's stdin. Before writing, it registers a pending handler under a fresh
  numeric key.
- It reads tmux's output in chunks. It buffers incomplete lines and walks each
  complete line. A `%begin` line opens a frame whose key is the second
  space-separated field. `%error` lines set the error message, other lines are
  accumulated as output, and `%end` resolves the pending handler stored under the
  key, if there is one.
- The record parsers turn a response's `output` into sessions, windows and panes.

The project has six modules, one per file:

- `JsString` (`jsstring.dfy`): the JavaScript string operations the client relies
  on, with their ECMAScript semantics. These are `indexOf`, `startsWith`, `slice`,
  `split` (always at least one part, and `join` undoes it), `trim` (JavaScript
  whitespace, including `\r`), and `parseInt` (leading whitespace, sign, `0x`
  prefix, longest digit prefix, else NaN).
- `Types` (`types.dfy`, after `src/types.ts`): the response record `TmuxCommandResponse`, a pending
  handler, and the errors the client throws.
- `Framing`: what one call of `handleTmuxOutput` does, stated as pure functions. A
  chunk consists of its complete lines (`Lines`) and an unterminated tail (`Tail`).
  The lines are run through a two-state machine: `RunIdle` handles lines outside a
  frame and `RunFrame` handles lines inside one. `ScanIdle` and `ScanFrame` read
  the same machine directly off the buffer, one `indexOf('\n')` at a time.
- `Manager`: the class `TmuxManager`. Its fields are `buffer`, `queue` (the
  `commandQueue`), `counter`, `connected` and `hasProcess`. `hasProcess` stands
  for a child process with a writable stdin.
  - Two further fields log what the object does to the outside world. `written`
    holds the strings written to stdin. `resolutions` holds, in order, every call
    of a stored `resolve`, with the key, the handler and the response.
  - `HandleTmuxOutput` is the outer loop of `handleTmuxOutput`. The inner loop,
    entered after a `%begin` line, is the method `ReadFrame`. Its `%end` branch is
    the method `Resolve`. All three work on the object's own fields.
  - The constructor and every method except `ReadFrame` and `Resolve`, the two
    that `HandleTmuxOutput` calls, keep the invariant `Valid()`:
    - the buffer holds no newline;
    - every pending key lies between 1 and the counter;
    - a connected manager has a process.
- `Records`: `listSessions`, `getPanes`, `getWindows`, `getWindowInfo` and
  `getActiveWindow`, as functions of the response already received.
  - For each `-F` format, a function gives the line tmux prints for a record. The
    round-trip lemmas show that the parser reads those values back.
  - A missing field is `undefined`, modelled as `None`. NaN is `None` as well.
  - `flags.split('')` on a missing field throws. It is modelled as the error
    `FlagsUndefined`.
- `Scenarios`: runs of a freshly constructed manager, written as methods, and
  lemmas about particular chunks. The runs cover connecting, sending commands,
  feeding chunks, losing the process and disconnecting. The two inputs of
  `src/tmux-manager.test.ts` are among the chunks. Their frame is fed to a manager
  (`Scenarios.CrlfChunkMisses`), and the lemmas state what their bodies would
  answer.

A caller might expect responses in first-in-first-out order, frames that survive
any split of tmux's output into chunks, and pending commands rejected when the
connection closes. The code does otherwise, and the model follows the code:

- Responses are matched to commands by the token in the `%begin` line, not in
  first-in-first-out order. A frame whose token is not a pending key resolves
  nothing.
- A frame is lost when the newline ending its `%begin` line and the newline
  ending its `%end` line arrive in different chunks. After the first of those
  chunks the inner loop runs out of complete lines and the frame state is
  discarded, so the `%end` line is later read outside any frame
  (`Scenarios.SplitFrameLost`). A chunk boundary before the newline of the
  `%begin` line loses nothing, because the text since the last newline waits in
  `buffer` (`Framing.TailIsSuffix`, `Framing.LinesOfTerminated`). A run with the
  `%begin` line itself split across two chunks still resolves the command
  (`Scenarios.SplitInsideBegin`).
- `disconnect` and the process's `exit` handler reject nothing. Pending handlers
  are discarded (`disconnect`) or left in the queue (`exit`).
- The two test inputs use the token `1234`, while the first command gets the key
  `1`. So their frames resolve nothing (`Scenarios.CrlfFrameMisses`), and a
  manager fed either one keeps the command pending (`Scenarios.CrlfChunkMisses`).
  - What such a frame would answer if its token matched is stated separately. A
    `\r` at the end of an output line is removed by `trim`
    (`Scenarios.CrlfOutputTrimmed`).
  - A `\r` at the end of an `%error` line is kept in the error
    (`Scenarios.CrlfErrorKeepsReturn`).
- `attached` is true only when the session's `session_attached` field is exactly
  `1`.

The framing the code expects is not quite the one the tmux(1) manual describes
in its CONTROL MODE section. There, `%begin`, `%end` and `%error` carry three
arguments: the time in seconds since the epoch, the command number and flags.
A failed command's block ends with its `%error` line instead of `%end`. So
`split(' ')[1]` of a `%begin` line is the time, and the `%error` branch only
matches a block that ends with `%end` after an `%error` line. This is a reading of
the code against the manual; the model states only what the code does.

## Model

| member | source | states |
|---|---|---|
| Manager.TmuxManager.constructor | src/tmux-manager.ts:16-25 | A new manager has no process, is not connected, and has an empty buffer, an empty queue and counter 0; it satisfies the invariant |
| Manager.TmuxManager.Connect | src/tmux-manager.ts:37-66 | If already connected, nothing happens. If `spawn` succeeds, the manager gets a process and is connected. If `spawn` throws, the call fails with `SpawnFailed` and the manager stays disconnected. Buffer, queue and counter are never reset |
| Manager.TmuxManager.OnExit | src/tmux-manager.ts:57-60 | The exit handler only clears `connected`; pending entries stay and the invariant holds |
| Manager.TmuxManager.HandleTmuxOutput | src/tmux-manager.ts:71-111 | Afterwards the buffer is the text after the last newline of the old buffer plus the data. Queue and resolution log are those of `RunIdle` over the complete lines, read from outside any frame. The invariant is kept |
| Manager.TmuxManager.ReadFrame | src/tmux-manager.ts:83-109 | The new buffer, queue and resolution log are where `FrameStop` says the inner loop stops. That is just after the first `%end` line, with the frame resolved there, or at the unterminated tail with nothing resolved when no `%end` comes |
| Manager.TmuxManager.Resolve | src/tmux-manager.ts:92-103 | The entry under the frame's key, if present, is resolved once with the frame's response and deleted; with no such entry nothing changes |
| Manager.TmuxManager.ExecuteCommand | src/tmux-manager.ts:117-132 | When not connected or without a process, the call fails with `NotConnected` and nothing is registered or written. Otherwise the counter is incremented, and the handler is stored under the new key, which was not pending before. Exactly `command + "\n"` is written and the key is returned |
| Manager.TmuxManager.Disconnect | src/tmux-manager.ts:282-291 | With a process, the manager is reset: no process, not connected, empty queue (nothing resolved), empty buffer, counter 0. Without a process nothing changes |
| Manager.PendingWithin | src/tmux-manager.ts:101 | Reading output only deletes queue entries, so every key left is one the counter handed out |
| Framing.Lines | src/tmux-manager.ts:75-78 | The lines cut from the buffer contain no newline |
| Framing.Tail | src/tmux-manager.ts:75-78 | What the outer loop leaves in `buffer`: the text after the last newline, which holds no newline. That it is a suffix following a newline is `Framing.TailIsSuffix` |
| Framing.Token | src/tmux-manager.ts:82 | `parseInt(line.split(' ')[1])`, with `undefined` and NaN as `None`. Its values are stated by `Framing.BeginToken` and `Framing.NoToken` |
| Framing.MakeResponse | src/tmux-manager.ts:96-100 | The response a frame resolves with: `success` is `!error`, `output` is the trimmed output, `error` is the error or undefined when it is empty. What it gives for a whole frame is `Framing.FrameResolved` |
| Framing.Complete | src/tmux-manager.ts:94-102 | The `%end` branch: get the entry under the key, resolve it and delete it, or do nothing when there is none. Its accounting is `Framing.CompleteAccounts` |
| Framing.RunIdle | src/tmux-manager.ts:75-110 | The outer loop over complete lines: only a `%begin` line matters, and it enters `RunFrame` with its token. Its properties are the `Framing.Frame*`, `Framing.NoisePrefix` and `Framing.RunIdleAccounts` lemmas |
| Framing.RunFrame | src/tmux-manager.ts:87-109 | The inner loop over complete lines: `%end` completes the frame and goes back to `RunIdle`, `%error` replaces the error, any other line is appended with a newline. Its properties are `Framing.FrameBody`, `Framing.EndLine` and `Framing.RunFrameAccounts` |
| Framing.ScanIdle | src/tmux-manager.ts:75-110 | The outer loop read off the buffer one `indexOf('\n')` at a time. It equals `RunIdle` over `Lines` with `Tail` left by `Framing.ScanIdleLines` |
| Framing.ScanFrame | src/tmux-manager.ts:87-109 | The inner loop read off the buffer, followed by the outer loop after `%end`. It equals `RunFrame` over `Lines` by `Framing.ScanFrameLines` |
| Framing.FrameStop | src/tmux-manager.ts:87-109 | The inner loop alone, read off the buffer: where it stops and what it resolved. Its properties are `Framing.FrameStopThenIdle`, `Framing.FrameStopNoEnd` and `Framing.FrameStopAtEnd` |
| Framing.FrameStopThenIdle | src/tmux-manager.ts:87-110 | Stopping after a frame and going on with the outer loop from there is the same as `ScanFrame`, the frame and what follows it |
| Framing.FrameStopNoEnd | src/tmux-manager.ts:87-109 | With no `%end` among the complete lines, the inner loop consumes all of them, resolves nothing, and leaves the tail |
| Framing.FrameStopAtEnd | src/tmux-manager.ts:87-109 | With body lines and then an `%end` line at the front, the inner loop completes the frame with the body's output and last error, and stops exactly after the `%end` line |
| Framing.FrameStopBody | src/tmux-manager.ts:104-108 | Body lines other than `%end` only append to the output or replace the error |
| Framing.TailIsSuffix | src/tmux-manager.ts:75-78 | What stays buffered is a suffix of the text. It is either all of the text or it follows a newline |
| Framing.LinesThenTail | src/tmux-manager.ts:72-78 | The complete lines, each re-terminated, followed by the buffered tail, give back the whole text |
| Framing.LinesOfTerminated | src/tmux-manager.ts:72-78 | Feeding terminated lines followed by more text yields exactly those lines first, and the tail of the rest |
| Framing.ScanIdleLines | src/tmux-manager.ts:75-110 | Walking the buffer with `indexOf('\n')` gives the same queue and resolutions as `RunIdle` over its lines, and leaves `Tail` |
| Framing.ScanFrameLines | src/tmux-manager.ts:87-109 | The same for the inner loop, started at any output and error so far |
| Framing.BeginToken | src/tmux-manager.ts:81-82 | The token of `%begin N…` followed by space-separated fields is N, for every decimal N. This includes the `\r` of a CRLF line |
| Framing.NoToken | src/tmux-manager.ts:82 | A line with no space has no second field, so its token is NaN |
| Framing.BeginLine | src/tmux-manager.ts:81-85 | Outside a frame, a `%begin` line opens a frame keyed by its token, with empty output and error |
| Framing.EndLine | src/tmux-manager.ts:92-103 | Inside a frame, `%end` completes the frame and reading goes on outside any frame |
| Framing.FrameBody | src/tmux-manager.ts:104-108 | Body lines without `%end` only add to the output (each line plus a newline) or replace the error |
| Framing.FrameResolved | src/tmux-manager.ts:92-101 | A whole frame whose token is a pending key resolves that entry. The response has `success` iff no error, the trimmed output, and the error or undefined. The entry is deleted and reading continues with the rest |
| Framing.FrameUnmatched | src/tmux-manager.ts:94-103 | A whole frame whose token is NaN or not pending changes nothing |
| Framing.FrameLost | src/tmux-manager.ts:87-110 | A frame whose `%end` has not arrived by the end of the chunk resolves nothing and leaves the queue unchanged |
| Framing.NoisePrefix | src/tmux-manager.ts:81 | Lines outside a frame that do not start with `%begin` are ignored |
| Framing.LastErrorWins | src/tmux-manager.ts:104-105 | The error of a frame is the text after the 7th character of its last `%error` line |
| Framing.NoErrorLine | src/tmux-manager.ts:104-107 | Without `%error` lines the error stays empty and the output is every body line followed by a newline |
| Framing.CompleteAccounts | src/tmux-manager.ts:94-102 | Completing a frame resolves only keys that were pending, and a key leaves the queue exactly when it is resolved |
| Framing.RunIdleAccounts | src/tmux-manager.ts:71-111 | Over any lines, no key is added to the queue, and the entries that remain are unchanged. A key leaves the queue exactly when it is resolved. It is resolved with the handler stored under it, and at most once |
| Framing.RunFrameAccounts | src/tmux-manager.ts:87-109 | The same from inside a frame |
| JsString.Split | src/tmux-manager.ts:144 | `split` yields at least one part, no part contains the separator, and joining the parts with it gives back the string |
| JsString.SplitJoin | src/tmux-manager.ts:144 | Splitting a join of separator-free parts gives back those parts |
| JsString.Trim | src/tmux-manager.ts:98 | `trim` leaves neither leading nor trailing JavaScript whitespace |
| JsString.TrimAround | src/tmux-manager.ts:98 | Trimming whitespace, then text whose first and last characters are not whitespace, then more whitespace, gives exactly that text |
| JsString.TrimIdempotent | src/tmux-manager.ts:98 | Trimming twice is trimming once |
| JsString.ParseIntDecimal | src/tmux-manager.ts:82 | `parseInt` of a decimal numeral followed by a non-digit is the number |
| JsString.ParseIntNoDigits | src/tmux-manager.ts:82 | `parseInt` of text with no digits after sign and whitespace is NaN |
| JsString.IndexOf | src/tmux-manager.ts:76 | `indexOf`: `None` exactly when the character is absent; otherwise the position of its first occurrence |
| JsString.SliceFrom | src/tmux-manager.ts:105 | `slice(n)`: the text after the first n characters, or empty when the text is shorter |
| JsString.StartsWith | src/tmux-manager.ts:81 | `startsWith`: the line begins with the marker. Used at lines 81, 92 and 104 |
| JsString.Field | src/tmux-manager.ts:82 | An array read: the element at an index below the length, `undefined` (`None`) at or past it. Also the destructured fields at lines 144, 169, 197 and 265 |
| JsString.ToText | src/tmux-manager.ts:82 | The text `parseInt` reads from a value: a present value is its own text, and `undefined` gives a text that `parseInt` reads as NaN. Also at lines 148, 175 and 201-204 |
| JsString.UndefinedIsNaN | src/tmux-manager.ts:82 | `parseInt` of the text `undefined` is NaN |
| JsString.ParseInt | src/tmux-manager.ts:82 | ECMAScript `parseInt` with radix left out (leading whitespace, sign, `0x`, longest digit prefix, else NaN as `None`). Its values are stated by `JsString.ParseIntDecimal` and `JsString.ParseIntNoDigits` |
| Records.IsOne | src/tmux-manager.ts:149 | `value === '1'`, for `attached` and the `active` flags (lines 174 and 200) |
| Records.IntField | src/tmux-manager.ts:148 | `parseInt` of a field that may be `undefined`, which gives NaN. Also used at lines 175 and 201-204. `Records.DecimalField` reads back every decimal numeral |
| Records.SessionFormat | src/tmux-manager.ts:138 | The `-F` format of `list-sessions` splits at the bar character into its four directives, id, name, creation time and attached count, in the order the parser at line 144 destructures them |
| Records.ListSessionsCommand | src/tmux-manager.ts:138 | The command `listSessions` writes: `list-sessions -F` and the quoted format of `Records.SessionFormat`. `Scenarios.SessionsListed` shows it is the line written |
| Records.SessionOf | src/tmux-manager.ts:144-151 | One session from one line of `list-sessions` output. Read back from its format line by `Records.SessionRoundTrip` |
| Records.PaneOf | src/tmux-manager.ts:197-205 | One pane from one line of `list-panes` output. Read back by `Records.PaneRoundTrip` |
| Records.WindowsOf | src/tmux-manager.ts:167-181 | `Promise.all` over the lines: the windows in line order, or the first line's failure. Its properties are `Records.WindowsOfRead` |
| Records.DecimalField | src/tmux-manager.ts:148 | `parseInt` of the decimal numeral of any natural number gives that number back |
| Records.OutputLines | src/tmux-manager.ts:139-143 | No lines exactly when the response failed or its output is empty. Otherwise the lines joined with newlines give back the output, and none of them contains a newline |
| Records.ListSessions | src/tmux-manager.ts:137-152 | Empty exactly when the response failed or its output is empty; otherwise one session per output line |
| Records.SessionRoundTrip | src/tmux-manager.ts:138-151 | The session read from the line tmux prints for the format keeps the id, name and creation seconds. `attached` is true iff exactly one client is attached, and the windows are empty |
| Records.ListSessionsRoundTrip | src/tmux-manager.ts:137-152 | The output of several sessions lists them back, in order |
| Records.GetPanes | src/tmux-manager.ts:187-207 | Empty exactly when the response failed or its output is empty; otherwise one pane per line |
| Records.PaneRoundTrip | src/tmux-manager.ts:189-205 | A pane read from its format line keeps the id, active flag, width, height, command and pid |
| Records.GetPanesRoundTrip | src/tmux-manager.ts:187-207 | The output of several panes lists them back, in order |
| Records.WindowOf | src/tmux-manager.ts:169-179 | A line gives a window unless it has fewer than six `|` fields; that failure is the `flags.split('')` error |
| Records.WindowsOfDecides | src/tmux-manager.ts:167-181 | Reading all lines succeeds iff every line has a flags field; a failure is that error |
| Records.WindowsOfValues | src/tmux-manager.ts:167-181 | A successful read has one window per line, each the one read from its own line |
| Records.WindowsOfRead | src/tmux-manager.ts:167-181 | Both of the above together |
| Records.GetWindows | src/tmux-manager.ts:163-165 | A failed response or empty output gives no windows |
| Records.GetWindowsFails | src/tmux-manager.ts:158-182 | `getWindows` succeeds exactly when every output line has six fields, with one window per line; otherwise it fails with the flags error |
| Records.WindowRoundTrip | src/tmux-manager.ts:160-179 | A window read from its format line (index before layout) keeps the id, name, active flag, index, layout and flags, plus the panes of its id |
| Records.GetWindowsRoundTrip | src/tmux-manager.ts:158-182 | The output of several windows lists them back, in order |
| Records.GetWindowInfo | src/tmux-manager.ts:256-277 | A failed response or empty output gives null. The whole output is split on `|`, and fewer than six fields is the flags error; otherwise a window |
| Records.InfoFields | src/tmux-manager.ts:258 | The `getWindowInfo` format line (layout before index) splits into its six values |
| Records.WindowInfoRoundTrip | src/tmux-manager.ts:256-277 | `getWindowInfo` reads the window back from its format line, with `layout` and `index` in that format's order |
| Records.FindActive | src/tmux-manager.ts:227-230 | null exactly when no window is active; otherwise the first active window |
| Scenarios.FrameAnswersCommand | src/tmux-manager.ts:117-132 | After connecting and sending one command, one chunk holding a frame with token 1 resolves that command with the frame's response. Nothing stays pending or buffered, and exactly the command line was written |
| Scenarios.FrameMissesCommand | src/tmux-manager.ts:94-103 | The same chunk with any other token resolves nothing, and the command stays pending |
| Scenarios.SplitFrameLost | src/tmux-manager.ts:87-110 | A `%begin` line in one chunk and its body and `%end` in the next resolve nothing; the command stays pending |
| Scenarios.SplitInsideBegin | src/tmux-manager.ts:72-90 | The first chunk holds only the start of the `%begin` line, and the next holds its rest, the body and `%end`. The command is resolved with the frame's response, and nothing stays pending or buffered |
| Scenarios.CrlfChunkMisses | src/tmux-manager.test.ts:68-95 | A manager that has sent one command and is fed the tests' `%begin 1234\r` frame in one chunk resolves nothing. The command stays pending under key 1, and the buffer is empty |
| Scenarios.AnsweredByToken | src/tmux-manager.ts:94-101 | Two commands answered in reverse order in one chunk are each resolved with their own frame, in arrival order, and nothing stays pending |
| Scenarios.SessionsListed | src/tmux-manager.ts:137-152 | `list-sessions` sent, answered by a frame holding the sessions' format lines, and parsed gives back those sessions, in order. With no sessions the frame is empty and the list is empty |
| Scenarios.ExitKeepsPending | src/tmux-manager.ts:57-60 | After the process exits, a pending command stays pending, and a new command fails with `NotConnected` without being written |
| Scenarios.DisconnectTwice | src/tmux-manager.ts:282-291 | The first `disconnect` leaves an empty buffer, an empty queue, counter 0, not connected and no process. The state after the second is the same. After reconnecting, the next command gets key 1, and the command sent before the disconnect is gone without a resolution |
| Scenarios.CrlfBeginToken | src/tmux-manager.test.ts:75 | The CRLF line `%begin 1234\r` has token 1234 |
| Scenarios.CrlfFrameMisses | src/tmux-manager.test.ts:68-80 | A frame opened by `%begin 1234\r` does not resolve the command stored under key 1 |
| Scenarios.CrlfOutputTrimmed | src/tmux-manager.test.ts:75-79 | A single body line ending in `\r` becomes a successful response whose output is the line without it |
| Scenarios.CrlfErrorKeepsReturn | src/tmux-manager.test.ts:90-94 | An `%error` line ending in `\r` gives a failed response whose error keeps the `\r` |
| Scenarios.FrameOfRows | src/tmux-manager.ts:96-100 | A frame whose body is rows without `%error` and whose ends are not whitespace answers exactly those rows joined by newlines |
| Scenarios.SessionsFromFrame | src/tmux-manager.ts:96-152 | The response of a frame holding session lines parses back to those sessions. An empty frame gives an empty output and no sessions |
| Scenarios.TwoFrames | src/tmux-manager.ts:75-110 | Two complete frames with distinct pending tokens resolve both keys, in order, and delete both |

## Left out

- The child process itself is not modelled: `spawn` and its arguments, the stdout, stderr and `exit` event wiring, the `console` logging, `stdin.end()` and `kill()`. The process is the `hasProcess` flag. Each `data` event is a call of `HandleTmuxOutput`.
- Promises and `async` are not modelled. A `resolve` call is an entry in `resolutions`, and `reject` is never called by the code. An operation that awaits a response (`listSessions`, `getWindows`, `getPanes`, `getWindowInfo`, `getActiveWindow`) is modelled as a function of that response. The concurrency of `Promise.all` is not modelled.
- Records.GetWindows, Records.GetWindowInfo: the `getPanes` call made for each window is the parameter `panesOf`, the panes of a window id. The command it sends and the frames that answer it are not modelled.
- `getInstance` and the singleton field are not modelled; each scenario constructs its own manager.
- `src/index.ts` (the MCP server tool layer) is not part of this model.
- The convenience commands `sendKeys`, `capturePane`, `switchWindow`, `nextWindow` and `previousWindow` are not modelled. Each only builds a command string for `executeCommand`. The other command strings are not modelled either; only `list-sessions` is given (`Records.ListSessionsCommand`).
- Manager.TmuxManager.ExecuteCommand: the `stdin` re-check inside the promise at line 125-128 is not modelled. It cannot fail once the check at line 118 has passed, because nothing runs between the two checks.
- Records.ListSessions: the `Date` built from `created` is its number of seconds. The multiplication by 1000 and the date arithmetic are not modelled.
- JsString.ParseIntDecimal: `parseInt` and the counter give exact integers. Double-precision rounding of very large numbers is not modelled.
- JsString: strings are sequences of characters. UTF-16 surrogate pairs are not modelled, and `flags.split('')` is the sequence of the flag characters.
- Manager.TmuxManager.OnExit: the exit event of an earlier process, arriving after a reconnect, is the same call, so it clears `connected` for the new process too. The event's timing is not modelled.
