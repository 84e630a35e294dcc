/**
  Whole runs of a fresh `TmuxManager`: connect, send commands, feed tmux's
  output in chunks, lose the process, disconnect. Each method builds its own
  manager and returns what became of it, so its claims are about the
  object's behaviour from construction on.
 */
module Scenarios {
  import opened JsString
  import opened Types
  import opened Framing
  import opened Manager
  import opened Records

  /** Lines free of newlines, as they come out of the buffer. */
  predicate OneLineEach(lines: seq<string>)
  {
    forall i :: 0 <= i < |lines| ==> '\n' !in lines[i]
  }

  lemma OneLineFrame(begin: string, body: seq<string>, end: string)
    requires '\n' !in begin && '\n' !in end && OneLineEach(body)
    ensures OneLineEach([begin] + body + [end])
  {
    var lines := [begin] + body + [end];
    forall i | 0 <= i < |lines| ensures '\n' !in lines[i] {
      if 0 < i < |lines| - 1 {
        assert lines[i] == body[i - 1];
      }
    }
  }

  /** One chunk of complete lines, fed to an empty buffer, is read line by line. */
  lemma OneChunk(lines: seq<string>)
    requires OneLineEach(lines)
    ensures Lines("" + Terminated(lines)) == lines && Tail("" + Terminated(lines)) == ""
  {
    LinesOfTerminated(lines, "");
    NoNextLine("");
    assert "" + Terminated(lines) == Terminated(lines) + "";
    assert lines + [] == lines;
  }

  /** A chunk holding one frame whose token names a pending key, fed to an empty buffer. */
  lemma ChunkAnswered(begin: string, body: seq<string>, end: string, q: map<int, Handler>, k: int)
    requires StartsWith(begin, "%begin") && StartsWith(end, "%end")
    requires '\n' !in begin && '\n' !in end && OneLineEach(body)
    requires NoLineStartsWith(body, "%end")
    requires Token(begin) == Some(k) && k in q
    ensures var p := RunIdle(Lines("" + Terminated([begin] + body + [end])), q);
      p.queue == q - {k} && p.resolved == [Resolution(k, q[k], MakeResponse(BodyOutput(body), LastError(body, "")))]
  {
    var lines := [begin] + body + [end];
    OneLineFrame(begin, body, end);
    OneChunk(lines);
    assert lines + [] == lines;
    FrameResolved(begin, body, end, [], q, k);
    assert RunIdle([], q - {k}) == Pass(q - {k}, []);
  }

  /** A chunk holding one frame whose token names no pending key, fed to an empty buffer. */
  lemma ChunkUnmatched(begin: string, body: seq<string>, end: string, q: map<int, Handler>)
    requires StartsWith(begin, "%begin") && StartsWith(end, "%end")
    requires '\n' !in begin && '\n' !in end && OneLineEach(body)
    requires NoLineStartsWith(body, "%end")
    requires Token(begin).None? || Token(begin).value !in q
    ensures RunIdle(Lines("" + Terminated([begin] + body + [end])), q) == Pass(q, [])
  {
    var lines := [begin] + body + [end];
    OneLineFrame(begin, body, end);
    OneChunk(lines);
    assert lines + [] == lines;
    FrameUnmatched(begin, body, end, [], q);
  }

  /** The same chunk leaves nothing in the buffer. */
  lemma ChunkLeavesNothing(begin: string, body: seq<string>, end: string)
    requires '\n' !in begin && '\n' !in end && OneLineEach(body)
    ensures Tail("" + Terminated([begin] + body + [end])) == ""
  {
    OneLineFrame(begin, body, end);
    OneChunk([begin] + body + [end]);
  }

  // ------------------------------------------------ the tests' CRLF frames

  /** The `%begin` line the tests feed: `%begin 1234` and a carriage return. */
  function CrlfBegin(): string
  {
    JoinWith(["%begin", NatToDecimal(1234) + "\r"], ' ')
  }

  lemma JoinPair(a: string, b: string, sep: char)
    ensures JoinWith([a, b], sep) == a + [sep] + b
  {
    assert [a, b][1..] == [b];
  }

  /** Its token is 1234: `parseInt` stops at the carriage return. */
  lemma CrlfBeginToken()
    ensures Token(CrlfBegin()) == Some(1234)
  {
    BeginToken(1234, "\r", []);
    assert ["%begin", NatToDecimal(1234) + "\r"] + [] == ["%begin", NatToDecimal(1234) + "\r"];
  }

  /** It opens a frame and is one line. */
  lemma CrlfBeginShape()
    ensures StartsWith(CrlfBegin(), "%begin") && '\n' !in CrlfBegin()
  {
    var field := NatToDecimal(1234) + "\r";
    JoinPair("%begin", field, ' ');
    assert CrlfBegin() == "%begin" + [' '] + field;
    assert CrlfBegin()[..6] == "%begin";
    assert '\n' !in field by {
      forall k | 0 <= k < |field| ensures field[k] != '\n' {
        if k < |NatToDecimal(1234)| {
          assert IsDecimalDigit(NatToDecimal(1234)[k]);
        }
      }
    }
  }

  /**
    The tests' frame, whatever its body and `%end` line, resolves nothing
    for the first command sent, which is registered under key 1.
   */
  lemma CrlfFrameMisses(command: string, body: seq<string>, end: string)
    requires StartsWith(end, "%end") && '\n' !in end
    requires OneLineEach(body) && NoLineStartsWith(body, "%end")
    ensures RunIdle(Lines("" + Terminated([CrlfBegin()] + body + [end])), map[1 := Handler(command)])
         == Pass(map[1 := Handler(command)], [])
  {
    CrlfBeginToken();
    CrlfBeginShape();
    ChunkUnmatched(CrlfBegin(), body, end, map[1 := Handler(command)]);
  }

  /**
    A manager that has sent one command, fed the tests' whole frame in one
    chunk: the frame is read and dropped, the command stays pending under
    key 1, and nothing stays buffered.
   */
  method CrlfChunkMisses(command: string, body: seq<string>, end: string)
    returns (rs: seq<Resolution>, pending: map<int, Handler>, rest: string)
    requires StartsWith(end, "%end") && '\n' !in end
    requires OneLineEach(body) && NoLineStartsWith(body, "%end")
    ensures rs == [] && pending == map[1 := Handler(command)] && rest == ""
  {
    var m := SentOne(command);
    CrlfFrameMisses(command, body, end);
    CrlfBeginShape();
    ChunkLeavesNothing(CrlfBegin(), body, end);
    m.HandleTmuxOutput(Terminated([CrlfBegin()] + body + [end]));
    rs, pending, rest := m.resolutions, m.queue, m.buffer;
  }

  /**
    A body line ending in a carriage return: the `\r` and the newline are
    cut by `trim`, so the output is the line's text.
   */
  lemma CrlfOutputTrimmed(row: string)
    requires row != "" && !IsJsSpace(row[0]) && !IsJsSpace(row[|row| - 1])
    requires !StartsWith(row + "\r", "%error")
    ensures MakeResponse(BodyOutput([row + "\r"]), LastError([row + "\r"], "")) == Response(true, row, None)
  {
    var line := row + "\r";
    var lines: seq<string> := [line];
    assert lines[1..] == [];
    assert BodyOutput([line]) == line + "\n";
    assert LastError([line], "") == "";
    assert IsJsSpace('\r') && IsJsSpace('\n');
    TrimAround("", row, "\r\n");
    assert "" + row + "\r\n" == line + "\n";
  }

  /**
    An `%error` line ending in a carriage return: `slice(7)` keeps the
    `\r`, so the error is the message with it.
   */
  lemma CrlfErrorKeepsReturn(message: string)
    ensures var line := "%error " + message + "\r";
      MakeResponse(BodyOutput([line]), LastError([line], "")) == Response(false, "", Some(message + "\r"))
  {
    var line := "%error " + message + "\r";
    var lines: seq<string> := [line];
    assert line[..6] == "%error";
    assert line[7..] == message + "\r";
    assert lines[1..] == [];
    assert BodyOutput([line]) == "";
    assert LastError([line], "") == message + "\r";
  }

  // --------------------------------------------- from a frame to the records

  lemma {:induction false} TerminatedJoin(rows: seq<string>)
    requires rows != []
    ensures Terminated(rows) == JoinWith(rows, '\n') + "\n"
    decreases |rows|
  {
    if |rows| >= 2 {
      TerminatedJoin(rows[1..]);
    }
  }

  /** The join of parts whose first and last are non-empty starts and ends as they do. */
  lemma {:induction false} JoinEnds(parts: seq<string>, sep: char)
    requires parts != [] && parts[0] != "" && parts[|parts| - 1] != ""
    ensures var j := JoinWith(parts, sep); var last := parts[|parts| - 1];
      j != "" && j[0] == parts[0][0] && j[|j| - 1] == last[|last| - 1]
    decreases |parts|
  {
    if |parts| >= 2 {
      var tail := parts[1..];
      assert tail[0] == parts[1] && tail[|tail| - 1] == parts[|parts| - 1];
      if parts[1] != "" {
        JoinEnds(tail, sep);
      } else {
        EndsOfJoinWithEmptyHead(tail, sep);
      }
    }
  }

  /** The same for the last character only, when the first part may be empty. */
  lemma {:induction false} EndsOfJoinWithEmptyHead(parts: seq<string>, sep: char)
    requires parts != [] && parts[|parts| - 1] != ""
    ensures var j := JoinWith(parts, sep); var last := parts[|parts| - 1];
      j != "" && j[|j| - 1] == last[|last| - 1]
    decreases |parts|
  {
    if |parts| >= 2 {
      var tail := parts[1..];
      assert tail[|tail| - 1] == parts[|parts| - 1];
      EndsOfJoinWithEmptyHead(tail, sep);
    }
  }

  /**
    A frame whose body is rows of text, none of them an `%error` line, the
    first not starting and the last not ending with whitespace: its
    response succeeds with the rows joined by newlines — `trim` removes
    exactly the newline after the last row.
   */
  lemma FrameOfRows(rows: seq<string>)
    requires rows != [] && OneLineEach(rows) && NoLineStartsWith(rows, "%error")
    requires rows[0] != "" && !IsJsSpace(rows[0][0])
    requires var last := rows[|rows| - 1]; last != "" && !IsJsSpace(last[|last| - 1])
    ensures MakeResponse(BodyOutput(rows), LastError(rows, "")) == Response(true, JoinWith(rows, '\n'), None)
  {
    NoErrorLine(rows, "");
    TerminatedJoin(rows);
    JoinEnds(rows, '\n');
    assert IsJsSpace('\n');
    TrimAround("", JoinWith(rows, '\n'), "\n");
    assert "" + JoinWith(rows, '\n') + "\n" == JoinWith(rows, '\n') + "\n";
  }

  /** A session whose id is non-empty and starts with neither whitespace nor `%` (tmux's are `$0`, `$1`, ...). */
  predicate ListableSession(s: SessionInfo)
  {
    PlainSession(s) && s.id != "" && s.id[0] != '%' && !IsJsSpace(s.id[0])
  }

  predicate Listable(ss: seq<SessionInfo>)
  {
    forall i :: 0 <= i < |ss| ==> ListableSession(ss[i])
  }

  /** Their lines are single lines that neither close a frame nor carry an error. */
  lemma SessionRowsShape(ss: seq<SessionInfo>)
    requires Listable(ss)
    ensures var rows := SessionRows(ss);
      && OneLineEach(rows) && NoLineStartsWith(rows, "%end") && NoLineStartsWith(rows, "%error")
      && forall i :: 0 <= i < |rows| ==> rows[i] != "" && rows[i][0] == ss[i].id[0]
  {
    var rows := SessionRows(ss);
    forall i | 0 <= i < |rows|
      ensures '\n' !in rows[i] && rows[i] != "" && rows[i][0] == ss[i].id[0]
      ensures !StartsWith(rows[i], "%end") && !StartsWith(rows[i], "%error")
    {
      SessionLinePlain(ss[i]);
      var parts := [ss[i].id, ss[i].name, NatToDecimal(ss[i].created), NatToDecimal(ss[i].clients)];
      assert rows[i] == ss[i].id + ['|'] + JoinWith(parts[1..], '|');
    }
  }

  /** A session's line ends with the last digit of its client count. */
  lemma SessionLineEnd(s: SessionInfo)
    ensures var l := SessionLine(s); l != "" && IsDecimalDigit(l[|l| - 1])
  {
    var parts := [s.id, s.name, NatToDecimal(s.created), NatToDecimal(s.clients)];
    var d := NatToDecimal(s.clients);
    EndsOfJoinWithEmptyHead(parts, '|');
    assert parts[|parts| - 1] == d;
    assert IsDecimalDigit(d[|d| - 1]);
  }

  /**
    `listSessions` on the response to a frame whose body is the lines tmux
    prints for `ss`: every session is read back, in order.
   */
  lemma SessionsFromFrame(ss: seq<SessionInfo>)
    requires Listable(ss)
    ensures var rows := SessionRows(ss);
      var got := ListSessions(MakeResponse(BodyOutput(rows), LastError(rows, "")));
      |got| == |ss| && forall i :: 0 <= i < |ss| ==> got[i] == SessionSeen(ss[i])
  {
    var rows := SessionRows(ss);
    if ss == [] {
      assert rows == [];
      TrimKeepsTrimmed("");
      assert MakeResponse(BodyOutput(rows), LastError(rows, "")).output == "";
    } else {
      SessionRowsShape(ss);
      SessionLineEnd(ss[|ss| - 1]);
      assert rows[|rows| - 1] == SessionLine(ss[|ss| - 1]);
      FrameOfRows(rows);
      ListSessionsRoundTrip(ss, None);
    }
  }

  /** A new manager, connected, that has sent `command` and holds nothing else. */
  method SentOne(command: string) returns (m: TmuxManager)
    ensures fresh(m) && m.Valid()
    ensures m.connected && m.hasProcess
    ensures m.buffer == "" && m.queue == map[1 := Handler(command)] && m.counter == 1
    ensures m.resolutions == [] && m.written == [command + "\n"]
  {
    m := new TmuxManager();
    var _ := m.Connect(true);
    var _ := m.ExecuteCommand(command);
  }

  /** The same, after a second command. */
  method SentTwo(first: string, second: string) returns (m: TmuxManager)
    ensures fresh(m) && m.Valid()
    ensures m.connected && m.hasProcess
    ensures m.buffer == "" && m.queue == map[1 := Handler(first), 2 := Handler(second)] && m.counter == 2
    ensures m.resolutions == [] && m.written == [first + "\n", second + "\n"]
  {
    m := SentOne(first);
    var _ := m.ExecuteCommand(second);
  }

  lemma OneTaken(command: string)
    ensures map[1 := Handler(command)] - {1} == map[]
  {
  }

  lemma BothTaken(first: string, second: string)
    ensures map[1 := Handler(first), 2 := Handler(second)] - {2} - {1} == map[]
  {
  }

  /**
    The first command sent, and one complete frame whose token is 1 in one
    chunk: the command is resolved once with the frame's trimmed output and
    its last error; nothing stays pending or buffered.
   */
  method FrameAnswersCommand(command: string, begin: string, body: seq<string>, end: string)
    returns (rs: seq<Resolution>, pending: map<int, Handler>, rest: string, sent: seq<string>)
    requires StartsWith(begin, "%begin") && Token(begin) == Some(1) && StartsWith(end, "%end")
    requires '\n' !in begin && '\n' !in end && OneLineEach(body)
    requires NoLineStartsWith(body, "%end")
    ensures var err := LastError(body, "");
      rs == [Resolution(1, Handler(command),
                        Response(err == "", Trim(BodyOutput(body)), if err == "" then None else Some(err)))]
    ensures pending == map[] && rest == "" && sent == [command + "\n"]
  {
    var m := SentOne(command);
    ChunkAnswered(begin, body, end, m.queue, 1);
    ChunkLeavesNothing(begin, body, end);
    m.HandleTmuxOutput(Terminated([begin] + body + [end]));
    rs, pending, rest, sent := m.resolutions, m.queue, m.buffer, m.written;
  }

  /**
    A complete frame whose token is not the key of the pending command —
    NaN, or another number — resolves nothing: the command stays pending.
   */
  method FrameMissesCommand(command: string, begin: string, body: seq<string>, end: string)
    returns (rs: seq<Resolution>, pending: map<int, Handler>, rest: string)
    requires StartsWith(begin, "%begin") && Token(begin) != Some(1) && StartsWith(end, "%end")
    requires '\n' !in begin && '\n' !in end && OneLineEach(body)
    requires NoLineStartsWith(body, "%end")
    ensures rs == [] && pending == map[1 := Handler(command)] && rest == ""
  {
    var m := SentOne(command);
    ChunkUnmatched(begin, body, end, m.queue);
    ChunkLeavesNothing(begin, body, end);
    m.HandleTmuxOutput(Terminated([begin] + body + [end]));
    rs, pending, rest := m.resolutions, m.queue, m.buffer;
  }

  /** A chunk holding only a `%begin` line, fed to an empty buffer, opens a frame and ends it unread. */
  lemma ChunkOpensFrame(begin: string, q: map<int, Handler>)
    requires StartsWith(begin, "%begin") && '\n' !in begin
    ensures RunIdle(Lines("" + Terminated([begin])), q) == Pass(q, [])
    ensures Tail("" + Terminated([begin])) == ""
  {
    OneChunk([begin]);
    FrameLost(begin, [], q);
    assert [begin] + [] == [begin];
  }

  /** A chunk of lines none of which opens a frame, fed to an empty buffer, is noise. */
  lemma ChunkOfNoise(body: seq<string>, end: string, q: map<int, Handler>)
    requires OneLineEach(body) && NoLineStartsWith(body, "%begin")
    requires '\n' !in end && !StartsWith(end, "%begin")
    ensures RunIdle(Lines("" + Terminated(body + [end])), q) == Pass(q, [])
    ensures Tail("" + Terminated(body + [end])) == ""
  {
    var lines := body + [end];
    assert OneLineEach(lines) && NoLineStartsWith(lines, "%begin") by {
      assert forall i :: 0 <= i < |body| ==> lines[i] == body[i];
    }
    OneChunk(lines);
    NoisePrefix(lines, [], q);
    assert lines + [] == lines;
  }

  lemma OneLineConcat(xs: seq<string>, ys: seq<string>)
    requires OneLineEach(xs) && OneLineEach(ys)
    ensures OneLineEach(xs + ys)
  {
    var zs := xs + ys;
    forall i | 0 <= i < |zs| ensures '\n' !in zs[i] {
      if i < |xs| {
        assert zs[i] == xs[i];
      } else {
        assert zs[i] == ys[i - |xs|];
      }
    }
  }

  /** One complete frame whose token names a pending entry, and nothing after it. */
  lemma OneFrameResolved(begin: string, body: seq<string>, end: string, q: map<int, Handler>, k: int)
    requires StartsWith(begin, "%begin") && StartsWith(end, "%end") && NoLineStartsWith(body, "%end")
    requires Token(begin) == Some(k) && k in q
    ensures RunIdle([begin] + body + [end], q)
      == Pass(q - {k}, [Resolution(k, q[k], MakeResponse(BodyOutput(body), LastError(body, "")))])
  {
    FrameResolved(begin, body, end, [], q, k);
    assert [begin] + body + [end] + [] == [begin] + body + [end];
    assert RunIdle([], q - {k}) == Pass(q - {k}, []);
  }

  /** Two complete frames in a row, each naming a different pending entry, resolve both in order. */
  lemma TwoFrames(beginA: string, bodyA: seq<string>, endA: string,
                  beginB: string, bodyB: seq<string>, endB: string,
                  q: map<int, Handler>, a: int, b: int)
    requires StartsWith(beginA, "%begin") && StartsWith(endA, "%end") && NoLineStartsWith(bodyA, "%end")
    requires StartsWith(beginB, "%begin") && StartsWith(endB, "%end") && NoLineStartsWith(bodyB, "%end")
    requires Token(beginA) == Some(a) && Token(beginB) == Some(b) && a != b && a in q && b in q
    ensures var p := RunIdle([beginA] + bodyA + [endA] + ([beginB] + bodyB + [endB]), q);
      && p.queue == q - {a} - {b}
      && p.resolved == [Resolution(a, q[a], MakeResponse(BodyOutput(bodyA), LastError(bodyA, ""))),
                        Resolution(b, q[b], MakeResponse(BodyOutput(bodyB), LastError(bodyB, "")))]
  {
    var frameB := [beginB] + bodyB + [endB];
    OneFrameResolved(beginB, bodyB, endB, q - {a}, b);
    FrameResolved(beginA, bodyA, endA, frameB, q, a);
  }

  /**
    A chunk holding two frames, fed to an empty buffer: each resolves the
    entry its token names, in the order the frames come.
   */
  lemma ChunkOfTwoFrames(beginA: string, bodyA: seq<string>, endA: string,
                         beginB: string, bodyB: seq<string>, endB: string,
                         q: map<int, Handler>, a: int, b: int)
    requires StartsWith(beginA, "%begin") && StartsWith(endA, "%end")
    requires StartsWith(beginB, "%begin") && StartsWith(endB, "%end")
    requires '\n' !in beginA && '\n' !in endA && OneLineEach(bodyA) && NoLineStartsWith(bodyA, "%end")
    requires '\n' !in beginB && '\n' !in endB && OneLineEach(bodyB) && NoLineStartsWith(bodyB, "%end")
    requires Token(beginA) == Some(a) && Token(beginB) == Some(b) && a != b && a in q && b in q
    ensures var p := RunIdle(Lines("" + Terminated([beginA] + bodyA + [endA] + ([beginB] + bodyB + [endB]))), q);
      && p.queue == q - {a} - {b}
      && p.resolved == [Resolution(a, q[a], MakeResponse(BodyOutput(bodyA), LastError(bodyA, ""))),
                        Resolution(b, q[b], MakeResponse(BodyOutput(bodyB), LastError(bodyB, "")))]
    ensures Tail("" + Terminated([beginA] + bodyA + [endA] + ([beginB] + bodyB + [endB]))) == ""
  {
    OneLineFrame(beginA, bodyA, endA);
    OneLineFrame(beginB, bodyB, endB);
    OneLineConcat([beginA] + bodyA + [endA], [beginB] + bodyB + [endB]);
    OneChunk([beginA] + bodyA + [endA] + ([beginB] + bodyB + [endB]));
    TwoFrames(beginA, bodyA, endA, beginB, bodyB, endB, q, a, b);
  }

  /**
    A frame cut after its `%begin` line: the first chunk opens it and runs
    out of lines, the second chunk's lines are read outside any frame, and
    its `%end` is noise. Nothing is resolved and the command stays pending.
   */
  method SplitFrameLost(command: string, begin: string, body: seq<string>, end: string)
    returns (rs: seq<Resolution>, pending: map<int, Handler>, rest: string)
    requires StartsWith(begin, "%begin") && !StartsWith(end, "%begin")
    requires '\n' !in begin && '\n' !in end && OneLineEach(body)
    requires NoLineStartsWith(body, "%begin")
    ensures rs == [] && pending == map[1 := Handler(command)] && rest == ""
  {
    var m := SentOne(command);
    ChunkOpensFrame(begin, m.queue);
    m.HandleTmuxOutput(Terminated([begin]));
    ChunkOfNoise(body, end, m.queue);
    m.HandleTmuxOutput(Terminated(body + [end]));
    rs, pending, rest := m.resolutions, m.queue, m.buffer;
  }

  /** A chunk with no newline, fed to an empty buffer, waits there and is not read. */
  lemma ChunkWaits(text: string, q: map<int, Handler>)
    requires '\n' !in text
    ensures RunIdle(Lines("" + text), q) == Pass(q, [])
    ensures Tail("" + text) == text
  {
    assert "" + text == text;
    NoNextLine(text);
  }

  /** The waiting start of a `%begin` line and the next chunk make up the whole frame. */
  lemma SplitBeginRejoins(head: string, more: string, body: seq<string>, end: string)
    ensures head + (more + "\n" + Terminated(body + [end])) == "" + Terminated([head + more] + body + [end])
  {
    assert [head + more] + body + [end] == [head + more] + (body + [end]);
    TerminatedCons(head + more, body + [end]);
  }

  /** The chunk after the waiting start of a `%begin` line answers the frame and leaves nothing. */
  lemma SplitBeginAnswered(head: string, more: string, body: seq<string>, end: string,
                           data: string, q: map<int, Handler>, k: int)
    requires data == more + "\n" + Terminated(body + [end])
    requires '\n' !in head && '\n' !in more
    requires StartsWith(head + more, "%begin") && Token(head + more) == Some(k) && k in q
    requires StartsWith(end, "%end") && '\n' !in end && OneLineEach(body)
    requires NoLineStartsWith(body, "%end")
    ensures var p := RunIdle(Lines(head + data), q);
      p.queue == q - {k} && p.resolved == [Resolution(k, q[k], MakeResponse(BodyOutput(body), LastError(body, "")))]
    ensures Tail(head + data) == ""
  {
    SplitBeginRejoins(head, more, body, end);
    ChunkAnswered(head + more, body, end, q, k);
    ChunkLeavesNothing(head + more, body, end);
  }

  /** After one command, a chunk with no newline waits in the buffer. */
  method SentOneWaiting(command: string, head: string) returns (m: TmuxManager)
    requires '\n' !in head
    ensures fresh(m) && m.Valid()
    ensures m.buffer == head && m.queue == map[1 := Handler(command)]
    ensures m.resolutions == []
  {
    m := SentOne(command);
    ChunkWaits(head, m.queue);
    m.HandleTmuxOutput(head);
  }

  /**
    A chunk boundary inside the `%begin` line, before its newline: the
    start of the line waits in the buffer, and the next chunk completes
    the frame, which resolves the command.
   */
  method SplitInsideBegin(command: string, head: string, more: string, body: seq<string>, end: string)
    returns (rs: seq<Resolution>, pending: map<int, Handler>, rest: string)
    requires '\n' !in head && '\n' !in more
    requires StartsWith(head + more, "%begin") && Token(head + more) == Some(1)
    requires StartsWith(end, "%end") && '\n' !in end && OneLineEach(body)
    requires NoLineStartsWith(body, "%end")
    ensures rs == [Resolution(1, Handler(command), MakeResponse(BodyOutput(body), LastError(body, "")))]
    ensures pending == map[] && rest == ""
  {
    var m := SentOneWaiting(command, head);
    var data := more + "\n" + Terminated(body + [end]);
    SplitBeginAnswered(head, more, body, end, data, m.queue, 1);
    OneTaken(command);
    m.HandleTmuxOutput(data);
    rs, pending, rest := m.resolutions, m.queue, m.buffer;
  }

  /**
    Two commands answered out of order in one chunk: each frame resolves
    the command its token names, in the order the frames arrive.
   */
  method AnsweredByToken(first: string, second: string,
                         begin2: string, body2: seq<string>, end2: string,
                         begin1: string, body1: seq<string>, end1: string)
    returns (rs: seq<Resolution>, pending: map<int, Handler>, rest: string)
    requires StartsWith(begin2, "%begin") && Token(begin2) == Some(2) && StartsWith(end2, "%end")
    requires StartsWith(begin1, "%begin") && Token(begin1) == Some(1) && StartsWith(end1, "%end")
    requires '\n' !in begin2 && '\n' !in end2 && OneLineEach(body2) && NoLineStartsWith(body2, "%end")
    requires '\n' !in begin1 && '\n' !in end1 && OneLineEach(body1) && NoLineStartsWith(body1, "%end")
    ensures rs == [Resolution(2, Handler(second), MakeResponse(BodyOutput(body2), LastError(body2, ""))),
                   Resolution(1, Handler(first), MakeResponse(BodyOutput(body1), LastError(body1, "")))]
    ensures pending == map[] && rest == ""
  {
    var m := SentTwo(first, second);
    ChunkOfTwoFrames(begin2, body2, end2, begin1, body1, end1, m.queue, 2, 1);
    BothTaken(first, second);
    m.HandleTmuxOutput(Terminated([begin2] + body2 + [end2] + ([begin1] + body1 + [end1])));
    rs, pending, rest := m.resolutions, m.queue, m.buffer;
  }

  /**
    `listSessions()` from end to end: its command is the first one sent, tmux
    answers with one frame whose token is 1 and whose body lists `ss`, and
    the response resolved for it is read back as those sessions, in order.
   */
  method SessionsListed(ss: seq<SessionInfo>, begin: string, end: string)
    returns (sessions: seq<Session>, pending: map<int, Handler>, sent: seq<string>)
    requires StartsWith(begin, "%begin") && Token(begin) == Some(1) && StartsWith(end, "%end")
    requires '\n' !in begin && '\n' !in end
    requires Listable(ss)
    ensures |sessions| == |ss| && forall i :: 0 <= i < |ss| ==> sessions[i] == SessionSeen(ss[i])
    ensures pending == map[] && sent == [ListSessionsCommand() + "\n"]
  {
    var m := SentOne(ListSessionsCommand());
    var rows := SessionRows(ss);
    SessionRowsShape(ss);
    ChunkAnswered(begin, rows, end, m.queue, 1);
    ChunkLeavesNothing(begin, rows, end);
    m.HandleTmuxOutput(Terminated([begin] + rows + [end]));
    SessionsFromFrame(ss);
    sessions, pending, sent := ListSessions(m.resolutions[0].response), m.queue, m.written;
  }

  /**
    The process exits with a command pending: the next command is refused,
    and the pending entry is neither resolved nor dropped.
   */
  method ExitKeepsPending(first: string, second: string)
    returns (r: Result<int>, pending: map<int, Handler>, sent: seq<string>)
    ensures r == Err(NotConnected)
    ensures pending == map[1 := Handler(first)] && sent == [first + "\n"]
  {
    var m := new TmuxManager();
    var _ := m.Connect(true);
    var _ := m.ExecuteCommand(first);
    m.OnExit();
    r := m.ExecuteCommand(second);
    pending, sent := m.queue, m.written;
  }

  /**
    Disconnecting twice with a command pending, then reconnecting: the
    first disconnect resets the manager and discards the pending entry
    without a resolution, the second finds the manager in the same state
    and leaves it so, and the counter starts over, so the next command
    gets key 1 again. `once` and `twice` are the buffer, queue, counter,
    connected flag and process flag after each disconnect.
   */
  method DisconnectTwice(first: string, second: string)
    returns (once: (string, map<int, Handler>, nat, bool, bool),
             twice: (string, map<int, Handler>, nat, bool, bool),
             r: Result<int>, rs: seq<Resolution>, pending: map<int, Handler>)
    ensures once == ("", map[], 0, false, false)
    ensures twice == once
    ensures r == Ok(1)
    ensures rs == [] && pending == map[1 := Handler(second)]
  {
    var m := new TmuxManager();
    var _ := m.Connect(true);
    var _ := m.ExecuteCommand(first);
    m.Disconnect();
    once := (m.buffer, m.queue, m.counter, m.connected, m.hasProcess);
    m.Disconnect();
    twice := (m.buffer, m.queue, m.counter, m.connected, m.hasProcess);
    var _ := m.Connect(true);
    r := m.ExecuteCommand(second);
    rs, pending := m.resolutions, m.queue;
  }
}
