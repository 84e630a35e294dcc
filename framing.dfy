/**
  What one call of `handleTmuxOutput` does, as functions of its input: the
  text is cut into complete lines and an unterminated tail, and the lines are
  run through a two-state machine — outside a frame, where only a `%begin`
  line matters, and inside one, where `%end` resolves the entry keyed by the
  `%begin` line's token, `%error` records a message and any other line is
  output. A pass starts outside any frame; a frame still open when the lines
  run out is dropped with its accumulated output.
 */
module Framing {
  import opened JsString
  import opened Types

  /** The queue left by a run over some lines and the resolutions it made, in order. */
  datatype Pass = Pass(queue: map<int, Handler>, resolved: seq<Resolution>)

  /** The complete, newline-terminated lines at the front of `s`, without their newlines. */
  function Lines(s: string): (r: seq<string>)
    ensures forall i :: 0 <= i < |r| ==> '\n' !in r[i]
    decreases |s|
  {
    match IndexOf(s, '\n')
    case None => []
    case Some(i) => [s[..i]] + Lines(s[i + 1..])
  }

  /** The part of `s` after its last newline (all of `s` if it has none). */
  function Tail(s: string): (r: string)
    ensures '\n' !in r
    decreases |s|
  {
    match IndexOf(s, '\n')
    case None => s
    case Some(i) => Tail(s[i + 1..])
  }

  /** `r` ends `s`, and is either all of `s` or preceded in it by a newline. */
  predicate EndsAfterNewline(s: string, r: string)
  {
    && |r| <= |s| && r == s[|s| - |r|..]
    && (|r| == |s| || s[|s| - |r| - 1] == '\n')
  }

  /** Ending what follows a newline of `s` is ending `s` after a newline. */
  lemma EndsAfterNewlineStep(s: string, i: nat, r: string)
    requires i < |s| && s[i] == '\n'
    requires EndsAfterNewline(s[i + 1..], r)
    ensures EndsAfterNewline(s, r)
  {
    var t := s[i + 1..];
    var j := |t| - |r|;
    assert |s| - |r| == i + 1 + j;
    assert s[i + 1 + j..] == t[j..];
    var k := |s| - |r| - 1;
    if |r| == |t| {
      assert k == i;
    } else {
      assert s[k] == t[j - 1];
    }
  }

  /** The tail is a suffix of `s`, and either all of `s` or preceded by a newline. */
  lemma {:induction false} TailIsSuffix(s: string)
    ensures EndsAfterNewline(s, Tail(s))
    decreases |s|
  {
    match IndexOf(s, '\n')
    case None =>
    case Some(i) =>
      TailIsSuffix(s[i + 1..]);
      EndsAfterNewlineStep(s, i, Tail(s[i + 1..]));
  }

  /** Each line followed by a newline, one after the other. */
  function Terminated(ls: seq<string>): string
  {
    if ls == [] then "" else ls[0] + "\n" + Terminated(ls[1..])
  }

  /** `[x] + xs` splits back into its head and the rest. */
  lemma ConsParts<T>(x: T, xs: seq<T>)
    ensures ([x] + xs)[0] == x && ([x] + xs)[1..] == xs
  {
  }

  lemma TerminatedCons(line: string, ls: seq<string>)
    ensures Terminated([line] + ls) == line + "\n" + Terminated(ls)
  {
    ConsParts(line, ls);
  }

  /** `s` is its text before its newline at `i`, that newline, and what follows. */
  lemma Reassemble(s: string, i: nat, x: string, y: string)
    requires i < |s| && s[i] == '\n' && x + y == s[i + 1..]
    ensures (s[..i] + "\n" + x) + y == s
  {
    assert (s[..i] + "\n" + x) + y == s[..i] + "\n" + (x + y);
    assert s == s[..i] + "\n" + s[i + 1..];
  }

  /** Text that begins with one line and its newline: that line comes first. */
  lemma LineThen(line: string, t: string)
    requires '\n' !in line
    ensures Lines(line + "\n" + t) == [line] + Lines(t)
    ensures Tail(line + "\n" + t) == Tail(t)
  {
    var s := line + "\n" + t;
    var n := |line|;
    assert s[..n] == line;
    assert s[n + 1..] == t;
    assert IndexOf(s, '\n') == Some(n) by {
      assert s[n] == '\n';
      assert '\n' !in s[..n];
    }
  }

  /** Every character of `s` is in exactly one complete line, with its newline, or in the tail. */
  lemma {:induction false} LinesThenTail(s: string)
    ensures Terminated(Lines(s)) + Tail(s) == s
    decreases |s|
  {
    match IndexOf(s, '\n')
    case None =>
    case Some(i) =>
      var t := s[i + 1..];
      LinesThenTail(t);
      TerminatedCons(s[..i], Lines(t));
      Reassemble(s, i, Terminated(Lines(t)), Tail(t));
  }

  lemma TerminatedFirst(ls: seq<string>, rest: string)
    requires ls != []
    ensures Terminated(ls) + rest == ls[0] + "\n" + (Terminated(ls[1..]) + rest)
  {
  }

  lemma ConsAgain<T>(xs: seq<T>, ys: seq<T>)
    requires xs != []
    ensures [xs[0]] + (xs[1..] + ys) == xs + ys
  {
    assert [xs[0]] + xs[1..] == xs;
  }

  /** Reading back text made of terminated lines gives those lines, in order. */
  lemma {:induction false} LinesOfTerminated(ls: seq<string>, rest: string)
    requires forall i :: 0 <= i < |ls| ==> '\n' !in ls[i]
    ensures Lines(Terminated(ls) + rest) == ls + Lines(rest)
    ensures Tail(Terminated(ls) + rest) == Tail(rest)
  {
    if ls != [] {
      var t := Terminated(ls[1..]) + rest;
      TerminatedFirst(ls, rest);
      LineThen(ls[0], t);
      LinesOfTerminated(ls[1..], rest);
      ConsAgain(ls, Lines(rest));
    } else {
      assert Terminated(ls) + rest == rest;
      assert ls + Lines(rest) == Lines(rest);
    }
  }

  /** The correlation id of a `%begin` line: `parseInt(line.split(' ')[1])`, `None` for NaN. */
  function Token(line: string): Option<int>
  {
    ParseInt(ToText(Field(Split(line, ' '), 1)))
  }

  /** Of space-free fields joined by spaces, the token is `parseInt` of the second. */
  lemma SecondField(parts: seq<string>)
    requires |parts| >= 2
    requires forall i :: 0 <= i < |parts| ==> ' ' !in parts[i]
    ensures Token(JoinWith(parts, ' ')) == ParseInt(parts[1])
  {
    SplitJoin(parts, ' ');
  }

  /** Digits followed by space-free text are space-free. */
  lemma DecimalThenNoSpace(n: nat, rest: string)
    requires ' ' !in rest
    ensures ' ' !in NatToDecimal(n) + rest
  {
    var d := NatToDecimal(n);
    var field := d + rest;
    forall k | 0 <= k < |field| ensures field[k] != ' ' {
      if k < |d| {
        assert IsDecimalDigit(d[k]);
      } else {
        assert field[k] == rest[k - |d|];
      }
    }
  }

  /**
    The token of a `%begin` line whose second field is the decimal text of
    `n` followed by anything that is not a digit (a carriage return, say):
    `n` itself, whatever further fields follow.
   */
  lemma BeginToken(n: nat, rest: string, more: seq<string>)
    requires rest == "" || !IsDecimalDigit(rest[0])
    requires n == 0 ==> rest == "" || (rest[0] != 'x' && rest[0] != 'X')
    requires ' ' !in rest
    requires forall i :: 0 <= i < |more| ==> ' ' !in more[i]
    ensures Token(JoinWith(["%begin", NatToDecimal(n) + rest] + more, ' ')) == Some(n)
  {
    var field := NatToDecimal(n) + rest;
    DecimalThenNoSpace(n, rest);
    var parts := ["%begin", field] + more;
    forall i | 0 <= i < |parts| ensures ' ' !in parts[i] {
      if i >= 2 {
        assert parts[i] == more[i - 2];
      }
    }
    SecondField(parts);
    assert parts[1] == field;
    ParseIntDecimal(n, rest);
  }

  /** A `%begin` line without a space has no second field: `parseInt(undefined)` is NaN. */
  lemma NoToken(line: string)
    requires ' ' !in line
    ensures Token(line) == None
  {
    SplitJoin([line], ' ');
    assert Field(Split(line, ' '), 1) == None;
  }

  /** `{success: !error, output: output.trim(), error: error || undefined}` */
  function MakeResponse(output: string, error: string): Response
  {
    Response(error == "", Trim(output), if error == "" then None else Some(error))
  }

  /** An `%end` line: resolve and delete the entry under `id` if there is one. */
  function Complete(q: map<int, Handler>, id: Option<int>, output: string, error: string): Pass
  {
    if id.Some? && id.value in q
    then Pass(q - {id.value}, [Resolution(id.value, q[id.value], MakeResponse(output, error))])
    else Pass(q, [])
  }

  /** The lines read outside any frame (the outer loop). */
  function RunIdle(lines: seq<string>, q: map<int, Handler>): Pass
    decreases |lines|
  {
    if lines == [] then Pass(q, [])
    else if StartsWith(lines[0], "%begin") then RunFrame(lines[1..], Token(lines[0]), "", "", q)
    else RunIdle(lines[1..], q)
  }

  /** The lines read inside a frame opened with `id` (the inner loop). */
  function RunFrame(lines: seq<string>, id: Option<int>, output: string, error: string,
                    q: map<int, Handler>): Pass
    decreases |lines|
  {
    if lines == [] then Pass(q, [])
    else if StartsWith(lines[0], "%end") then
      var c := Complete(q, id, output, error);
      var p := RunIdle(lines[1..], c.queue);
      Pass(p.queue, c.resolved + p.resolved)
    else if StartsWith(lines[0], "%error") then RunFrame(lines[1..], id, output, SliceFrom(lines[0], 7), q)
    else RunFrame(lines[1..], id, output + lines[0] + "\n", error, q)
  }

  predicate NoLineStartsWith(lines: seq<string>, marker: string)
  {
    forall i :: 0 <= i < |lines| ==> !StartsWith(lines[i], marker)
  }

  /** A frame's output: each line that is not an `%error` line, with a newline after it. */
  function BodyOutput(body: seq<string>): string
  {
    if body == [] then ""
    else (if StartsWith(body[0], "%error") then "" else body[0] + "\n") + BodyOutput(body[1..])
  }

  /** A frame's error: the remainder of its last `%error` line, `err` if it has none. */
  function LastError(body: seq<string>, err: string): string
  {
    if body == [] then err
    else LastError(body[1..], if StartsWith(body[0], "%error") then SliceFrom(body[0], 7) else err)
  }

  /** Lines before the closing `%end` only add to the output and the error. */
  lemma {:induction false} FrameBody(body: seq<string>, rest: seq<string>, id: Option<int>,
                                     output: string, error: string, q: map<int, Handler>)
    requires NoLineStartsWith(body, "%end")
    ensures RunFrame(body + rest, id, output, error, q)
         == RunFrame(rest, id, output + BodyOutput(body), LastError(body, error), q)
  {
    if body != [] {
      assert (body + rest)[0] == body[0];
      assert (body + rest)[1..] == body[1..] + rest;
      assert !StartsWith(body[0], "%end");
      if StartsWith(body[0], "%error") {
        FrameBody(body[1..], rest, id, output, SliceFrom(body[0], 7), q);
        assert BodyOutput(body) == BodyOutput(body[1..]);
      } else {
        FrameBody(body[1..], rest, id, output + body[0] + "\n", error, q);
        assert output + body[0] + "\n" + BodyOutput(body[1..]) == output + BodyOutput(body);
      }
    } else {
      assert body + rest == rest;
      assert output + "" == output;
    }
  }

  /** Lines outside a frame that do not open one are discarded. */
  lemma {:induction false} NoisePrefix(noise: seq<string>, rest: seq<string>, q: map<int, Handler>)
    requires NoLineStartsWith(noise, "%begin")
    ensures RunIdle(noise + rest, q) == RunIdle(rest, q)
  {
    if noise == [] {
      assert noise + rest == rest;
    } else {
      assert (noise + rest)[0] == noise[0];
      assert (noise + rest)[1..] == noise[1..] + rest;
      NoisePrefix(noise[1..], rest, q);
    }
  }

  /** A frame whose `%end` is not among the lines resolves nothing and changes no entry. */
  lemma FrameLost(begin: string, body: seq<string>, q: map<int, Handler>)
    requires StartsWith(begin, "%begin")
    requires NoLineStartsWith(body, "%end")
    ensures RunIdle([begin] + body, q) == Pass(q, [])
  {
    assert ([begin] + body)[1..] == body + [];
    FrameBody(body, [], Token(begin), "", "", q);
  }

  /** A `%begin` line read outside a frame opens one with its token. */
  lemma BeginLine(begin: string, tail: seq<string>, q: map<int, Handler>)
    requires StartsWith(begin, "%begin")
    ensures RunIdle([begin] + tail, q) == RunFrame(tail, Token(begin), "", "", q)
  {
    ConsParts(begin, tail);
  }

  /** An `%end` line read inside a frame completes it; reading goes on outside any frame. */
  lemma EndLine(end: string, rest: seq<string>, id: Option<int>, output: string, error: string,
                q: map<int, Handler>)
    requires StartsWith(end, "%end")
    ensures var c := Complete(q, id, output, error);
      var p := RunIdle(rest, c.queue);
      RunFrame([end] + rest, id, output, error, q) == Pass(p.queue, c.resolved + p.resolved)
  {
    ConsParts(end, rest);
  }

  lemma FrameLines(begin: string, body: seq<string>, end: string, rest: seq<string>)
    ensures [begin] + body + [end] + rest == [begin] + (body + ([end] + rest))
  {
  }

  /**
    A complete frame whose token names a pending entry resolves that entry
    once, with the frame's output trimmed and its last error, removes it, and
    the lines after `%end` are read against the queue without it.
   */
  lemma FrameResolved(begin: string, body: seq<string>, end: string, rest: seq<string>,
                      q: map<int, Handler>, k: int)
    requires StartsWith(begin, "%begin") && StartsWith(end, "%end")
    requires NoLineStartsWith(body, "%end")
    requires Token(begin) == Some(k) && k in q
    ensures var err := LastError(body, "");
      var p := RunIdle(rest, q - {k});
      RunIdle([begin] + body + [end] + rest, q)
      == Pass(p.queue, [Resolution(k, q[k], Response(err == "", Trim(BodyOutput(body)),
                                                      if err == "" then None else Some(err)))]
                       + p.resolved)
  {
    FrameLines(begin, body, end, rest);
    BeginLine(begin, body + ([end] + rest), q);
    FrameBody(body, [end] + rest, Some(k), "", "", q);
    assert "" + BodyOutput(body) == BodyOutput(body);
    EndLine(end, rest, Some(k), BodyOutput(body), LastError(body, ""), q);
  }

  /** A complete frame whose token is NaN or names no pending entry resolves nothing. */
  lemma FrameUnmatched(begin: string, body: seq<string>, end: string, rest: seq<string>,
                       q: map<int, Handler>)
    requires StartsWith(begin, "%begin") && StartsWith(end, "%end")
    requires NoLineStartsWith(body, "%end")
    requires Token(begin).None? || Token(begin).value !in q
    ensures RunIdle([begin] + body + [end] + rest, q) == RunIdle(rest, q)
  {
    FrameLines(begin, body, end, rest);
    BeginLine(begin, body + ([end] + rest), q);
    FrameBody(body, [end] + rest, Token(begin), "", "", q);
    EndLine(end, rest, Token(begin), "" + BodyOutput(body), LastError(body, ""), q);
    assert [] + RunIdle(rest, q).resolved == RunIdle(rest, q).resolved;
  }

  /** Of several `%error` lines in a frame, the last one decides the error. */
  lemma {:induction false} LastErrorWins(pre: seq<string>, line: string, post: seq<string>, err: string)
    requires StartsWith(line, "%error")
    requires NoLineStartsWith(post, "%error")
    ensures LastError(pre + [line] + post, err) == SliceFrom(line, 7)
  {
    if pre == [] {
      assert ([line] + post)[1..] == post;
      NoErrorLine(post, SliceFrom(line, 7));
    } else {
      assert (pre + [line] + post)[1..] == pre[1..] + [line] + post;
      LastErrorWins(pre[1..], line, post,
                    if StartsWith(pre[0], "%error") then SliceFrom(pre[0], 7) else err);
    }
  }

  /** Without `%error` lines the error stays as it was and every line is output. */
  lemma {:induction false} NoErrorLine(body: seq<string>, err: string)
    requires NoLineStartsWith(body, "%error")
    ensures LastError(body, err) == err
    ensures BodyOutput(body) == Terminated(body)
  {
    if body != [] {
      NoErrorLine(body[1..], err);
    }
  }

  /** The keys a sequence of resolutions resolved. */
  function ResolvedKeys(rs: seq<Resolution>): set<int>
  {
    set i | 0 <= i < |rs| :: rs[i].key
  }

  /**
    A run starting from queue `q` ended with `p`: entries are only deleted,
    the deleted ones are exactly the resolved ones, each resolved once and
    with the handler stored under its key.
   */
  ghost predicate Accounts(q: map<int, Handler>, p: Pass)
  {
    && (forall k :: k in p.queue ==> k in q && p.queue[k] == q[k])
    && (forall i :: 0 <= i < |p.resolved| ==>
          p.resolved[i].key in q && p.resolved[i].key !in p.queue
          && p.resolved[i].handler == q[p.resolved[i].key])
    && (forall i, j :: 0 <= i < j < |p.resolved| ==> p.resolved[i].key != p.resolved[j].key)
    && (forall k :: k in q && k !in p.queue ==> k in ResolvedKeys(p.resolved))
  }

  lemma AccountsCompose(q: map<int, Handler>, c: Pass, p: Pass)
    requires Accounts(q, c) && Accounts(c.queue, p)
    ensures Accounts(q, Pass(p.queue, c.resolved + p.resolved))
  {
    var rs := c.resolved + p.resolved;
    var n := |c.resolved|;
    assert forall i :: n <= i < |rs| ==> rs[i] == p.resolved[i - n];
    assert forall i :: 0 <= i < n ==> rs[i] == c.resolved[i];
    forall i | 0 <= i < |rs|
      ensures rs[i].key in q && rs[i].key !in p.queue && rs[i].handler == q[rs[i].key]
    {
      if i >= n {
        assert rs[i] == p.resolved[i - n];
      } else {
        assert rs[i] == c.resolved[i];
      }
    }
    forall i, j | 0 <= i < j < |rs| ensures rs[i].key != rs[j].key {
      if i < n && j >= n {
        assert rs[j] == p.resolved[j - n];
        assert rs[j].key in c.queue;
      } else if i >= n {
        assert rs[i] == p.resolved[i - n];
        assert rs[j] == p.resolved[j - n];
      }
    }
    forall k | k in q && k !in p.queue ensures k in ResolvedKeys(rs) {
      if k in c.queue {
        assert k in ResolvedKeys(p.resolved);
        var i :| 0 <= i < |p.resolved| && p.resolved[i].key == k;
        assert rs[i + n] == p.resolved[i];
      } else {
        assert k in ResolvedKeys(c.resolved);
        var i :| 0 <= i < n && c.resolved[i].key == k;
        assert rs[i] == c.resolved[i];
      }
    }
  }

  /** An `%end` line accounts for the entry it resolves, if any. */
  lemma CompleteAccounts(q: map<int, Handler>, id: Option<int>, output: string, error: string)
    ensures Accounts(q, Complete(q, id, output, error))
  {
    if id.Some? && id.value in q {
      var k := id.value;
      var rs := [Resolution(k, q[k], MakeResponse(output, error))];
      assert Complete(q, id, output, error) == Pass(q - {k}, rs);
      assert ResolvedKeys(rs) == {k} by {
        assert rs[0].key == k;
      }
      assert forall kk :: kk in q && kk !in q - {k} ==> kk == k;
    }
  }

  /** Every run outside a frame accounts for each entry exactly once. */
  lemma {:induction false} RunIdleAccounts(lines: seq<string>, q: map<int, Handler>)
    ensures Accounts(q, RunIdle(lines, q))
    decreases |lines|, 1
  {
    if lines == [] {
    } else if StartsWith(lines[0], "%begin") {
      RunFrameAccounts(lines[1..], Token(lines[0]), "", "", q);
    } else {
      RunIdleAccounts(lines[1..], q);
    }
  }

  /** Every run inside a frame accounts for each entry exactly once. */
  lemma {:induction false} RunFrameAccounts(lines: seq<string>, id: Option<int>, output: string,
                                            error: string, q: map<int, Handler>)
    ensures Accounts(q, RunFrame(lines, id, output, error, q))
    decreases |lines|, 0
  {
    if lines == [] {
    } else if StartsWith(lines[0], "%end") {
      var c := Complete(q, id, output, error);
      var p := RunIdle(lines[1..], c.queue);
      CompleteAccounts(q, id, output, error);
      RunIdleAccounts(lines[1..], c.queue);
      AccountsCompose(q, c, p);
      assert RunFrame(lines, id, output, error, q) == Pass(p.queue, c.resolved + p.resolved);
    } else if StartsWith(lines[0], "%error") {
      RunFrameAccounts(lines[1..], id, output, SliceFrom(lines[0], 7), q);
    } else {
      RunFrameAccounts(lines[1..], id, output + lines[0] + "\n", error, q);
    }
  }

  /** Where reading a buffer stops: the queue, the resolutions made, and the unread rest. */
  datatype Scan = Scan(queue: map<int, Handler>, resolved: seq<Resolution>, rest: string)

  /**
    The outer loop read directly off the buffer, one `indexOf('\n')` at a
    time, as the code does it.
   */
  function ScanIdle(buf: string, q: map<int, Handler>): Scan
    decreases |buf|
  {
    match IndexOf(buf, '\n')
    case None => Scan(q, [], buf)
    case Some(i) =>
      var line := buf[..i];
      if StartsWith(line, "%begin") then ScanFrame(buf[i + 1..], Token(line), "", "", q)
      else ScanIdle(buf[i + 1..], q)
  }

  /** The inner loop read directly off the buffer. */
  function ScanFrame(buf: string, id: Option<int>, output: string, error: string,
                     q: map<int, Handler>): Scan
    decreases |buf|
  {
    match IndexOf(buf, '\n')
    case None => Scan(q, [], buf)
    case Some(i) =>
      var line := buf[..i];
      if StartsWith(line, "%end") then
        var c := Complete(q, id, output, error);
        var p := ScanIdle(buf[i + 1..], c.queue);
        Scan(p.queue, c.resolved + p.resolved, p.rest)
      else if StartsWith(line, "%error") then ScanFrame(buf[i + 1..], id, output, SliceFrom(line, 7), q)
      else ScanFrame(buf[i + 1..], id, output + line + "\n", error, q)
  }

  /**
    Where the inner loop stops: just after the first `%end` line, with the
    frame completed there, or, when no `%end` comes, at the unterminated
    tail with nothing resolved.
   */
  function FrameStop(buf: string, id: Option<int>, output: string, error: string,
                     q: map<int, Handler>): Scan
    decreases |buf|
  {
    match IndexOf(buf, '\n')
    case None => Scan(q, [], buf)
    case Some(i) =>
      var line := buf[..i];
      if StartsWith(line, "%end") then
        var c := Complete(q, id, output, error);
        Scan(c.queue, c.resolved, buf[i + 1..])
      else if StartsWith(line, "%error") then FrameStop(buf[i + 1..], id, output, SliceFrom(line, 7), q)
      else FrameStop(buf[i + 1..], id, output + line + "\n", error, q)
  }

  /** Reading a frame off the buffer is stopping after it and reading on from outside any frame. */
  lemma {:induction false} FrameStopThenIdle(buf: string, id: Option<int>, output: string, error: string,
                                             q: map<int, Handler>)
    ensures var f := FrameStop(buf, id, output, error, q);
      var g := ScanIdle(f.rest, f.queue);
      ScanFrame(buf, id, output, error, q) == Scan(g.queue, f.resolved + g.resolved, g.rest)
    decreases |buf|
  {
    match IndexOf(buf, '\n')
    case None =>
      var none: seq<Resolution> := [];
      assert none + none == none;
    case Some(i) =>
      var line, t := buf[..i], buf[i + 1..];
      if StartsWith(line, "%end") {
      } else if StartsWith(line, "%error") {
        FrameStopThenIdle(t, id, output, SliceFrom(line, 7), q);
      } else {
        FrameStopThenIdle(t, id, output + line + "\n", error, q);
      }
  }

  /** With no `%end` among its complete lines, the loop reads the whole buffer and resolves nothing. */
  lemma {:induction false} FrameStopNoEnd(buf: string, id: Option<int>, output: string, error: string,
                                          q: map<int, Handler>)
    requires NoLineStartsWith(Lines(buf), "%end")
    ensures FrameStop(buf, id, output, error, q) == Scan(q, [], Tail(buf))
    decreases |buf|
  {
    match IndexOf(buf, '\n')
    case None =>
      NoNextLine(buf);
    case Some(i) =>
      var line, t := buf[..i], buf[i + 1..];
      NextLine(buf);
      assert Lines(buf)[0] == line;
      assert forall k :: 0 <= k < |Lines(t)| ==> Lines(t)[k] == Lines(buf)[k + 1];
      if StartsWith(line, "%error") {
        FrameStopNoEnd(t, id, output, SliceFrom(line, 7), q);
      } else {
        FrameStopNoEnd(t, id, output + line + "\n", error, q);
      }
  }

  /** One line and its newline at the front of the buffer, read inside a frame. */
  lemma FrameStopCons(line: string, t: string, id: Option<int>, output: string, error: string,
                      q: map<int, Handler>)
    requires '\n' !in line
    ensures FrameStop(line + "\n" + t, id, output, error, q)
         == if StartsWith(line, "%end") then
              var c := Complete(q, id, output, error);
              Scan(c.queue, c.resolved, t)
            else if StartsWith(line, "%error") then FrameStop(t, id, output, SliceFrom(line, 7), q)
            else FrameStop(t, id, output + line + "\n", error, q)
  {
    var s := line + "\n" + t;
    var n := |line|;
    assert s[..n] == line;
    assert s[n + 1..] == t;
    assert IndexOf(s, '\n') == Some(n) by {
      assert s[n] == '\n';
      assert '\n' !in s[..n];
    }
  }

  /** A body line other than `%end`, read inside a frame, adds what the one-line body would. */
  lemma FrameStopBodyLine(line: string, t: string, id: Option<int>, output: string, error: string,
                          q: map<int, Handler>)
    requires '\n' !in line && !StartsWith(line, "%end")
    ensures FrameStop(line + "\n" + t, id, output, error, q)
         == FrameStop(t, id, output + BodyOutput([line]), LastError([line], error), q)
  {
    FrameStopCons(line, t, id, output, error, q);
    var one: seq<string> := [line];
    assert one[1..] == [];
    if StartsWith(line, "%error") {
      assert output + BodyOutput(one) == output;
    } else {
      assert output + BodyOutput(one) == output + line + "\n";
    }
  }

  /** Output and error of a body are those of its first line, then of the rest. */
  lemma BodySplit(body: seq<string>, output: string, error: string)
    requires body != []
    ensures (output + BodyOutput([body[0]])) + BodyOutput(body[1..]) == output + BodyOutput(body)
    ensures LastError(body[1..], LastError([body[0]], error)) == LastError(body, error)
  {
    var one: seq<string> := [body[0]];
    assert one[1..] == [];
    assert BodyOutput(body) == BodyOutput(one) + BodyOutput(body[1..]);
  }

  /** The first terminated body line at the front of the buffer, read inside a frame. */
  lemma FrameStopFirst(body: seq<string>, t: string, id: Option<int>, output: string, error: string,
                       q: map<int, Handler>)
    requires body != [] && '\n' !in body[0] && !StartsWith(body[0], "%end")
    ensures FrameStop(Terminated(body) + t, id, output, error, q)
         == FrameStop(Terminated(body[1..]) + t, id, output + BodyOutput([body[0]]),
                      LastError([body[0]], error), q)
  {
    TerminatedFirst(body, t);
    FrameStopBodyLine(body[0], Terminated(body[1..]) + t, id, output, error, q);
  }

  /** Terminated body lines at the front of the buffer only add to the output and the error. */
  lemma {:induction false} FrameStopBody(body: seq<string>, t: string, id: Option<int>,
                                         output: string, error: string, q: map<int, Handler>)
    requires forall k :: 0 <= k < |body| ==> '\n' !in body[k]
    requires NoLineStartsWith(body, "%end")
    ensures FrameStop(Terminated(body) + t, id, output, error, q)
         == FrameStop(t, id, output + BodyOutput(body), LastError(body, error), q)
    decreases |body|
  {
    if body == [] {
      assert Terminated(body) + t == t;
      assert output + BodyOutput(body) == output;
    } else {
      var more := body[1..];
      var output', error' := output + BodyOutput([body[0]]), LastError([body[0]], error);
      FrameStopFirst(body, t, id, output, error, q);
      FrameStopBody(more, t, id, output', error', q);
      BodySplit(body, output, error);
    }
  }

  lemma TerminatedThenEnd(body: seq<string>, end: string, rest: string)
    ensures Terminated(body + [end]) + rest == Terminated(body) + (end + "\n" + rest)
    decreases |body|
  {
    var ls := body + [end];
    if body != [] {
      assert ls[0] == body[0] && ls[1..] == body[1..] + [end];
      TerminatedThenEnd(body[1..], end, rest);
      TerminatedFirst(ls, rest);
      TerminatedFirst(body, end + "\n" + rest);
    } else {
      assert ls == [end] && ls[1..] == [];
      TerminatedFirst(ls, rest);
    }
  }

  /**
    A frame's body lines and its `%end` line at the front of the buffer:
    the loop completes the frame with the body's output and error and
    stops exactly after the `%end` line.
   */
  lemma FrameStopAtEnd(body: seq<string>, end: string, rest: string, id: Option<int>,
                       output: string, error: string, q: map<int, Handler>)
    requires forall k :: 0 <= k < |body| ==> '\n' !in body[k]
    requires '\n' !in end && StartsWith(end, "%end")
    requires NoLineStartsWith(body, "%end")
    ensures var c := Complete(q, id, output + BodyOutput(body), LastError(body, error));
      FrameStop(Terminated(body + [end]) + rest, id, output, error, q) == Scan(c.queue, c.resolved, rest)
  {
    TerminatedThenEnd(body, end, rest);
    FrameStopBody(body, end + "\n" + rest, id, output, error, q);
    FrameStopCons(end, rest, id, output + BodyOutput(body), LastError(body, error), q);
  }

  /**
    Reading the buffer in place is reading its complete lines: the queue
    and resolutions are those `RunIdle` gives for them, and what is left
    unread is the tail after the last newline.
   */
  lemma {:induction false} ScanIdleLines(s: string, q: map<int, Handler>)
    ensures ScanIdle(s, q) == Scan(RunIdle(Lines(s), q).queue, RunIdle(Lines(s), q).resolved, Tail(s))
    decreases |s|, 1
  {
    match IndexOf(s, '\n')
    case None =>
      NoNextLine(s);
    case Some(i) =>
      var line, t := s[..i], s[i + 1..];
      NextLine(s);
      RunIdleCons(line, Lines(t), q);
      if StartsWith(line, "%begin") {
        ScanFrameLines(t, Token(line), "", "", q);
        assert ScanIdle(s, q) == ScanFrame(t, Token(line), "", "", q);
        assert RunIdle(Lines(s), q) == RunFrame(Lines(t), Token(line), "", "", q);
      } else {
        ScanIdleLines(t, q);
        assert ScanIdle(s, q) == ScanIdle(t, q);
        assert RunIdle(Lines(s), q) == RunIdle(Lines(t), q);
      }
  }

  /** The same for the inner loop and `RunFrame`. */
  lemma {:induction false} ScanFrameLines(s: string, id: Option<int>, output: string, error: string,
                                          q: map<int, Handler>)
    ensures ScanFrame(s, id, output, error, q)
         == Scan(RunFrame(Lines(s), id, output, error, q).queue,
                 RunFrame(Lines(s), id, output, error, q).resolved, Tail(s))
    decreases |s|, 0
  {
    match IndexOf(s, '\n')
    case None =>
      NoNextLine(s);
    case Some(i) =>
      var line, t := s[..i], s[i + 1..];
      NextLine(s);
      RunFrameCons(line, Lines(t), id, output, error, q);
      if StartsWith(line, "%end") {
        var c := Complete(q, id, output, error);
        ScanIdleLines(t, c.queue);
        assert ScanFrame(s, id, output, error, q).rest == ScanIdle(t, c.queue).rest;
      } else if StartsWith(line, "%error") {
        ScanFrameLines(t, id, output, SliceFrom(line, 7), q);
        assert ScanFrame(s, id, output, error, q) == ScanFrame(t, id, output, SliceFrom(line, 7), q);
      } else {
        ScanFrameLines(t, id, output + line + "\n", error, q);
        assert ScanFrame(s, id, output, error, q) == ScanFrame(t, id, output + line + "\n", error, q);
      }
  }

  /** Cutting the first line off `s`, as one iteration of either loop does. */
  lemma NextLine(s: string)
    requires '\n' in s
    ensures var i := IndexOf(s, '\n').value;
      && Lines(s) == [s[..i]] + Lines(s[i + 1..])
      && Tail(s) == Tail(s[i + 1..])
  {
  }

  /** With no newline left there are no lines, and the tail is the whole text. */
  lemma NoNextLine(s: string)
    requires '\n' !in s
    ensures Lines(s) == [] && Tail(s) == s
  {
  }

  /** One line read outside a frame. */
  lemma RunIdleCons(line: string, rest: seq<string>, q: map<int, Handler>)
    ensures RunIdle([line] + rest, q)
         == if StartsWith(line, "%begin") then RunFrame(rest, Token(line), "", "", q)
            else RunIdle(rest, q)
  {
    ConsParts(line, rest);
  }

  /** One line read inside a frame. */
  lemma RunFrameCons(line: string, rest: seq<string>, id: Option<int>, output: string, error: string,
                     q: map<int, Handler>)
    ensures RunFrame([line] + rest, id, output, error, q)
         == if StartsWith(line, "%end") then
              var c := Complete(q, id, output, error);
              var p := RunIdle(rest, c.queue);
              Pass(p.queue, c.resolved + p.resolved)
            else if StartsWith(line, "%error") then RunFrame(rest, id, output, SliceFrom(line, 7), q)
            else RunFrame(rest, id, output + line + "\n", error, q)
  {
    ConsParts(line, rest);
  }
}
