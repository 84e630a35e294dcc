/**
  The control-mode client `TmuxManager` of src/tmux-manager.ts: its fields,
  its lifecycle (`connect`, the process's `exit` handler, `disconnect`), the
  write path `executeCommand` and the frame parser `handleTmuxOutput`.

  The child process is the flag `hasProcess` (a process with a writable
  stdin). Two fields record what the object does to the outside world:
  `resolutions` lists, in order, every call of a stored `resolve` closure,
  and `written` every string written to the process's stdin.
 */
module Manager {
  import opened JsString
  import opened Types
  import opened Framing

  /** Reading output only deletes entries, so every key left is still within the counter. */
  lemma PendingWithin(lines: seq<string>, q: map<int, Handler>, n: nat)
    requires forall k :: k in q ==> 1 <= k <= n
    ensures forall k :: k in RunIdle(lines, q).queue ==> 1 <= k <= n
  {
    RunIdleAccounts(lines, q);
  }

  /** Regrouping the resolutions recorded so far with those still to come. */
  lemma ConcatAssoc<T>(a: seq<T>, b: seq<T>, c: seq<T>)
    ensures a + (b + c) == (a + b) + c
  {
  }

  class TmuxManager {
    var buffer: string
    var queue: map<int, Handler>
    var counter: nat
    var connected: bool
    var hasProcess: bool
    var resolutions: seq<Resolution>
    var written: seq<string>

    /**
      What every operation keeps: the buffer holds only an unterminated
      line, every pending key was handed out by the counter since it was
      last reset, and a connected manager has a process.
     */
    ghost predicate Valid()
      reads this
    {
      && '\n' !in buffer
      && (forall k :: k in queue ==> 1 <= k <= counter)
      && (connected ==> hasProcess)
    }

    constructor ()
      ensures Valid()
      ensures buffer == "" && queue == map[] && counter == 0
      ensures !connected && !hasProcess
      ensures resolutions == [] && written == []
    {
      buffer := "";
      queue := map[];
      counter := 0;
      connected := false;
      hasProcess := false;
      resolutions := [];
      written := [];
    }

    /**
      `connect()`. `spawnOk` says whether `spawn` returned rather than threw.
      A connected manager is left alone; otherwise a new process is taken
      and the manager is connected. Buffer, queue and counter are not reset.
     */
    method Connect(spawnOk: bool) returns (r: Result<()>)
      requires Valid()
      modifies this`connected, this`hasProcess
      ensures Valid()
      ensures old(connected) ==> r == Ok(()) && connected && hasProcess == old(hasProcess)
      ensures !old(connected) && spawnOk ==> r == Ok(()) && connected && hasProcess
      ensures !old(connected) && !spawnOk ==> r == Err(SpawnFailed) && !connected && hasProcess == old(hasProcess)
    {
      if connected {
        return Ok(());
      }
      if !spawnOk {
        return Err(SpawnFailed);
      }
      hasProcess := true;
      connected := true;
      r := Ok(());
    }

    /** The process's `exit` handler: only the connected flag is cleared. */
    method OnExit()
      requires Valid()
      modifies this`connected
      ensures Valid() && !connected
    {
      connected := false;
    }

    /**
      `handleTmuxOutput(data)`: afterwards the buffer is what follows the
      last newline of the old buffer and the data, and the queue and the
      resolutions are those of reading the complete lines from outside any
      frame.
     */
    method HandleTmuxOutput(data: string)
      requires Valid()
      modifies this`buffer, this`queue, this`resolutions
      ensures Valid()
      ensures buffer == Tail(old(buffer) + data)
      ensures var p := RunIdle(Lines(old(buffer) + data), old(queue));
        queue == p.queue && resolutions == old(resolutions) + p.resolved
    {
      buffer := buffer + data;
      ghost var goal := ScanIdle(buffer, queue);
      ghost var before := resolutions;
      ScanIdleLines(buffer, queue);

      while '\n' in buffer
        invariant ScanIdle(buffer, queue).queue == goal.queue
        invariant ScanIdle(buffer, queue).rest == goal.rest
        invariant before + goal.resolved == resolutions + ScanIdle(buffer, queue).resolved
        decreases |buffer|
      {
        var newlineIndex := IndexOf(buffer, '\n').value;
        var line := buffer[..newlineIndex];
        buffer := buffer[newlineIndex + 1..];

        if StartsWith(line, "%begin") {
          ghost var rest, pending, done := buffer, queue, resolutions;
          ReadFrame(Token(line));
          FrameStopThenIdle(rest, Token(line), "", "", pending);
          ghost var f := FrameStop(rest, Token(line), "", "", pending);
          ConcatAssoc(done, f.resolved, ScanIdle(buffer, queue).resolved);
        }
      }
      assert resolutions + [] == resolutions;
      PendingWithin(Lines(old(buffer) + data), old(queue), counter);
    }

    /**
      The inner loop of `handleTmuxOutput`, entered after a `%begin` line
      carrying `id`: lines are consumed up to and including the first
      `%end`, where the frame is resolved, or all complete lines when no
      `%end` comes. The new state is where `FrameStop` says the loop stops.
     */
    method ReadFrame(id: Option<int>)
      modifies this`buffer, this`queue, this`resolutions
      ensures |buffer| <= |old(buffer)|
      ensures var f := FrameStop(old(buffer), id, "", "", old(queue));
        buffer == f.rest && queue == f.queue && resolutions == old(resolutions) + f.resolved
    {
      var output := "";
      var error := "";
      ghost var stop := FrameStop(buffer, id, output, error, queue);

      while '\n' in buffer
        invariant FrameStop(buffer, id, output, error, queue) == stop
        invariant resolutions == old(resolutions) && queue == old(queue)
        invariant |buffer| <= |old(buffer)|
        decreases |buffer|
      {
        var nextNewline := IndexOf(buffer, '\n').value;
        var nextLine := buffer[..nextNewline];
        buffer := buffer[nextNewline + 1..];

        if StartsWith(nextLine, "%end") {
          Resolve(id, output, error);
          return;
        } else if StartsWith(nextLine, "%error") {
          error := SliceFrom(nextLine, 7);
        } else {
          output := output + nextLine + "\n";
        }
      }
      assert resolutions == old(resolutions) + [];
    }

    /**
      The `%end` branch of the inner loop: the entry under `id`, if there
      is one, is resolved with the frame's response and deleted.
     */
    method Resolve(id: Option<int>, output: string, error: string)
      modifies this`queue, this`resolutions
      ensures var c := Complete(old(queue), id, output, error);
        queue == c.queue && resolutions == old(resolutions) + c.resolved
    {
      var handler := if id.Some? && id.value in queue then Some(queue[id.value]) else None;
      if handler.Some? {
        resolutions := resolutions + [Resolution(id.value, handler.value, MakeResponse(output, error))];
        queue := queue - {id.value};
      }
    }

    /**
      `executeCommand(command)`. Not connected: fails with nothing written
      and nothing registered. Otherwise the counter is incremented, the
      handler is stored under the new count (a key not yet in the queue),
      and the command and a newline are written. The key is returned: the
      response arrives later as a resolution under it.
     */
    method ExecuteCommand(command: string) returns (r: Result<int>)
      requires Valid()
      modifies this`counter, this`queue, this`written
      ensures Valid()
      ensures !old(connected) || !old(hasProcess) ==>
        && r == Err(NotConnected)
        && counter == old(counter) && queue == old(queue) && written == old(written)
      ensures old(connected) && old(hasProcess) ==>
        && r == Ok(old(counter) + 1)
        && counter == old(counter) + 1
        && counter !in old(queue)
        && queue == old(queue)[counter := Handler(command)]
        && written == old(written) + [command + "\n"]
    {
      if !connected || !hasProcess {
        return Err(NotConnected);
      }
      counter := counter + 1;
      var id := counter;
      queue := queue[id := Handler(command)];
      written := written + [command + "\n"];
      r := Ok(id);
    }

    /**
      `disconnect()`. With a process: it is dropped and the manager reset —
      not connected, no pending entries, empty buffer, counter zero — and
      the pending entries are discarded without being resolved. Without a
      process nothing changes, so a second call does nothing.
     */
    method Disconnect()
      requires Valid()
      modifies this`hasProcess, this`connected, this`queue, this`buffer, this`counter
      ensures Valid()
      ensures old(hasProcess) ==>
        && !hasProcess && !connected && queue == map[] && buffer == "" && counter == 0
      ensures !old(hasProcess) ==>
        && !hasProcess && connected == old(connected) && queue == old(queue)
        && buffer == old(buffer) && counter == old(counter)
    {
      if hasProcess {
        hasProcess := false;
        connected := false;
        queue := map[];
        buffer := "";
        counter := 0;
      }
    }
  }
}
