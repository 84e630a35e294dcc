/**
  The values exchanged by the control-mode client: the response a command
  resolves with (`TmuxCommandResponse` in src/types.ts), the pending entry a
  command leaves in the queue, the record of one resolution, and the errors
  the client reports.
 */
module Types {
  import opened JsString

  /** `{success, output, error?}`: `error` is `None` where the field is `undefined`. */
  datatype Response = Response(success: bool, output: string, error: Option<string>)

  /**
    The `{resolve, reject}` pair `executeCommand(command)` stores under its key.
    The closures themselves are identified here by the command they belong to.
   */
  datatype Handler = Handler(command: string)

  /** One call `handler.resolve(response)` for the entry stored under `key`. */
  datatype Resolution = Resolution(key: int, handler: Handler, response: Response)

  datatype Error =
    | NotConnected   // "Not connected to tmux"
    | SpawnFailed    // "Failed to connect to tmux: ..."
    | FlagsUndefined // TypeError: `flags.split('')` on a missing field

  datatype Result<+T> = Ok(value: T) | Err(error: Error)
}
