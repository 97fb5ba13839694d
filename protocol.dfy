/**
 * The frames exchanged over each browser tab's WebSocket, after JSON
 * decoding, and the close codes the server uses.
 */
module Protocol {

  /**
   * Browser to server. A missing `mode` or `sessionName` arrives as the empty
   * string and a missing `cols`/`rows` as 0, which is how the server's `||`
   * defaults see them.
   */
  datatype ClientFrame =
    | Create(mode: string, sessionName: string, cols: int, rows: int)
    | Input(data: string)
    | Resize(cols: int, rows: int)

  /** Server to browser. */
  datatype ServerFrame =
    | Ready
    | Output(data: string)
    | Exit(exitCode: int)
    | Error(message: string)

  /** `ws.close(1000, 'Idle timeout')`. */
  const CLOSE_NORMAL: int := 1000
  /** `ws.close()` without a code: the peer sees "no status received". */
  const CLOSE_NO_STATUS: int := 1005
  /** Spawn, attach or tmux failures. */
  const CLOSE_INTERNAL_ERROR: int := 1011
  /** The terminal limit was reached. */
  const CLOSE_TRY_AGAIN_LATER: int := 1013
}
