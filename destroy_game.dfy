/**
 * destroyGame (src/handlers/methods/destroyGame.ts): reserved and not
 * implemented; it answers every request with the same error.
 */
module DestroyGameHandler {
  import opened GameStore
  import opened Rpc

  datatype DestroyGameRequest = DestroyGameRequest(id: RequestId, gameId: string)

  /** The table is a parameter the function may not read: it has no reads clause. */
  function DestroyGame(table: GameTable, req: DestroyGameRequest): (r: Response)
    ensures r.ErrorResponse? && r.id == req.id
    ensures r.error.code == -32601 && r.error.message == "not implemented"
  {
    ErrorResponse(req.id, NotImplemented)
  }
}
