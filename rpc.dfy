/**
 * The response envelope every handler returns, and the business-rule errors
 * the handlers report inside it.
 */
module Rpc {
  import opened GameRecord
  import opened GameStore

  /** The request id, echoed in the response (a number in the request schema). */
  type RequestId = int

  datatype RpcError = RpcError(code: int, message: string)

  /** Code of a business-rule violation found while handling a request. */
  const BusinessRuleCode: int := -1
  /** Code of an operation that is not available (JSON-RPC's "method not found"). */
  const NotImplementedCode: int := -32601

  function PlayerNotFound(playerId: string, gameId: string): RpcError
  {
    RpcError(BusinessRuleCode, "Player with ID " + playerId + " not found in game " + gameId)
  }

  function TokenMismatch(playerId: string, gameId: string): RpcError
  {
    RpcError(BusinessRuleCode, "Token mismatch for player " + playerId + " in game " + gameId)
  }

  function AlreadySelected(playerId: string): RpcError
  {
    RpcError(BusinessRuleCode, "Player " + playerId + " has already selected a character")
  }

  function NotInGameLoop(gameId: string): RpcError
  {
    RpcError(BusinessRuleCode, "Game " + gameId + " is not in game loop state")
  }

  function NotPlayersTurn(playerId: string, gameId: string): RpcError
  {
    RpcError(BusinessRuleCode, "It's not player " + playerId + "'s turn in game " + gameId)
  }

  const NotImplemented: RpcError := RpcError(NotImplementedCode, "not implemented")

  /** The `result` object of a successful response; EmptyResult is `{}`. */
  datatype Payload =
    | EmptyResult
    | GameCreated(gameId: string)
    | TurnStatus(isTurn: bool)

  /** `{id, result}` or `{id, error}`: never both. */
  datatype Response =
    | ResultResponse(id: RequestId, result: Payload)
    | ErrorResponse(id: RequestId, error: RpcError)

  /** What a handler does: answer, or throw the store's error to the router. */
  datatype Outcome =
    | Responded(response: Response)
    | Threw(failure: StoreError)

  /**
   * What the guard chain of a handler decides about one loaded game: reject
   * with an error, or accept with a result and the record as the handler
   * leaves it.
   */
  datatype Decision =
    | Reject(error: RpcError)
    | Accept(result: Payload, game: Game)

  /** The response for a decision, echoing the request id. */
  function Respond(id: RequestId, d: Decision): (r: Response)
    ensures r.id == id
    ensures r.ErrorResponse? <==> d.Reject?
    ensures d.Reject? ==> r.error == d.error
    ensures d.Accept? ==> r.result == d.result
  {
    match d
    case Reject(e) => ErrorResponse(id, e)
    case Accept(p, _) => ResultResponse(id, p)
  }
}
