/**
 * isTurn (src/handlers/methods/isTurn.ts): an authenticated, read-only query
 * whether it is the named player's turn.
 */
module IsTurnHandler {
  import opened Wrappers
  import opened GameRecord
  import opened GameStore
  import opened Rpc

  datatype IsTurnRequest = IsTurnRequest(id: RequestId, gameId: string, playerId: string, token: string)

  /** The guard chain and the answer for one loaded game: not found, then token, then the turn flag. */
  function IsTurnOn(g: Game, req: IsTurnRequest): (r: Response)
    ensures r.id == req.id
  {
    match FindPlayer(g.players, req.playerId)
    case None => ErrorResponse(req.id, PlayerNotFound(req.playerId, req.gameId))
    case Some(k) =>
      if g.players[k].token != req.token then ErrorResponse(req.id, TokenMismatch(req.playerId, req.gameId))
      else ResultResponse(req.id, TurnStatus(g.players[k].state == ThisPlayersTurn))
  }

  /** The handler: load the game (a store error is re-thrown), then answer. It only reads the table. */
  function IsTurn(table: GameTable, req: IsTurnRequest): (out: Outcome)
    reads table
    ensures out.Threw? <==> table.GetGame(req.gameId).Failure?
    ensures out.Threw? ==> out.failure == table.GetGame(req.gameId).error
    ensures out.Responded? ==> out.response == IsTurnOn(table.GetGame(req.gameId).value, req)
  {
    match table.GetGame(req.gameId)
    case Failure(e) => Threw(e)
    case Success(g) => Responded(IsTurnOn(g, req))
  }

  /** No player carries the requested id: the not-found error, whatever the token. */
  lemma IsTurnUnknownPlayer(g: Game, req: IsTurnRequest)
    requires forall j :: 0 <= j < |g.players| ==> g.players[j].id != req.playerId
    ensures IsTurnOn(g, req) == ErrorResponse(req.id, PlayerNotFound(req.playerId, req.gameId))
  {
  }

  /** Authentication: a token other than the first matching player's is rejected, whatever that player's state. */
  lemma IsTurnWrongToken(g: Game, req: IsTurnRequest, k: nat)
    requires IsFirstMatch(g.players, req.playerId, k)
    requires g.players[k].token != req.token
    ensures IsTurnOn(g, req) == ErrorResponse(req.id, TokenMismatch(req.playerId, req.gameId))
  {
    FindPlayerFirst(g.players, req.playerId, k);
  }

  /** With the right token the answer is true exactly when that player's state is THIS_PLAYERS_TURN. */
  lemma IsTurnAnswer(g: Game, req: IsTurnRequest, k: nat)
    requires IsFirstMatch(g.players, req.playerId, k)
    requires g.players[k].token == req.token
    ensures IsTurnOn(g, req).ResultResponse?
    ensures IsTurnOn(g, req).result.TurnStatus?
    ensures IsTurnOn(g, req).result.isTurn <==> g.players[k].state == ThisPlayersTurn
  {
    FindPlayerFirst(g.players, req.playerId, k);
  }

  /** A result (never an error) comes back exactly when the named player exists and the token matches. */
  lemma IsTurnAnswersIffAuthenticated(g: Game, req: IsTurnRequest)
    ensures IsTurnOn(g, req).ResultResponse?
            <==> exists k: nat :: IsFirstMatch(g.players, req.playerId, k) && g.players[k].token == req.token
  {
    var f := FindPlayer(g.players, req.playerId);
    if f.Some? {
      assert IsFirstMatch(g.players, req.playerId, f.value);
      forall k: nat | IsFirstMatch(g.players, req.playerId, k) ensures k == f.value {
        FindPlayerFirst(g.players, req.playerId, k);
      }
    }
  }
}
