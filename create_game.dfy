/**
 * createGame (src/handlers/methods/createGame.ts): builds an empty game in
 * WAITING_FOR_PLAYERS under a fresh id, writes it, and answers with that id.
 * The id generator is not modelled: the fresh id is a parameter.
 */
module CreateGameHandler {
  import opened Wrappers
  import opened GameRecord
  import opened GameStore
  import opened Rpc

  datatype CreateGameRequest = CreateGameRequest(id: RequestId, name: string)

  method CreateGame(table: GameTable, req: CreateGameRequest, freshId: string) returns (resp: Response)
    requires table.Valid()
    modifies table
    ensures table.Valid()
    ensures resp == ResultResponse(req.id, GameCreated(freshId))
    ensures table.Writes == old(table.Writes) + [Game(req.name, freshId, WaitingForPlayers, [])]
    ensures table.items == old(table.items)[freshId := EncodeGame(Game(req.name, freshId, WaitingForPlayers, []))]
    ensures table.GetGame(freshId) == Success(Game(req.name, freshId, WaitingForPlayers, []))
  {
    var game := Game(req.name, freshId, WaitingForPlayers, []);
    var written := table.UpdateGame(game);
    resp := ResultResponse(req.id, GameCreated(game.id));
  }
}
