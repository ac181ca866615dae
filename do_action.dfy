/**
 * doAction (src/handlers/methods/doAction.ts): guards on the lifecycle state,
 * the player, the token and the turn, then handles the "win" action by ending
 * the game in the loaded record. Every other action is accepted and changes
 * nothing. The handler never writes the record back to the table.
 */
module DoActionHandler {
  import opened Wrappers
  import opened GameRecord
  import opened GameStore
  import opened Rpc

  datatype DoActionRequest = DoActionRequest(
    id: RequestId,
    gameId: string,
    playerId: string,
    token: string,
    action: string)

  /** The one action the handler acts on. */
  const WinAction: string := "win"

  /**
   * The record after a win by the player at position k: the game is over, that
   * player has WON, and every player whose id differs from the winner's is LOST.
   */
  function WinOutcome(g: Game, k: nat): Game
    requires k < |g.players|
  {
    var winnerId := g.players[k].id;
    g.(state := GameOver,
       players := seq(|g.players|, j requires 0 <= j < |g.players| =>
                    if j == k then g.players[j].(state := Won)
                    else if g.players[j].id != winnerId then g.players[j].(state := Lost)
                    else g.players[j]))
  }

  /** The guard chain and the transition for one loaded game. */
  function DoActionOn(g: Game, req: DoActionRequest): (d: Decision)
    ensures d.Accept? ==> d.result == EmptyResult
  {
    if g.state != GameLoop then Reject(NotInGameLoop(req.gameId))
    else
      match FindPlayer(g.players, req.playerId)
      case None => Reject(PlayerNotFound(req.playerId, req.gameId))
      case Some(k) =>
        if g.players[k].token != req.token then Reject(TokenMismatch(req.playerId, req.gameId))
        else if g.players[k].state != ThisPlayersTurn then Reject(NotPlayersTurn(req.playerId, req.gameId))
        else if req.action == WinAction then Accept(EmptyResult, WinOutcome(g, k))
        else Accept(EmptyResult, g)
  }

  /** First guard: outside GAME_LOOP every request is rejected, whoever sends it. */
  lemma ActionOutsideGameLoop(g: Game, req: DoActionRequest)
    requires g.state != GameLoop
    ensures DoActionOn(g, req) == Reject(NotInGameLoop(req.gameId))
  {
  }

  /** Second guard: in GAME_LOOP, no player carries the id. */
  lemma ActionUnknownPlayer(g: Game, req: DoActionRequest)
    requires g.state == GameLoop
    requires forall j :: 0 <= j < |g.players| ==> g.players[j].id != req.playerId
    ensures DoActionOn(g, req) == Reject(PlayerNotFound(req.playerId, req.gameId))
  {
  }

  /** Third guard: a wrong token is rejected before the turn is looked at. */
  lemma ActionWrongToken(g: Game, req: DoActionRequest, k: nat)
    requires g.state == GameLoop
    requires IsFirstMatch(g.players, req.playerId, k)
    requires g.players[k].token != req.token
    ensures DoActionOn(g, req) == Reject(TokenMismatch(req.playerId, req.gameId))
  {
    FindPlayerFirst(g.players, req.playerId, k);
  }

  /** Fourth guard: an authenticated player whose state is not THIS_PLAYERS_TURN. */
  lemma ActionNotPlayersTurn(g: Game, req: DoActionRequest, k: nat)
    requires g.state == GameLoop
    requires IsFirstMatch(g.players, req.playerId, k)
    requires g.players[k].token == req.token
    requires g.players[k].state != ThisPlayersTurn
    ensures DoActionOn(g, req) == Reject(NotPlayersTurn(req.playerId, req.gameId))
  {
    FindPlayerFirst(g.players, req.playerId, k);
  }

  /** Any action but "win" from the player whose turn it is: accepted, and the record is unchanged. */
  lemma NonWinActionChangesNothing(g: Game, req: DoActionRequest, k: nat)
    requires g.state == GameLoop
    requires IsFirstMatch(g.players, req.playerId, k)
    requires g.players[k].token == req.token && g.players[k].state == ThisPlayersTurn
    requires req.action != WinAction
    ensures DoActionOn(g, req) == Accept(EmptyResult, g)
  {
    FindPlayerFirst(g.players, req.playerId, k);
  }

  /**
   * "win" from the player whose turn it is: the game is GAME_OVER, that player
   * WON, every player with another id LOST; only states change, and only those.
   */
  lemma WinEndsGame(g: Game, req: DoActionRequest, k: nat)
    requires g.state == GameLoop
    requires IsFirstMatch(g.players, req.playerId, k)
    requires g.players[k].token == req.token && g.players[k].state == ThisPlayersTurn
    requires req.action == WinAction
    ensures DoActionOn(g, req).Accept?
    ensures var g' := DoActionOn(g, req).game;
            && g'.state == GameOver && g'.id == g.id && g'.name == g.name
            && |g'.players| == |g.players|
            && g'.players[k].state == Won
            && (forall j :: 0 <= j < |g.players| && g.players[j].id != req.playerId ==> g'.players[j].state == Lost)
            && (forall j :: 0 <= j < |g.players| && j != k && g.players[j].id == req.playerId ==> g'.players[j] == g.players[j])
            && (forall j :: 0 <= j < |g.players| ==> g'.players[j] == g.players[j].(state := g'.players[j].state))
  {
    FindPlayerFirst(g.players, req.playerId, k);
  }

  /** With distinct player ids, a win leaves exactly one winner and every other player lost. */
  lemma WinnerIsUnique(g: Game, req: DoActionRequest)
    requires forall i, j :: 0 <= i < j < |g.players| ==> g.players[i].id != g.players[j].id
    requires DoActionOn(g, req).Accept? && req.action == WinAction
    ensures var g' := DoActionOn(g, req).game;
            exists w :: 0 <= w < |g'.players| && g'.players[w].state == Won
                        && forall j :: 0 <= j < |g'.players| && j != w ==> g'.players[j].state == Lost
  {
    var k := FindPlayer(g.players, req.playerId).value;
    var g' := DoActionOn(g, req).game;
    assert g' == WinOutcome(g, k);
    forall j | 0 <= j < |g'.players| && j != k ensures g'.players[j].state == Lost {
      if j < k { assert g.players[j].id != g.players[k].id; } else { assert g.players[k].id != g.players[j].id; }
    }
    assert 0 <= k < |g'.players| && g'.players[k].state == Won;
  }

  /** A won game is terminal: every later action on that record fails the lifecycle guard. */
  lemma WinIsTerminal(g: Game, req: DoActionRequest, next: DoActionRequest)
    requires DoActionOn(g, req).Accept? && req.action == WinAction
    ensures DoActionOn(DoActionOn(g, req).game, next) == Reject(NotInGameLoop(next.gameId))
  {
  }

  /**
   * The handler: load the game (a store error is re-thrown), run the guard
   * chain and, for "win", update the loaded record in place. It has no
   * modifies clause: the table is never written. The ghost out-parameter is
   * the loaded record as the handler leaves it in memory.
   */
  method DoAction(table: GameTable, req: DoActionRequest) returns (out: Outcome, ghost after: Option<Game>)
    requires table.Valid()
    ensures table.GetGame(req.gameId).Failure? ==>
              out == Threw(table.GetGame(req.gameId).error) && after == None
    ensures table.GetGame(req.gameId).Success? ==>
              var g := table.GetGame(req.gameId).value;
              var d := DoActionOn(g, req);
              && out == Responded(Respond(req.id, d))
              && after == Some(if d.Accept? then d.game else g)
  {
    var loaded := table.GetGame(req.gameId);
    if loaded.Failure? {
      return Threw(loaded.error), None;
    }
    var game := loaded.value;
    ghost var g := game;
    if game.state != GameLoop {
      return Responded(ErrorResponse(req.id, NotInGameLoop(req.gameId))), Some(game);
    }
    var found := FindPlayer(game.players, req.playerId);
    if found.None? {
      return Responded(ErrorResponse(req.id, PlayerNotFound(req.playerId, req.gameId))), Some(game);
    }
    var k := found.value;
    if game.players[k].token != req.token {
      return Responded(ErrorResponse(req.id, TokenMismatch(req.playerId, req.gameId))), Some(game);
    }
    if game.players[k].state != ThisPlayersTurn {
      return Responded(ErrorResponse(req.id, NotPlayersTurn(req.playerId, req.gameId))), Some(game);
    }
    if req.action == WinAction {
      game := game.(state := GameOver);
      var players := game.players[k := game.players[k].(state := Won)];
      // the filter on id !== playerId followed by forEach
      var i := 0;
      while i < |players|
        invariant 0 <= i <= |players| == |g.players|
        invariant forall j :: 0 <= j < i ==> players[j] == WinOutcome(g, k).players[j]
        invariant forall j :: i <= j < |players| && j != k ==> players[j] == g.players[j]
        invariant i <= k ==> players[k] == g.players[k].(state := Won)
      {
        if players[i].id != req.playerId {
          players := players[i := players[i].(state := Lost)];
        }
        i := i + 1;
      }
      assert players == WinOutcome(g, k).players;
      game := game.(players := players);
    }
    return Responded(ResultResponse(req.id, EmptyResult)), Some(game);
  }
}
