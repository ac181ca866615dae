/**
 * selectCharacter (src/handlers/methods/selectCharacter.ts): authenticates a
 * player, sets that player's character once, moves the game to GAME_LOOP when
 * every player's character is defined, and writes the whole record back.
 *
 * As written, the handler sets no player state and picks no starting turn,
 * and it does not look at the game's lifecycle state.
 */
module SelectCharacterHandler {
  import opened Wrappers
  import opened GameRecord
  import opened GameStore
  import opened Rpc

  datatype SelectCharacterRequest = SelectCharacterRequest(
    id: RequestId,
    gameId: string,
    playerId: string,
    token: string,
    character: string)

  /** The guard chain and the update for one loaded game. */
  function SelectCharacterOn(g: Game, req: SelectCharacterRequest): (d: Decision)
    ensures d.Accept? ==> d.result == EmptyResult
    ensures d.Accept? ==> d.game.id == g.id && d.game.name == g.name && |d.game.players| == |g.players|
  {
    match FindPlayer(g.players, req.playerId)
    case None => Reject(PlayerNotFound(req.playerId, req.gameId))
    case Some(k) =>
      var player := g.players[k];
      if player.token != req.token then Reject(TokenMismatch(req.playerId, req.gameId))
      else if HasCharacter(player) then Reject(AlreadySelected(req.playerId))
      else
        var players := g.players[k := player.(character := Some(req.character))];
        Accept(EmptyResult, g.(players := players,
                               state := if |players| == CountDefined(players) then GameLoop else g.state))
  }

  /** First guard: no player carries the id. */
  lemma SelectUnknownPlayer(g: Game, req: SelectCharacterRequest)
    requires forall j :: 0 <= j < |g.players| ==> g.players[j].id != req.playerId
    ensures SelectCharacterOn(g, req) == Reject(PlayerNotFound(req.playerId, req.gameId))
  {
  }

  /** Second guard: a token other than the stored one is rejected, whatever else holds. */
  lemma SelectWrongToken(g: Game, req: SelectCharacterRequest, k: nat)
    requires IsFirstMatch(g.players, req.playerId, k)
    requires g.players[k].token != req.token
    ensures SelectCharacterOn(g, req) == Reject(TokenMismatch(req.playerId, req.gameId))
  {
    FindPlayerFirst(g.players, req.playerId, k);
  }

  /** Third guard: a player whose character is a non-empty string cannot select again. */
  lemma SelectAlreadySelected(g: Game, req: SelectCharacterRequest, k: nat)
    requires IsFirstMatch(g.players, req.playerId, k)
    requires g.players[k].token == req.token
    requires HasCharacter(g.players[k])
    ensures SelectCharacterOn(g, req) == Reject(AlreadySelected(req.playerId))
  {
    FindPlayerFirst(g.players, req.playerId, k);
  }

  /**
   * Past the guards: only the first matching player's character changes, to
   * the requested one; no player's state and no other player changes; the game
   * enters GAME_LOOP iff every player now has a defined character, and keeps
   * its state otherwise.
   */
  lemma SelectAccepted(g: Game, req: SelectCharacterRequest, k: nat)
    requires IsFirstMatch(g.players, req.playerId, k)
    requires g.players[k].token == req.token
    requires !HasCharacter(g.players[k])
    ensures SelectCharacterOn(g, req).Accept?
    ensures var g' := SelectCharacterOn(g, req).game;
            && g'.id == g.id && g'.name == g.name
            && |g'.players| == |g.players|
            && g'.players[k] == g.players[k].(character := Some(req.character))
            && (forall j :: 0 <= j < |g.players| && j != k ==> g'.players[j] == g.players[j])
            && ((forall j :: 0 <= j < |g'.players| ==> g'.players[j].character.Some?) ==> g'.state == GameLoop)
            && (!(forall j :: 0 <= j < |g'.players| ==> g'.players[j].character.Some?) ==> g'.state == g.state)
  {
    FindPlayerFirst(g.players, req.playerId, k);
    var g' := SelectCharacterOn(g, req).game;
    CountDefinedAll(g'.players);
  }

  /**
   * A character is set once: after an accepted selection of a non-empty
   * character, the same player's next selection is rejected as already
   * selected, so the stored character stays the first one.
   */
  lemma CharacterSetOnce(g: Game, first: SelectCharacterRequest, second: SelectCharacterRequest)
    requires SelectCharacterOn(g, first).Accept?
    requires first.character != ""
    requires second.playerId == first.playerId && second.token == first.token
    ensures SelectCharacterOn(SelectCharacterOn(g, first).game, second) == Reject(AlreadySelected(second.playerId))
  {
    var k := FindPlayer(g.players, first.playerId).value;
    var g' := SelectCharacterOn(g, first).game;
    assert IsFirstMatch(g'.players, second.playerId, k);
    FindPlayerFirst(g'.players, second.playerId, k);
  }

  /**
   * The two character checks disagree on the empty string: a player who
   * selected "" counts as having a character for the GAME_LOOP transition,
   * yet the already-selected guard lets the same player select again.
   */
  lemma EmptyCharacterSelectableAgain(g: Game, first: SelectCharacterRequest, second: SelectCharacterRequest)
    requires SelectCharacterOn(g, first).Accept?
    requires first.character == ""
    requires second.playerId == first.playerId && second.token == first.token
    ensures SelectCharacterOn(g, first).game.players[FindPlayer(g.players, first.playerId).value].character.Some?
    ensures SelectCharacterOn(SelectCharacterOn(g, first).game, second).Accept?
  {
    var k := FindPlayer(g.players, first.playerId).value;
    var g' := SelectCharacterOn(g, first).game;
    assert IsFirstMatch(g'.players, second.playerId, k);
    FindPlayerFirst(g'.players, second.playerId, k);
  }

  /**
   * No lifecycle guard: a game still WAITING_FOR_PLAYERS with a single
   * player goes straight to GAME_LOOP when that player selects.
   */
  lemma SingleSeatEntersGameLoop(name: string, gameId: string, p: Player, req: SelectCharacterRequest)
    requires p.id == req.playerId && p.token == req.token && p.character.None?
    ensures SelectCharacterOn(Game(name, gameId, WaitingForPlayers, [p]), req).Accept?
    ensures SelectCharacterOn(Game(name, gameId, WaitingForPlayers, [p]), req).game.state == GameLoop
  {
    var g := Game(name, gameId, WaitingForPlayers, [p]);
    SelectAccepted(g, req, 0);
  }

  /**
   * The handler: load the game (a store error is re-thrown), run the guard
   * chain, and on acceptance write the updated record exactly once under its
   * id; a rejection writes nothing.
   */
  method SelectCharacter(table: GameTable, req: SelectCharacterRequest) returns (out: Outcome)
    requires table.Valid()
    modifies table
    ensures table.Valid()
    ensures old(table.GetGame(req.gameId)).Failure? ==>
              && out == Threw(old(table.GetGame(req.gameId)).error)
              && table.items == old(table.items) && table.Writes == old(table.Writes)
    ensures old(table.GetGame(req.gameId)).Success? ==>
              var d := SelectCharacterOn(old(table.GetGame(req.gameId)).value, req);
              && out == Responded(Respond(req.id, d))
              && (d.Reject? ==> table.items == old(table.items) && table.Writes == old(table.Writes))
              && (d.Accept? ==> table.Writes == old(table.Writes) + [d.game]
                                && table.items == old(table.items)[req.gameId := EncodeGame(d.game)])
  {
    var loaded := table.GetGame(req.gameId);
    if loaded.Failure? {
      return Threw(loaded.error);
    }
    var game := loaded.value;
    GetGameId(table, req.gameId);
    var found := FindPlayer(game.players, req.playerId);
    if found.None? {
      return Responded(ErrorResponse(req.id, PlayerNotFound(req.playerId, req.gameId)));
    }
    var k := found.value;
    var player := game.players[k];
    if player.token != req.token {
      return Responded(ErrorResponse(req.id, TokenMismatch(req.playerId, req.gameId)));
    }
    if HasCharacter(player) {
      return Responded(ErrorResponse(req.id, AlreadySelected(req.playerId)));
    }
    player := player.(character := Some(req.character));
    game := game.(players := game.players[k := player]);
    if |game.players| == CountDefined(game.players) {
      game := game.(state := GameLoop);
    }
    var written := table.UpdateGame(game);
    return Responded(ResultResponse(req.id, EmptyResult));
  }
}
