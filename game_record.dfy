/**
 * The Game and Player records of src/handlers/database/game.ts: their state
 * enums, the form in which a record is stored (enum fields as their string
 * names), and the schema check that turns a stored item back into a Game.
 */
module GameRecord {
  import opened Wrappers
  import opened ZodUtils

  /** A player's state: exactly these six values. */
  datatype PlayerState =
    | SelectingCharacter
    | SelectedCharacter
    | ThisPlayersTurn
    | WaitingForTurn
    | Won
    | Lost

  /** A game's lifecycle state: exactly these four values. */
  datatype GameState =
    | WaitingForPlayers
    | SelectingCharacters
    | GameLoop
    | GameOver

  /** A seat in a game. The character is optional; everything else is always present. */
  datatype Player = Player(
    name: string,
    id: string,
    token: string,
    character: Option<string>,
    state: PlayerState)

  /** One match, with its players in join order. */
  datatype Game = Game(
    name: string,
    id: string,
    state: GameState,
    players: seq<Player>)

  function PlayerStateName(s: PlayerState): string
  {
    match s
    case SelectingCharacter => "SELECTING_CHARACTER"
    case SelectedCharacter => "SELECTED_CHARACTER"
    case ThisPlayersTurn => "THIS_PLAYERS_TURN"
    case WaitingForTurn => "WAITING_FOR_TURN"
    case Won => "WON"
    case Lost => "LOST"
  }

  function GameStateName(s: GameState): string
  {
    match s
    case WaitingForPlayers => "WAITING_FOR_PLAYERS"
    case SelectingCharacters => "SELECTING_CHARACTERS"
    case GameLoop => "GAME_LOOP"
    case GameOver => "GAME_OVER"
  }

  /** The player-state enum check: a string is accepted iff it names one of the six states. */
  function ParsePlayerState(text: string): (r: Option<PlayerState>)
    ensures r.Some? ==> PlayerStateName(r.value) == text
    ensures r.None? ==> forall s :: PlayerStateName(s) != text
  {
    if text == "SELECTING_CHARACTER" then Some(SelectingCharacter)
    else if text == "SELECTED_CHARACTER" then Some(SelectedCharacter)
    else if text == "THIS_PLAYERS_TURN" then Some(ThisPlayersTurn)
    else if text == "WAITING_FOR_TURN" then Some(WaitingForTurn)
    else if text == "WON" then Some(Won)
    else if text == "LOST" then Some(Lost)
    else None
  }

  /** The game-state enum check: a string is accepted iff it names one of the four states. */
  function ParseGameState(text: string): (r: Option<GameState>)
    ensures r.Some? ==> GameStateName(r.value) == text
    ensures r.None? ==> forall s :: GameStateName(s) != text
  {
    if text == "WAITING_FOR_PLAYERS" then Some(WaitingForPlayers)
    else if text == "SELECTING_CHARACTERS" then Some(SelectingCharacters)
    else if text == "GAME_LOOP" then Some(GameLoop)
    else if text == "GAME_OVER" then Some(GameOver)
    else None
  }

  /** Every player state reads back as itself, so the six names are distinct. */
  lemma PlayerStateNameRoundTrip(s: PlayerState)
    ensures ParsePlayerState(PlayerStateName(s)) == Some(s)
  {
    match s
    case SelectingCharacter =>
    case SelectedCharacter =>
    case ThisPlayersTurn =>
    case WaitingForTurn =>
    case Won =>
    case Lost =>
  }

  /** Every game state reads back as itself, so the four names are distinct. */
  lemma GameStateNameRoundTrip(s: GameState)
    ensures ParseGameState(GameStateName(s)) == Some(s)
  {
    match s
    case WaitingForPlayers =>
    case SelectingCharacters =>
    case GameLoop =>
    case GameOver =>
  }

  /** A player as the table item holds it: the state is a string. */
  datatype StoredPlayer = StoredPlayer(
    name: string,
    id: string,
    token: string,
    character: Option<string>,
    state: string)

  /** A game as the table item holds it, keyed by its id. */
  datatype StoredGame = StoredGame(
    name: string,
    id: string,
    state: string,
    players: seq<StoredPlayer>)

  function EncodePlayer(p: Player): StoredPlayer
  {
    StoredPlayer(p.name, p.id, p.token, p.character, PlayerStateName(p.state))
  }

  function EncodePlayers(ps: seq<Player>): (r: seq<StoredPlayer>)
    ensures |r| == |ps|
  {
    if ps == [] then [] else [EncodePlayer(ps[0])] + EncodePlayers(ps[1..])
  }

  /** The item written for a game: the record verbatim. */
  function EncodeGame(g: Game): StoredGame
  {
    StoredGame(g.name, g.id, GameStateName(g.state), EncodePlayers(g.players))
  }

  /** The message this model gives an enum issue; the schema library's own wording is not modelled. */
  const InvalidEnumValue: string := "Invalid enum value"

  function ParsePlayer(item: StoredPlayer): Option<Player>
  {
    match ParsePlayerState(item.state)
    case None => None
    case Some(s) => Some(Player(item.name, item.id, item.token, item.character, s))
  }

  function ParsePlayers(items: seq<StoredPlayer>): Option<seq<Player>>
  {
    if items == [] then Some([])
    else
      match (ParsePlayer(items[0]), ParsePlayers(items[1..]))
      case (Some(p), Some(ps)) => Some([p] + ps)
      case _ => None
  }

  /** One issue per stored player whose state is not an allowed name, at path players.<index>.state. */
  function PlayerIssues(items: seq<StoredPlayer>, first: nat): seq<Issue>
  {
    if items == [] then []
    else
      (if ParsePlayerState(items[0].state).None?
       then [Issue([Key("players"), Index(first), Key("state")], InvalidEnumValue)]
       else [])
      + PlayerIssues(items[1..], first + 1)
  }

  /** The players have no issue exactly when every one of them parses. */
  lemma {:induction false} PlayerIssuesNone(items: seq<StoredPlayer>, first: nat)
    ensures PlayerIssues(items, first) == [] <==> ParsePlayers(items).Some?
  {
    if items != [] {
      PlayerIssuesNone(items[1..], first + 1);
    }
  }

  /**
   * The Game schema check: a stored item is accepted iff its state and every
   * player's state are allowed names; otherwise every offending field is reported.
   */
  function ParseGame(item: StoredGame): (r: Result<Game, seq<Issue>>)
    ensures r.Failure? ==> r.error != []
    ensures r.Success? ==> r.value.id == item.id && r.value.name == item.name
                           && |r.value.players| == |item.players|
  {
    var stateIssues := if ParseGameState(item.state).None? then [Issue([Key("state")], InvalidEnumValue)] else [];
    var issues := stateIssues + PlayerIssues(item.players, 0);
    if issues != [] then Failure(issues)
    else
      PlayerIssuesNone(item.players, 0);
      ParsePlayersLength(item.players);
      Success(Game(item.name, item.id, ParseGameState(item.state).value, ParsePlayers(item.players).value))
  }

  lemma {:induction false} ParsePlayersLength(items: seq<StoredPlayer>)
    ensures ParsePlayers(items).Some? ==> |ParsePlayers(items).value| == |items|
  {
    if items != [] {
      ParsePlayersLength(items[1..]);
    }
  }

  lemma {:induction false} ParseEncodePlayers(ps: seq<Player>)
    ensures ParsePlayers(EncodePlayers(ps)) == Some(ps)
  {
    if ps != [] {
      var items := EncodePlayers(ps);
      assert items[0] == EncodePlayer(ps[0]) && items[1..] == EncodePlayers(ps[1..]);
      PlayerStateNameRoundTrip(ps[0].state);
      ParseEncodePlayers(ps[1..]);
      assert [ps[0]] + ps[1..] == ps;
    }
  }

  /** Round trip: a written game passes the schema check and reads back unchanged. */
  lemma ParseEncodeGame(g: Game)
    ensures ParseGame(EncodeGame(g)) == Success(g)
  {
    ParseEncodePlayers(g.players);
    PlayerIssuesNone(EncodePlayers(g.players), 0);
    GameStateNameRoundTrip(g.state);
  }

  lemma {:induction false} EncodeParsePlayers(items: seq<StoredPlayer>, ps: seq<Player>)
    requires ParsePlayers(items) == Some(ps)
    ensures EncodePlayers(ps) == items
  {
    if items != [] {
      var p := ParsePlayer(items[0]).value;
      var rest := ParsePlayers(items[1..]).value;
      assert ps == [p] + rest;
      assert ps[0] == p && ps[1..] == rest;
      EncodeParsePlayers(items[1..], rest);
    }
  }

  /** The other direction: a game read from an item is exactly what that item encodes. */
  lemma EncodeParseGame(item: StoredGame, g: Game)
    requires ParseGame(item) == Success(g)
    ensures EncodeGame(g) == item
  {
    PlayerIssuesNone(item.players, 0);
    EncodeParsePlayers(item.players, ParsePlayers(item.players).value);
  }

  /**
   * players.find(({ id }) => playerId === id): the position of the first
   * player with that id, or None when no player has it.
   */
  function FindPlayer(players: seq<Player>, playerId: string): (r: Option<nat>)
    ensures r.Some? ==> r.value < |players| && players[r.value].id == playerId
                        && forall j :: 0 <= j < r.value ==> players[j].id != playerId
    ensures r.None? <==> forall j :: 0 <= j < |players| ==> players[j].id != playerId
  {
    if |players| == 0 then None
    else if players[0].id == playerId then Some(0)
    else
      match FindPlayer(players[1..], playerId)
      case None => None
      case Some(k) => Some(k + 1)
  }

  /** k is the first position holding a player with id playerId. */
  predicate IsFirstMatch(players: seq<Player>, playerId: string, k: nat)
  {
    k < |players| && players[k].id == playerId
    && forall j :: 0 <= j < k ==> players[j].id != playerId
  }

  /** The lookup finds exactly the first matching position. */
  lemma FindPlayerFirst(players: seq<Player>, playerId: string, k: nat)
    requires IsFirstMatch(players, playerId, k)
    ensures FindPlayer(players, playerId) == Some(k)
  {
    assert FindPlayer(players, playerId).Some? by { assert players[k].id == playerId; }
  }

  /** `if (player.character)`: the character is set to a non-empty string. */
  predicate HasCharacter(p: Player)
  {
    p.character.Some? && p.character.value != ""
  }

  /** players.filter(({ character }) => character !== undefined).length */
  function CountDefined(players: seq<Player>): (n: nat)
    ensures n <= |players|
  {
    if players == [] then 0
    else (if players[0].character.Some? then 1 else 0) + CountDefined(players[1..])
  }

  /** The filtered list is as long as the list iff every player has a defined character. */
  lemma {:induction false} CountDefinedAll(players: seq<Player>)
    ensures CountDefined(players) == |players|
            <==> forall j :: 0 <= j < |players| ==> players[j].character.Some?
  {
    if players != [] {
      CountDefinedAll(players[1..]);
      if CountDefined(players) == |players| {
        forall j | 0 <= j < |players| ensures players[j].character.Some? {
          if j > 0 { assert players[j] == players[1..][j - 1]; }
        }
      }
    }
  }
}
