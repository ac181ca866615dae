/**
 * The games table of src/handlers/database/game.ts, seen as a keyed store:
 * getGame reads the item under a game id and checks it against the Game
 * schema; updateGame puts a whole record under its own id, overwriting
 * whatever was there (last writer wins).
 */
module GameStore {
  import opened Wrappers
  import opened ZodUtils
  import opened GameRecord

  /** Why getGame throws instead of returning a game. */
  datatype StoreError =
    | GameNotFound(gameId: string)
    | InvalidGameData(issues: seq<Issue>)
  {
    /** The thrown message for a missing item. */
    function Message(): string
      requires GameNotFound?
    {
      "Game with ID " + gameId + " not found"
    }
  }

  class GameTable {
    /** The stored items, by primary key. */
    var items: map<string, StoredGame>
    /** Every record put so far, in order. */
    ghost var Writes: seq<Game>

    /** The primary key of an item is its own id attribute. */
    ghost predicate Valid()
      reads this
    {
      forall key :: key in items ==> items[key].id == key
    }

    constructor (initial: map<string, StoredGame>)
      requires forall key :: key in initial ==> initial[key].id == key
      ensures Valid()
      ensures items == initial && Writes == []
    {
      items := initial;
      Writes := [];
    }

    /** getGame: a missing item or one that fails the schema check is an error; otherwise the parsed game. */
    function GetGame(gameId: string): (r: Result<Game, StoreError>)
      reads this
      ensures gameId !in items <==> r == Failure(GameNotFound(gameId))
      ensures gameId in items && ParseGame(items[gameId]).Failure? ==>
                r == Failure(InvalidGameData(ParseGame(items[gameId]).error))
      ensures gameId in items && ParseGame(items[gameId]).Success? ==>
                r == Success(ParseGame(items[gameId]).value)
      ensures r.Success? ==> gameId in items && EncodeGame(r.value) == items[gameId]
    {
      if gameId !in items then Failure(GameNotFound(gameId))
      else
        match ParseGame(items[gameId])
        case Failure(issues) => Failure(InvalidGameData(issues))
        case Success(g) => EncodeParseGame(items[gameId], g); Success(g)
    }

    /**
     * updateGame: unconditional put of the whole record at key game.id; every
     * other key keeps its item, and the argument is returned unchanged.
     */
    method UpdateGame(game: Game) returns (r: Game)
      requires Valid()
      modifies this
      ensures Valid()
      ensures items == old(items)[game.id := EncodeGame(game)]
      ensures Writes == old(Writes) + [game]
      ensures r == game
      ensures GetGame(game.id) == Success(game)
      ensures forall key :: key != game.id ==> GetGame(key) == old(GetGame(key))
    {
      items := items[game.id := EncodeGame(game)];
      Writes := Writes + [game];
      ParseEncodeGame(game);
      r := game;
    }
  }

  /** A game read back from a consistent table has the id it was looked up by. */
  lemma GetGameId(table: GameTable, gameId: string)
    requires table.Valid()
    ensures table.GetGame(gameId).Success? ==> table.GetGame(gameId).value.id == gameId
  {
  }
}
