# Turn-based game state machine of picture-battle-server, in Dafny

This project models the core of a small multiplayer game server that is driven by remote procedure calls.
Each call names a method. A handler loads one Game record from the games table by its id and runs a fixed chain of guards.
It then either answers `{id, error: {code, message}}` or updates the record and answers `{id, result}`.

What is modelled:

- `wrappers.dfy`: `Option` and `Result`.
- `zod_utils.dfy`: `formatZodError`. An issue's path is joined with `"."`. A non-empty path is followed by `": "` and the message. The rendered issues are joined with `". "`. Numeric path steps are written in decimal.
- `game_record.dfy`: the Player and Game records and their state enums. The stored item keeps the enum fields as strings. The Game schema check (`ParseGame`) turns a stored item back into a Game. Player lookup by id (`find`: the first match) and the two character checks live here too.
  - One check is truthiness: `if (player.character)`.
  - The other is `!== undefined`, inside the count used by the `GAME_LOOP` test.
- `game_store.dfy`: the games table, a class over `map<string, StoredGame>`.
  - `GetGame` reads the table. It fails on a missing key, and on an item that fails the schema check.
  - `UpdateGame` overwrites the item under `game.id` and leaves every other key alone.
  - A ghost log `Writes` records each put, so "written exactly once" and "not written" can be stated.
- `rpc.dfy`: the response envelope, the error codes (`-1` and `-32601`), the exact error messages, and `Decision`. A `Decision` is what a guard chain decides about one loaded game.
- `create_game.dfy`, `select_character.dfy`, `do_action.dfy`, `is_turn.dfy` and `destroy_game.dfy`: one module per handler. Each handler that loads a game has two parts:
  - a pure function (`...On`) that decides for one loaded game;
  - the handler itself, which loads the game, re-throws the store's error, and writes the table or not.

Where a reader, or the repository's own tests (__tests__/handlers/methods/selectCharacter.test.ts:57-68, 104-115), might expect otherwise, the model follows the code:

- `selectCharacter` never sets a player's state and never picks a starting turn. It does not check the game's lifecycle state either, so a one-player game that is still `WAITING_FOR_PLAYERS` goes straight to `GAME_LOOP` (`SingleSeatEntersGameLoop`).
- The two character checks disagree on `""`. A player who selected `""` counts as having a character for the `GAME_LOOP` test, yet may select again (`EmptyCharacterSelectableAgain`).
- `doAction` handles only `"win"`. Any other action is accepted and changes nothing: no turn rotation.
- `doAction` never writes the record. The win changes only the record that was loaded into memory, so the stored game stays in `GAME_LOOP`.
- No handler here sets `THIS_PLAYERS_TURN`. A player can pass the turn guard of `doAction` only with a record written by code that is not part of this model.

## Model

| member | source | states |
|---|---|---|
| GameRecord.ParsePlayerState | src/handlers/database/game.ts:10-17 | a string is accepted as a player state iff it is the name of one of the six states, and it then reads as that state |
| GameRecord.PlayerStateNameRoundTrip | src/handlers/database/game.ts:10-17 | every one of the six player states reads back as itself, so the six names are distinct |
| GameRecord.ParseGameState | src/handlers/database/game.ts:24-29 | a string is accepted as a game state iff it is the name of one of the four states |
| GameRecord.GameStateNameRoundTrip | src/handlers/database/game.ts:24-29 | every one of the four game states reads back as itself |
| GameRecord.PlayerIssuesNone | src/handlers/database/game.ts:30 | the players of a stored item raise no issue exactly when every one of them passes the player schema |
| GameRecord.ParseGame | src/handlers/database/game.ts:21-31 | the schema check fails only with at least one issue; on success it keeps id, name and the number of players |
| GameRecord.ParseEncodeGame | src/handlers/database/game.ts:45-49 | round trip: a game stored verbatim passes the schema check and reads back as the same game |
| GameRecord.EncodeParseGame | src/handlers/database/game.ts:45-49 | a game read from an item is exactly what that item stores |
| GameRecord.FindPlayer | src/handlers/methods/selectCharacter.ts:15 | lookup by id gives the first position holding that id, or nothing iff no player holds it |
| GameRecord.FindPlayerFirst | src/handlers/methods/doAction.ts:20 | whenever k is the first position with the id, the lookup returns k |
| GameRecord.CountDefinedAll | src/handlers/methods/selectCharacter.ts:44-47 | the filtered list (characters not undefined) is as long as the player list iff every player has a defined character |
| GameStore.GameTable.GetGame | src/handlers/database/game.ts:34-50 | a missing key is the not-found error and nothing else is; an item failing the schema check is the invalid-data error with its issues; an item passing it is returned as the parsed game, which is exactly what the item stores |
| GameStore.GameTable.UpdateGame | src/handlers/database/game.ts:52-61 | the item under game.id is overwritten unconditionally, other keys keep their items, one write is logged, the argument is returned, and reading game.id afterwards gives the game back |
| CreateGameHandler.CreateGame | src/handlers/methods/createGame.ts:10-27 | cannot fail; writes exactly one record, the empty WAITING_FOR_PLAYERS game with the requested name under the fresh id; answers with the request id and gameId equal to that id; the table then maps that id to the new game |
| SelectCharacterHandler.SelectCharacterOn | src/handlers/methods/selectCharacter.ts:14-55 | an accepted selection answers `{}` and keeps the game's id, name and number of players |
| SelectCharacterHandler.SelectUnknownPlayer | src/handlers/methods/selectCharacter.ts:15-24 | when no player has the id, the answer is the player-not-found error (code -1, exact message) |
| SelectCharacterHandler.SelectWrongToken | src/handlers/methods/selectCharacter.ts:25-33 | when the first matching player's token differs, the answer is the token-mismatch error, whatever the character |
| SelectCharacterHandler.SelectAlreadySelected | src/handlers/methods/selectCharacter.ts:34-42 | an authenticated player whose character is a non-empty string gets the already-selected error |
| SelectCharacterHandler.SelectAccepted | src/handlers/methods/selectCharacter.ts:43-49 | past the guards only that player's character changes (to the requested one), no state of any player changes, and the game is GAME_LOOP iff every character is defined, its old state otherwise |
| SelectCharacterHandler.CharacterSetOnce | src/handlers/methods/selectCharacter.ts:34-43 | after a non-empty character is accepted, the same player's next selection is rejected as already selected |
| SelectCharacterHandler.EmptyCharacterSelectableAgain | src/handlers/methods/selectCharacter.ts:34-46 | a character of "" counts as defined, yet the same player may select again |
| SelectCharacterHandler.SingleSeatEntersGameLoop | src/handlers/methods/selectCharacter.ts:14-49 | with no lifecycle guard, a one-player WAITING_FOR_PLAYERS game enters GAME_LOOP on that player's selection |
| SelectCharacterHandler.SelectCharacter | src/handlers/methods/selectCharacter.ts:8-56 | a store error is re-thrown with no write; a rejection writes nothing; an acceptance writes the updated game exactly once under the requested game id; the answer echoes the request id |
| DoActionHandler.DoActionOn | src/handlers/methods/doAction.ts:10-60 | an accepted action answers `{}` |
| DoActionHandler.ActionOutsideGameLoop | src/handlers/methods/doAction.ts:11-19 | outside GAME_LOOP every request gets the not-in-game-loop error, before anything else is looked at |
| DoActionHandler.ActionUnknownPlayer | src/handlers/methods/doAction.ts:20-29 | in GAME_LOOP, an id no player has gets the player-not-found error |
| DoActionHandler.ActionWrongToken | src/handlers/methods/doAction.ts:30-38 | a wrong token gets the token-mismatch error, whatever the player's turn state |
| DoActionHandler.ActionNotPlayersTurn | src/handlers/methods/doAction.ts:39-47 | an authenticated player not in THIS_PLAYERS_TURN gets the not-your-turn error |
| DoActionHandler.NonWinActionChangesNothing | src/handlers/methods/doAction.ts:48-60 | any action other than "win" by the current player is accepted and leaves the record unchanged |
| DoActionHandler.WinEndsGame | src/handlers/methods/doAction.ts:48-56 | "win" makes the game GAME_OVER, the acting player WON, every player with another id LOST, leaves later players sharing the id as they were, and changes no field other than states |
| DoActionHandler.WinnerIsUnique | src/handlers/methods/doAction.ts:49-55 | with distinct ids, after a win exactly one player is WON and all others are LOST |
| DoActionHandler.WinIsTerminal | src/handlers/methods/doAction.ts:11-19 | on a won record every further action fails the lifecycle guard |
| DoActionHandler.DoAction | src/handlers/methods/doAction.ts:4-61 | the answer is the guard chain's decision with the request id; the table is never written (no modifies clause); the in-memory record ends as the decision's record |
| IsTurnHandler.IsTurnOn | src/handlers/methods/isTurn.ts:28-33 | every answer echoes the request id |
| IsTurnHandler.IsTurnUnknownPlayer | src/handlers/methods/isTurn.ts:8-17 | an id no player has gets the player-not-found error, whatever the token |
| IsTurnHandler.IsTurnWrongToken | src/handlers/methods/isTurn.ts:18-26 | a wrong token for an existing player gets the token-mismatch error, whatever the player's state |
| IsTurnHandler.IsTurnAnswer | src/handlers/methods/isTurn.ts:27-33 | with the right token the answer is `{isTurn}`, true iff the player's state is THIS_PLAYERS_TURN |
| IsTurnHandler.IsTurnAnswersIffAuthenticated | src/handlers/methods/isTurn.ts:8-33 | a result rather than an error comes back iff the player exists and the token matches |
| IsTurnHandler.IsTurn | src/handlers/methods/isTurn.ts:4-34 | read-only (a function that only reads the table); throws exactly when the game cannot be loaded, otherwise answers for the loaded game |
| DestroyGameHandler.DestroyGame | src/handlers/methods/destroyGame.ts:3-12 | always the error -32601 "not implemented" with the request id, never a result; the table is not read |
| ZodUtils.Decimal | src/handlers/utils/zodUtils.ts:7 | an array index in a path is written as at least one decimal digit, with no leading zero |
| ZodUtils.DecimalRoundTrip | src/handlers/utils/zodUtils.ts:7 | the digits written for an index read back as that index |
| ZodUtils.PathTextEmpty | src/handlers/utils/zodUtils.ts:7-10 | the joined path is empty iff the path is empty or is the single empty key |
| ZodUtils.FormatIssue | src/handlers/utils/zodUtils.ts:5-11 | an empty path (or the single empty key) renders as the message alone; any other path renders as the dotted path, ": " and the message |
| ZodUtils.FormatZodError | src/handlers/utils/zodUtils.ts:3-13 | no issues render as ""; one issue renders as that issue |
| ZodUtils.JoinIsSeparatedConcat | src/handlers/utils/zodUtils.ts:12 | joining equals concatenating the parts with the separator after every part but the last |
| ZodUtils.JoinAppend | src/handlers/utils/zodUtils.ts:12 | joining one more part appends the separator and that part, so order is kept |
| ZodUtils.JoinLength | src/handlers/utils/zodUtils.ts:12 | n joined parts take their total length plus n - 1 separators |
| ZodUtils.FormatZodErrorSeparated | src/handlers/utils/zodUtils.ts:4-12 | the output is the rendered issues in order with ". " after each but the last |
| ZodUtils.FormatZodErrorAppend | src/handlers/utils/zodUtils.ts:4-12 | an issue added at the end is rendered after the others, after one ". " |
| ZodUtils.FormatZodErrorLength | src/handlers/utils/zodUtils.ts:12 | for n >= 1 issues the output holds exactly n - 1 inserted separators of two characters |

## Left out

- joinGame (src/handlers/methods/joinGame.ts) is not modelled. It only calls a store function, `createPlayerInGame`, that is not part of this model. So the capacity and lifecycle rules of joining have no code to model.
- listGames (src/handlers/methods/listGames.ts) is not modelled. It delegates to a store `listGames` that is not part of this model.
- The request router (src/handlers/handler.ts) is transport plumbing and is not modelled. So are the HTTP wrapping (src/handlers/utils/httpUtils.ts), the request/response schemas (src/types/rpc.ts, src/types/server.ts) and BadRequestError. Requests reach the handlers already decoded, as datatypes.
- Id generation (`uuidv4`) is a parameter of `CreateGame`. If the fresh id already exists, the put overwrites that record, as the code would.
- DynamoDB itself is not modelled: its failures, its asynchrony and the environment table name. The table is a map that cannot fail. Concurrent requests and their read-modify-write races are not modelled either; each handler runs alone against the map.
- GameRecord.ParseGame checks only what typing leaves open: the two enum fields. Missing fields and fields of the wrong type cannot occur in the datatypes.
- GameRecord.ParseGame gives each enum issue the constant message "Invalid enum value". The schema library's own issue wording is not modelled.
- GameStore.GameTable.GetGame carries the schema issues of an invalid item, not the text the library appends after "Invalid game data: ". Only the not-found message is modelled as text (`StoreError.Message`).
- Request ids are integers. The request schema declares them as numbers; non-integer numbers are not modelled.
- DoActionHandler.DoAction exposes the in-memory record it mutates only as a ghost out-parameter. The code returns no such value, and nothing outside the handler can see that record.
