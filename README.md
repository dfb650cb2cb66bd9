# Battleship game engine

This is a Dafny model of the game engine in the Battleship REST backend. It covers five parts:

- **GameShipService**: the ship catalog and the placement checks.
  - The no-overlap check uses a set of `row-col` keys.
  - The straight-line check compares each coordinate with the previous one in the order submitted.
- **GameGridService**: building a side's 10x10 board and its links to the fleet, and one attack on a cell.
- **PlayerService**: joining a player, the check that admits a player into a new game, and the list of free players.
- **GameService**: creating a game from two submissions, and one turn of play, including sinking and victory.
- **The entities**: `GameEntity`, `GamePlayerEntity` and `GameShipEntity`, with the helpers that keep their two-way links in step.

## How the model is organised

Modules follow the services:

| module | what it holds |
|---|---|
| `Types` | requests, enums, errors, Java `int` arithmetic, `Integer.toString` |
| `Entities` | the entity classes |
| `Ships` | GameShipService |
| `Board` | GameGridService |
| `Players` | PlayerService |
| `Games` | GameService |

Each entity that is updated in place is a `class`:

- `Player`, `Cell` (a grid square), `GameShip`, `GamePlayer` (one side of a game) and `Game`.
- Object identity stands for the entities' equality.
- A list an entity creates lazily on first use is a `seq` that starts empty.
- The game and game-player tables are maps, held as fields of the `GameService` class.
- The player table is a sequence in repository order with unique names, matching the unique `playerName` column.

A thrown exception is an `Err` carrying an `Error` value. `Types.Kind` gives the exception class of each error.

Coordinates are Java `int`:

- `int32` stands for Java `int`.
- `areAdjacent` uses Java's wrapping subtraction and `Math.abs`.

The model's behaviour follows the code, including where the code departs from the intended game rules:

- **Straight ships**: a step of zero counts as straight (`Ships.RepeatedCellIsStraight`). A coordinate of -1 switches off the check of the next step (`Ships.SentinelSkipsCheck`). Coordinates in the wrong order are rejected, as designed (`Ships.OutOfOrderRowIsNotStraight`).
- **Check order**: the overlap and straightness checks run before the per-ship length check (`Games.ShipsError`). The intended rules put the length check first.
- **Off-board coordinates**: nothing rejects them. They get no board cell (`Board.ShipReceivesListedCells`). A fleet ship all of whose coordinates are off the board has no cell at all. An attack changes only the attacked cell and the ship of that cell (the frame of `Games.GameService.Attack`), so such a ship is never hit and stays NOT_SUNK. `IsGameOver` then never holds for its side, and that side can never lose.
- **Finished games**: `playerTurn` never looks at the game status, so a completed game can still be played (`Games.GameService.PlayerTurn`).
- **Repeated ship ids**: two requests with the same catalog id link their cells to the first fleet ship of that id (`Board.FirstWithTemplateIsFirst`). The later ship of that id gets no cell, so, as with off-board coordinates, it is never hit, stays NOT_SUNK, and its side can never lose.
- **Same player twice**: naming one player in both submissions always fails. When the first submission passes its checks, the error is the already-playing one, because the first pass has already marked the player as playing. When the first submission fails, its own error is reported (`Games.GameService.SamePlayerTwice`).
- **Duplicate list entries**: an attack appends the attacked cell to the opponent's board list again. A sinking appends the ship to the opponent's fleet list again. The model keeps both, as written.

## Model

| member | source | states |
|---|---|---|
| Types.JavaDistanceExact | src/main/java/com/api/backend/service/GameShipService.java:197-202 | `Math.abs(col - prevCol)` with Java wrap-around equals the true distance for coordinates away from the ends of the `int` range |
| Types.JavaDistanceAtMinimum | src/main/java/com/api/backend/service/GameShipService.java:197 | at the end of the range the wrapped distance is negative: `Math.abs(0 - MIN_VALUE) == MIN_VALUE` |
| Types.IntToStringInjective | src/main/java/com/api/backend/service/GameShipService.java:225 | distinct integers have distinct `Integer.toString` forms |
| Types.GridKeyInjective | src/main/java/com/api/backend/service/GameShipService.java:225 | two coordinates have the same `row-col` key exactly when they are the same coordinate |
| Entities.IndexOf | src/main/java/com/api/backend/entity/GamePlayerEntity.java:54 | the position of the first occurrence of an element that is present |
| Entities.RemoveFirst | src/main/java/com/api/backend/entity/GamePlayerEntity.java:54 | `List.remove(Object)`: an absent element leaves the list as it is; a present one makes it one shorter |
| Entities.RemoveFirstSplits | src/main/java/com/api/backend/entity/GamePlayerEntity.java:54 | the removal cuts the list at the first occurrence and keeps everything else in order |
| Entities.RemoveFirstOneCopy | src/main/java/com/api/backend/entity/GamePlayerEntity.java:53-56 | removing a present element drops exactly one copy of it (as multisets) |
| Entities.RemoveFirstAfterAppend | src/main/java/com/api/backend/entity/GamePlayerEntity.java:45-56 | adding an element that was absent and then removing it gives back the list |
| Entities.Player.constructor | src/main/java/com/api/backend/service/PlayerService.java:102-105 | a new player carries its name and both flags as given |
| Entities.Cell.constructor | src/main/java/com/api/backend/service/GameGridService.java:89-93 | a new grid cell carries its coordinate, value and owner and has no ship |
| Entities.GameShip.constructor | src/main/java/com/api/backend/service/GameShipService.java:245-249 | a new game ship has its template, status and owner and no cells |
| Entities.GameShip.AddGameShipGrid | src/main/java/com/api/backend/entity/GameShipEntity.java:50-56 | the cell is appended to the ship's cells and points back at the ship |
| Entities.GameShip.RemoveGameShip | src/main/java/com/api/backend/entity/GameShipEntity.java:58-61 | the first copy of the cell is removed; the cell's back-reference is set to this ship, not cleared |
| Entities.GamePlayer.constructor | src/main/java/com/api/backend/service/GameService.java:211-217 | populateGamePlayer: a new unsaved side of the player with an empty fleet and an empty board |
| Entities.GamePlayer.AddGameShip | src/main/java/com/api/backend/entity/GamePlayerEntity.java:45-51 | the ship is appended to the fleet and points back at the side |
| Entities.GamePlayer.RemoveGameShip | src/main/java/com/api/backend/entity/GamePlayerEntity.java:53-56 | the first copy of the ship is removed; the back-reference is set to this side |
| Entities.GamePlayer.AddGameBoard | src/main/java/com/api/backend/entity/GamePlayerEntity.java:58-64 | the cell is appended to the board and points back at the side |
| Entities.GamePlayer.RemoveGameBoard | src/main/java/com/api/backend/entity/GamePlayerEntity.java:66-69 | the first copy of the cell is removed; the back-reference is set to this side |
| Entities.GamePlayer.MapGameShipToGameGrid | src/main/java/com/api/backend/entity/GamePlayerEntity.java:73-77 | a non-null ship gets the cell appended and nothing else changes; the cell is not updated |
| Entities.Game.constructor | src/main/java/com/api/backend/service/GameService.java:259-264 | a new game between the two sides: the first side on turn, ongoing, no winner, no id yet |
| Entities.Game.GetOpponent | src/main/java/com/api/backend/entity/GameEntity.java:53-60 | player2 when player1 is on turn, player1 when player2 is on turn, null otherwise |
| Entities.OpponentIsOtherSide | src/main/java/com/api/backend/entity/GameEntity.java:53-60 | with two distinct sides and one of them on turn, the opponent is the other side |
| Ships.GetShips | src/main/java/com/api/backend/service/GameShipService.java:108-111 | one listing entry per catalog ship, in catalog order, with its id, name and length |
| Ships.GetShipByShipId | src/main/java/com/api/backend/service/GameShipService.java:120-124 | the catalog entry with the id, or the "does not exist" failure exactly when there is none |
| Ships.GetShipByShipIdFinds | src/main/java/com/api/backend/service/GameShipService.java:120-124 | in a catalog keyed by id the lookup returns exactly the entry with that id |
| Ships.ValidateShip | src/main/java/com/api/backend/service/GameShipService.java:133-141 | no coordinates, then unknown id, then a length mismatch, in that order; passing means a catalog entry of that id has that length |
| Ships.ValidateShipAccepts | src/main/java/com/api/backend/service/GameShipService.java:133-141 | a catalog ship passes exactly when it has coordinates and as many as its length |
| Ships.AreAdjacent | src/main/java/com/api/backend/service/GameShipService.java:184-213 | the loop returns true exactly when every step is horizontal or every step is vertical |
| Ships.IsHorizontalPairwise | src/main/java/com/api/backend/service/GameShipService.java:195-200 | the horizontal flag survives exactly when every consecutive pair passes the horizontal test |
| Ships.IsVerticalPairwise | src/main/java/com/api/backend/service/GameShipService.java:201-205 | the vertical flag survives exactly when every consecutive pair passes the vertical test |
| Ships.StepOnBoard | src/main/java/com/api/backend/service/GameShipService.java:195-205 | on the board a step passes exactly when it stays in the line and moves by at most one |
| Ships.RowRunIsStraight | src/main/java/com/api/backend/service/GameShipService.java:184-213 | consecutive cells of one row, left to right, are accepted |
| Ships.ColumnRunIsStraight | src/main/java/com/api/backend/service/GameShipService.java:184-213 | consecutive cells of one column, top to bottom, are accepted |
| Ships.ShortShipIsStraight | src/main/java/com/api/backend/service/GameShipService.java:190-195 | ships of zero or one coordinate are always accepted |
| Ships.GapIsNotStraight | src/main/java/com/api/backend/service/GameShipService.java:197-205 | a gap of two rows is rejected |
| Ships.OutOfOrderRowIsNotStraight | src/main/java/com/api/backend/service/GameShipService.java:197-205 | three cells of a row submitted out of order are rejected |
| Ships.RepeatedCellIsStraight | src/main/java/com/api/backend/service/GameShipService.java:197-205 | a repeated coordinate is a step of zero and is accepted |
| Ships.SentinelSkipsCheck | src/main/java/com/api/backend/service/GameShipService.java:188-195 | after a coordinate with row -1 the next step is not checked |
| Ships.WrappedDistancePasses | src/main/java/com/api/backend/service/GameShipService.java:197 | a jump from column 0 to column MIN_VALUE passes because of the wrap-around |
| Ships.KeysStep | src/main/java/com/api/backend/service/GameShipService.java:225-231 | the key set holds a coordinate's key exactly when the coordinate was seen, and adding one adds its key |
| Ships.AreShipLocationsOverlapping | src/main/java/com/api/backend/service/GameShipService.java:221-235 | true exactly when some coordinate occurs twice among all submitted coordinates |
| Ships.RepeatWithinShipOverlaps | src/main/java/com/api/backend/service/GameShipService.java:221-235 | a coordinate listed twice by one ship is an overlap |
| Ships.SharedCellOverlaps | src/main/java/com/api/backend/service/GameShipService.java:221-235 | a coordinate shared by two ships is an overlap |
| Ships.AreShipLocationsNotAdjacent | src/main/java/com/api/backend/service/GameShipService.java:167-176 | true exactly when some ship is not straight |
| Ships.ValidateGameShipGrids | src/main/java/com/api/backend/service/GameShipService.java:149-159 | overlap is reported before a bent ship; passes exactly when there is no overlap and every ship is straight |
| Ships.MapToGameShipEntity | src/main/java/com/api/backend/service/GameShipService.java:244-256 | a known id gives a new NOT_SUNK ship of that template with no cells, owned by the side and appended to its fleet; an unknown id changes nothing |
| Ships.UpdateGameShipStatus | src/main/java/com/api/backend/service/GameShipService.java:264-275 | a ship whose cells are all attacked becomes SUNK and is appended to the side's fleet again; otherwise nothing changes |
| Board.GridLocation | src/main/java/com/api/backend/service/GameGridService.java:87-93 | the k-th cell in row-major order lies on the board at row k/10, column k%10 |
| Board.FirstWithTemplate | src/main/java/com/api/backend/service/GameGridService.java:100-103 | the fleet ship found for a catalog id has that id; null exactly when no fleet ship has it |
| Board.FirstWithTemplateIsFirst | src/main/java/com/api/backend/service/GameGridService.java:100-103 | the search returns the earliest fleet ship of the id |
| Board.LinksInFleet | src/main/java/com/api/backend/service/GameGridService.java:96-107 | every ship a cell gets linked to belongs to the side's fleet |
| Board.LastLink | src/main/java/com/api/backend/service/GameGridService.java:105 | a cell ends up pointing at one of its links, or at none exactly when it has none |
| Board.LinkRequest | src/main/java/com/api/backend/service/GameGridService.java:97-110 | the inner loop for one request: if the request lists the cell and the fleet has its id, the cell and that ship are linked once; otherwise nothing changes |
| Board.LinkCell | src/main/java/com/api/backend/service/GameGridService.java:96-112 | after all requests the cell points at its last link, and each ship got one copy of the cell per request linking them |
| Board.AddCell | src/main/java/com/api/backend/service/GameGridService.java:89-113 | one new NOT_ATTACKED cell of the side at the next row-major coordinate is linked and appended to the board |
| Board.PopulateRow | src/main/java/com/api/backend/service/GameGridService.java:88-114 | the ten cells of one row are appended in column order |
| Board.PopulateGameBoard | src/main/java/com/api/backend/service/GameGridService.java:83-117 | 100 new cells are appended in row-major order, each linked as its requests say; every ship gets its cells in board order; the returned list is empty |
| Board.AppendedSingleRequest | src/main/java/com/api/backend/service/GameGridService.java:96-107 | a ship submitted alone receives one cell per board position its request lists |
| Board.ShipReceivesListedCells | src/main/java/com/api/backend/service/GameGridService.java:83-117 | a ship submitted alone receives one cell per distinct on-board coordinate, so a ship of N distinct on-board coordinates receives N cells |
| Board.UnlistedCellHasNoShip | src/main/java/com/api/backend/service/GameGridService.java:96-112 | a coordinate that no request lists stays without a ship |
| Board.FindCell | src/main/java/com/api/backend/service/GameGridService.java:145-150 | the cell found matches the coordinate and owner; null exactly when no board cell does |
| Board.FindCellIsFirst | src/main/java/com/api/backend/service/GameGridService.java:146-150 | the search stops at the earliest matching cell |
| Board.ValidateGameBoardCoordinate | src/main/java/com/api/backend/service/GameGridService.java:127-133 | a missing cell fails, then an attacked one; passes exactly for an existing cell not yet attacked |
| Board.UpdateGameBoardCoordinate | src/main/java/com/api/backend/service/GameGridService.java:166-170 | the cell becomes ATTACKED and is appended to the side's board again |
| Board.ValidateAndSaveGrid | src/main/java/com/api/backend/service/GameGridService.java:144-157 | a missing or attacked cell fails with nothing changed; otherwise the cell is attacked and its ship (null for a miss) returned |
| Players.NonBreakingSpaceIsText | src/main/java/com/api/backend/service/PlayerService.java:88 | empty and all-whitespace names are rejected; a non-breaking space counts as text |
| Players.FindByName | src/main/java/com/api/backend/service/PlayerService.java:117-119 | the player found has the name; null exactly when none has it |
| Players.Unlocked | src/main/java/com/api/backend/service/PlayerService.java:75-78 | exactly the players that are not locked |
| Players.UnlockedAppend | src/main/java/com/api/backend/service/PlayerService.java:75-78 | the listing keeps repository order |
| Players.PlayerService.constructor | src/main/java/com/api/backend/service/PlayerService.java:43-48 | an empty player table satisfies the unique-name invariant |
| Players.PlayerService.FetchPlayerByPlayerName | src/main/java/com/api/backend/service/PlayerService.java:117-119 | a registered player with the name, or null exactly when there is none |
| Players.PlayerService.LookupFindsEach | src/main/java/com/api/backend/service/PlayerService.java:117-119 | with unique names the lookup finds each registered player |
| Players.PlayerService.FetchAllPlayersWhoAreNotLocked | src/main/java/com/api/backend/service/PlayerService.java:75-78 | every listed player is registered and free, and every free player is listed |
| Players.PlayerService.FetchAllAvailablePlayers | src/main/java/com/api/backend/service/PlayerService.java:126-133 | the free players; NO_PLAYERS exactly when every player is locked |
| Players.PlayerService.ValidatePlayer | src/main/java/com/api/backend/service/PlayerService.java:142-152 | unknown, then not joined, then already playing, fail in that order; otherwise the joined, free player |
| Players.PlayerService.ValidatePlayerAdmits | src/main/java/com/api/backend/service/PlayerService.java:142-152 | a name is admitted exactly when its player has joined and is not playing |
| Players.PlayerService.CreatePlayer | src/main/java/com/api/backend/service/PlayerService.java:86-109 | empty name, then in game, then already joined, fail with nothing changed; a free player is locked; a new name is registered locked and not playing; names stay unique and the joined player passes validatePlayer |
| Games.IsGameOver | src/main/java/com/api/backend/service/GameService.java:350-358 | a side without ships is over; a side that is not over has a ship afloat |
| Games.ConvertToGamePlayResponse | src/main/java/com/api/backend/service/GameService.java:325-342 | the game id; the winner's id exactly when there is a winner; the hit ship's name and status exactly when a ship was hit |
| Games.GridsError | src/main/java/com/api/backend/service/GameShipService.java:149-159 | no failure exactly for a valid placement; overlap takes precedence |
| Games.FirstShipError | src/main/java/com/api/backend/service/GameService.java:230-235 | no failure exactly when every ship passes validateShip; otherwise the failure of the earliest ship that does not |
| Games.ShipsError | src/main/java/com/api/backend/service/GameService.java:226-237 | no failure exactly when the placement is valid and every ship passes; placement failures come first |
| Games.FirstShipErrorFrom | src/main/java/com/api/backend/service/GameService.java:230-235 | ships that already passed do not change which ship fails first |
| Games.BoardMakesSide | src/main/java/com/api/backend/service/GameService.java:188-191 | a fleet built from a submission and the board then populated make up the side it describes, with every board link inside the fleet |
| Games.ReleasePlayers | src/main/java/com/api/backend/service/GameService.java:306-309 | both players stop playing and leave the joined state |
| Games.GameService.constructor | src/main/java/com/api/backend/service/GameService.java:71-83 | empty tables, the first game-player id is 1, and the table invariant holds |
| Games.GameService.FetchGameByGameId | src/main/java/com/api/backend/service/GameService.java:143-153 | a malformed id fails; otherwise the stored game, or null exactly when none has the id |
| Games.GameService.FetchGameDetails | src/main/java/com/api/backend/service/GameService.java:127-135 | the stored game; a malformed id is a validation failure and an unknown one an application failure |
| Games.GameService.FetchedGameHasId | src/main/java/com/api/backend/service/GameService.java:143-153 | a game found by an id carries that id |
| Games.GameService.FetchGamePlayerByGamePlayerId | src/main/java/com/api/backend/service/GameService.java:161-163 | the stored game player with the id, of any game, or null exactly when there is none |
| Games.GameService.TurnGame | src/main/java/com/api/backend/service/GameService.java:279-282 | the game of a play request, null exactly for a malformed or unknown id |
| Games.GameService.Attack | src/main/java/com/api/backend/service/GameService.java:292-299 | the attacked cell and the hit ship change as validateAndSaveGrid and updateGameShipStatus say: the cell is marked attacked, keeps its ship, belongs to the opponent and is appended to the opponent's board, and the ship keeps its cells; a ship sinks exactly when its other cells were all attacked; nothing else changes; the tables stay valid |
| Games.GameService.EndTurn | src/main/java/com/api/backend/service/GameService.java:301-313 | the player on turn wins exactly when the opponent has no ship afloat, which frees both players; the turn passes to the opponent; the tables stay valid |
| Games.GameService.Play | src/main/java/com/api/backend/service/GameService.java:292-315 | the attack and the end of turn, with the response, as the two-state predicate TurnPlayed describes (the attacked cell belongs to the opponent, the hit ship keeps its cells); the tables stay valid |
| Games.GameService.PlayerTurn | src/main/java/com/api/backend/service/GameService.java:276-316 | unknown game, then unknown player, then not on turn, fail in that order; a request that passes plays the turn against the other side as TurnPlayed describes; the tables stay valid |
| Games.GameService.ValidateAndPopulateGameShip | src/main/java/com/api/backend/service/GameService.java:226-237 | fails exactly with ShipsError; otherwise one new NOT_SUNK ship per request, in order, of the requested template, appended to the side's fleet |
| Games.GameService.PopulateGameShips | src/main/java/com/api/backend/service/GameService.java:230-235 | the loop: fails exactly with FirstShipError; otherwise one new ship per request in order |
| Games.GameService.SideError | src/main/java/com/api/backend/service/GameService.java:182-191 | a submission fails its player check first and its fleet checks second |
| Games.GameService.CreationError | src/main/java/com/api/backend/service/GameService.java:179-194 | no failure exactly when every submission passes; otherwise the failure of the earliest failing submission |
| Games.GameService.SamePlayerTwice | src/main/java/com/api/backend/service/GameService.java:179-194 | naming the same player twice always fails, with the already-playing error when the first submission passes |
| Games.GameService.Named | src/main/java/com/api/backend/service/GameService.java:182 | the player a submission names carries that name |
| Games.GameService.CreateGame | src/main/java/com/api/backend/service/GameService.java:172-203 | a count other than two fails and changes nothing, the named players included; then the first failing submission's error: a failing first submission changes nothing, a failing second one leaves the first side saved under the next id with its player playing and locked; then a missing id fails with both sides saved under consecutive ids; otherwise a new ongoing game between the two new sides, the first on turn, both players playing, each side built as its submission describes; the tables stay valid |
| Games.GameService.CreateSides | src/main/java/com/api/backend/service/GameService.java:178-194 | the loop: fails exactly with CreationError, changing nothing when the first submission fails and keeping the first side saved when the second fails; otherwise two new sides for two different players, saved under consecutive ids |
| Games.GameService.AddSide | src/main/java/com/api/backend/service/GameService.java:180-193 | one pass of the loop keeps the loop state and fails exactly with the submission's error, and a failing pass changes neither the tables nor the player it names |
| Games.GameService.AddFirstSide | src/main/java/com/api/backend/service/GameService.java:180-193 | the first pass leaves the second submission's checks as they were; when it fails it changes neither the tables nor the player it names |
| Games.GameService.AddSecondSide | src/main/java/com/api/backend/service/GameService.java:180-193 | the second pass; a player the first pass named is by then playing; when it fails the first side stays saved and neither the tables nor the player it names change |
| Games.GameService.CreateSide | src/main/java/com/api/backend/service/GameService.java:180-193 | a failure changes nothing; otherwise the side is built, its player marked playing, and the side saved under the next id |
| Games.GameService.BuildSide | src/main/java/com/api/backend/service/GameService.java:184-191 | fails exactly with ShipsError; otherwise a new unsaved side of the player with the fleet and board the submission describes |
| Games.GameService.PopulateGameBoard | src/main/java/com/api/backend/service/GameService.java:247-251 | the board of a side whose fleet was just built makes the side its submission describes; the returned list is empty |
| Games.GameService.SaveSide | src/main/java/com/api/backend/service/GameService.java:192-193 | the player is marked playing and the side saved under the next id; the tables stay valid |
| Games.GameService.StoreSide | src/main/java/com/api/backend/service/GameService.java:193 | the side is stored under the next id and the id counter advances |
| Games.GameService.PopulateGame | src/main/java/com/api/backend/service/GameService.java:259-267 | a new ongoing game of the first two sides, the first on turn, stored under the assigned id when there is one |
| Games.GameService.SaveGame | src/main/java/com/api/backend/service/GameService.java:196 | populateGame on the two new sides keeps the tables valid |
| Games.GameService.GameStored | src/main/java/com/api/backend/service/GameService.java:265 | storing a new valid game between two saved sides keeps the tables valid |
| Games.GameService.SideAdded | src/main/java/com/api/backend/service/GameService.java:193 | saving a new side keeps the tables valid |

## Left out

- The ModelMapper conversions between entities and DTOs (`convertToDTO`, `convertToEntity` and the like) are left out; the model works on the entities directly. The `GameDTO` mapping configuration is left out with them.
- Caching (`@Cacheable`, `@CacheEvict`) is left out; it does not change what an operation computes.
- Logging and the message texts read from the environment are left out; each failure is an `Error` value naming the message key and the id or name the message includes.
- `IsJavaWhitespace` follows `Character.isWhitespace` as Java 9 and later define it; the Java release the project builds with is not part of this model, and on releases before 9 U+180E would also count as whitespace.
- Transaction rollback (`@Transactional`) is not modelled. When the second submission of `createGame` fails, the first side stays saved and its player stays marked as playing. A failed turn keeps no change, because every failure comes before the first update.
- Games.GameService.CreateGame: the repository's generated game id is the parameter `newGameId`. The case where the id comes back absent is that parameter being `None`.
- `UUID.fromString` is the function `parseId`, a parameter of the service. Its parsing rules are not modelled.
- The game creation date (a clock reading) is left out.
- The repositories' `save` calls on already-stored entities are left out. They do not change the tables of the model.
- Ships.MapToGameShipEntity: the catch block that prints the stack trace and returns an unattached entity is modelled as returning null. It cannot be reached after `validateShip` has passed.
- Entities.GamePlayer.RemoveGameShip, Entities.GamePlayer.RemoveGameBoard, Entities.GameShip.RemoveGameShip and Entities.GamePlayer.MapGameShipToGameGrid: the Java versions throw `NullPointerException` on a list that was never created. The model treats that list as empty.
- Entities.RemoveFirst: its own contract states only the length. The element-by-element effect is the separate lemma `Entities.RemoveFirstSplits`.
- Games.GameService.PopulateGameBoard: stated for the one call `createGame` makes, on a fresh side whose fleet was just built from the same submission. The service method's behaviour for any input is `Board.PopulateGameBoard`.
- Bean validation of the request objects, the HTTP controllers, security, the data loader and the exception handler are outside this model.
- The `ShipRepository` ship table is the constant `catalog`. `PlayerEntity.gamePlayers` is not modelled.
