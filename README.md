# TicTacToe game core in Dafny

This project models the core of a tic-tac-toe backend:

- **Rules of the board.** `BoardEvaluator` decides the winner and whether the game is a draw.
- **The engine.** `TicTacToeAiEngine` picks the AI's cell by full minimax search.
- **Moves.** `MoveService` validates a move, appends it to the move log, rebuilds the board from the log, recomputes the status and renders the board.
- **Game lifecycle.** `GameService` creates and joins games, keeps one active game per player, and runs games against the AI player, whose name is `AI_BOT`.

Each part keeps the form of its source:

- **BoardEvaluator** is pure: functions, with lemmas about them.
  - `Winner` keeps the stream's exact semantics. It takes the first line-start cell, in line-table order, whose symbol completes *some* line. The contract proves that a winner exists iff a symbol owns a line.
- **TicTacToeAiEngine** is imperative.
  - `Minimax` and `ComputeBestMove` work on a `char` array. They simulate a move in place, recurse, and undo it.
  - Both are proved against the functions `Score`/`Best`. The proof shows the array is restored and the result equals the recursive score.
  - `ScoreIsMinimax` proves that `Score` is the minimax value over the children.
  - `ComputeBestMove` returns -1 exactly on finished boards. Otherwise it returns an empty cell of maximal score, and ties go to the lowest index (the strict `>`).
- **The repositories** are one mutable `Store` class. The two services are module-level methods that take the `Store` as a parameter.
  - Game rows live in a `map`, the move log in a `seq`, player names in a `seq` (player id = index).
  - The service methods modify the store. They state its whole new state, except for the AI's reply. There the contracts fix the player table and the error, and state the new rows and the log through `AiReplied`.
  - The invariant `Store.Valid` ties every game row to the board rebuilt from the log:
    - a move's cell is never taken twice in one game;
    - a game has an opponent iff it is no longer waiting;
    - an active game has neither a winner nor a full board;
    - a DRAW game's board is full.
  - Every operation preserves the invariant.

The error order of `playMove` is modelled check by check, as `MoveService.MoveError`:

1. NotFound for a missing game;
2. Forbidden for a non-participant;
3. Conflict for a game that is won or still waiting;
4. Forbidden for a move out of turn;
5. Conflict for a taken cell.

A consequence is proved: under `PLAYER_X_TURN` only X may move, and under `PLAYER_O_TURN` and DRAW only O. Under X_WON, O_WON and WAITING_FOR_OPPONENT nobody may move (Conflict). A DRAW game therefore reaches the taken-cell check. Under the invariant every cell of a DRAW game is taken, so such a move is always rejected.

`joinGame`'s self-join `IllegalArgumentException` is unreachable:

- If the game is waiting, it is an active game of its initiator, so `PlayerAlreadyInGame` fires first.
- Otherwise `IllegalStateException` fires.

`JoinGame` states this as a postcondition.

`playMoveVsAi` and `createGameVsAi` call the engine on the joined string of the rendered board (`null` becomes "_"). `GameService.EngineAgrees` proves that the engine's own line and fullness tests agree with `BoardEvaluator` on that string. As a result:

- In a running game the engine always returns a cell. Its `-1` branch is unreachable after a move that leaves the game running.
- On the empty board the engine's opening move for X is always accepted.

Both methods are one transaction. When the AI's move is rejected, `PlayMoveVsAi` rolls back the human's move and any AI player it registered. The rejection happens in a game the first `AI_BOT` is not part of, or when it is not the AI's turn, and its error is always Forbidden. The engine's cell is always empty, so Conflict cannot arise.

## Model

| member | source | states |
|---|---|---|
| Model.Name | src/main/java/com/personio/tictactoe/service/MoveService.java:125 | `name()` of a symbol is the one-letter string "X" or "O", never "_" |
| Model.EmptyBoard | src/main/java/com/personio/tictactoe/service/MoveService.java:98 | the starting board has nine `null` cells |
| Model.IsActive | src/main/java/com/personio/tictactoe/service/GameService.java:27-31 | a status is active iff it is WAITING_FOR_OPPONENT, PLAYER_X_TURN or PLAYER_O_TURN, that is, iff the game is neither won nor drawn |
| BoardEvaluator.WinLinesAreLines | src/main/java/com/personio/tictactoe/util/BoardEvaluator.java:12-16 | the line table holds eight distinct lines: the three rows, the three columns and the two diagonals |
| BoardEvaluator.WinnerFrom | src/main/java/com/personio/tictactoe/util/BoardEvaluator.java:21-29 | from line `k` on, the result is the symbol at the start of the first line whose start symbol owns some line; it is present iff such a line exists |
| BoardEvaluator.Winner | src/main/java/com/personio/tictactoe/util/BoardEvaluator.java:21-29 | a returned symbol owns a complete line; the result is empty iff neither symbol owns a line |
| BoardEvaluator.OwnerIsCandidate | src/main/java/com/personio/tictactoe/util/BoardEvaluator.java:21-29 | a symbol that owns a line is found by the scan over line starts |
| BoardEvaluator.WinnerUnique | src/main/java/com/personio/tictactoe/util/BoardEvaluator.java:21-29 | when exactly one symbol owns a line, that symbol is the winner |
| BoardEvaluator.EmptyBoardHasNoWinner | src/main/java/com/personio/tictactoe/util/BoardEvaluator.java:21-29 | the empty board has no winner |
| BoardEvaluator.SingleMarkNoWinner | src/main/java/com/personio/tictactoe/util/BoardEvaluator.java:21-29 | a board with one mark has no winner |
| BoardEvaluator.PlacingOnlyMoverWins | src/main/java/com/personio/tictactoe/util/BoardEvaluator.java:21-29 | a move in an empty cell of an unwon board can make only the mover the winner |
| BoardEvaluator.IsDraw | src/main/java/com/personio/tictactoe/util/BoardEvaluator.java:31-33 | a draw iff every cell is occupied and neither symbol owns a line |
| BoardEvaluator.DrawExcludes | src/main/java/com/personio/tictactoe/util/BoardEvaluator.java:31-33 | a board with an empty cell, or with a winner, is not a draw |
| AiEngine.Opponent | src/main/java/com/personio/tictactoe/ai/TicTacToeAiEngine.java:9 | the minimising symbol is X or O and differs from the maximising one; for an X or O player the two are {X, O} |
| AiEngine.FillDecreases | src/main/java/com/personio/tictactoe/ai/TicTacToeAiEngine.java:41-47 | filling an empty cell lowers the search's termination measure |
| AiEngine.Score | src/main/java/com/personio/tictactoe/ai/TicTacToeAiEngine.java:33-52 | every score is +1000000000, -1000000000 or 0 |
| AiEngine.Best | src/main/java/com/personio/tictactoe/ai/TicTacToeAiEngine.java:38-51 | after a loop that met an empty cell the best is a real score; with no empty cell it is still `Integer.MIN_VALUE`/`MAX_VALUE` |
| AiEngine.BestIsExtremum | src/main/java/com/personio/tictactoe/ai/TicTacToeAiEngine.java:38-51 | the loop's best bounds every empty cell's child score (from above on the AI's turn, below otherwise) and one empty cell attains it |
| AiEngine.ScoreIsMinimax | src/main/java/com/personio/tictactoe/ai/TicTacToeAiEngine.java:33-52 | on an unfinished board the score is the max (AI to move) or min (opponent to move) of the children's scores, attained by an empty cell |
| AiEngine.IsWinner | src/main/java/com/personio/tictactoe/ai/TicTacToeAiEngine.java:59-69 | true iff the symbol fills one of the eight lines |
| AiEngine.IsFull | src/main/java/com/personio/tictactoe/ai/TicTacToeAiEngine.java:54-57 | true iff no cell is '_' |
| AiEngine.Minimax | src/main/java/com/personio/tictactoe/ai/TicTacToeAiEngine.java:33-52 | returns the minimax score of the board and leaves the array as it found it |
| AiEngine.TryCell | src/main/java/com/personio/tictactoe/ai/TicTacToeAiEngine.java:21-23 | playing an empty cell, scoring the board and undoing the move gives that cell's move score and leaves the array as it was |
| AiEngine.BestEmptyCell | src/main/java/com/personio/tictactoe/ai/TicTacToeAiEngine.java:15-30 | returns an empty cell of maximal move score, and every earlier empty cell scores strictly lower; the array is restored |
| AiEngine.ComputeBestMove | src/main/java/com/personio/tictactoe/ai/TicTacToeAiEngine.java:5-31 | IllegalArgument iff the board is not nine characters; -1 iff a side has a line or the board is full; otherwise the lowest-index empty cell of maximal score |
| Store.MovesOf | src/main/java/com/personio/tictactoe/repository/MoveRepository.java:12 | exactly the logged moves of the game; their log order is stated by `Store.MovesOfAppend` |
| Store.Fold | src/main/java/com/personio/tictactoe/service/MoveService.java:97-101 | writing moves into nine empty slots gives a nine-cell board |
| Store.BoardOf | src/main/java/com/personio/tictactoe/service/MoveService.java:97-101 | the board of a game has nine cells |
| Store.MovesOfAppend | src/main/java/com/personio/tictactoe/service/MoveService.java:47 | appending a move to the log appends it to its own game's moves only |
| Store.MovesOfDistinct | src/main/java/com/personio/tictactoe/service/MoveService.java:42-43 | with one move per cell in the log, one game's moves use distinct cells |
| Store.FoldOccupied | src/main/java/com/personio/tictactoe/service/MoveService.java:97-101 | a slot is filled iff some move names it |
| Store.FoldHoldsMove | src/main/java/com/personio/tictactoe/service/MoveService.java:97-101 | with distinct cells, each move's slot holds that move's symbol, whatever the log order |
| Store.BoardOfCell | src/main/java/com/personio/tictactoe/service/MoveService.java:97-101 | a cell of a game's board holds `s` iff the log has that game's move with `s` in that cell |
| Store.BoardOfOccupied | src/main/java/com/personio/tictactoe/service/MoveService.java:97-101 | a cell of a game's board is occupied iff the log has a move of that game in that cell |
| Store.AppendMoveBoard | src/main/java/com/personio/tictactoe/service/MoveService.java:47-50 | saving a move writes its cell on its game's board and leaves every other game's board unchanged |
| Store.NoMovesEmptyBoard | src/main/java/com/personio/tictactoe/service/MoveService.java:97-101 | a game without moves has the empty board |
| Store.Store.constructor | src/main/java/com/personio/tictactoe/repository/GameRepository.java:14 | an empty store is consistent |
| Store.Store.FindGame | src/main/java/com/personio/tictactoe/repository/GameRepository.java:16-18 | the row of the id, or nothing when there is none |
| Store.Store.ExistsActiveGameForPlayer | src/main/java/com/personio/tictactoe/repository/GameRepository.java:22-29 | under the invariant, a player with an active game takes part in a game whose board has no winner and is not full |
| Store.Store.InsertGame | src/main/java/com/personio/tictactoe/service/GameService.java:51 | a new row gets the next id; nothing else changes |
| Store.Store.UpdateGame | src/main/java/com/personio/tictactoe/service/GameService.java:75 | replaces one row; nothing else changes |
| Store.Store.FindByGameId | src/main/java/com/personio/tictactoe/repository/MoveRepository.java:12 | a move is returned iff it is logged for that game |
| Store.Store.ExistsByGameIdAndMovementIndex | src/main/java/com/personio/tictactoe/repository/MoveRepository.java:10 | true iff the cell of the game's rebuilt board is occupied |
| Store.Store.SaveMove | src/main/java/com/personio/tictactoe/service/MoveService.java:47 | the move is appended to the log; nothing else changes |
| Store.Store.FindPlayer | src/main/java/com/personio/tictactoe/service/GameService.java:44-45 | the player of the id, or nothing for an unknown id |
| Store.Store.FindPlayerByName | src/main/java/com/personio/tictactoe/repository/PlayerRepository.java:10 | present iff some player has the name; then it is the lowest-id such player |
| Store.FirstNamed | src/main/java/com/personio/tictactoe/repository/PlayerRepository.java:10 | the lowest-id player from `i` on with the name, present iff one exists |
| Store.Store.InsertPlayer | src/main/java/com/personio/tictactoe/service/GameService.java:163 | the new player gets the next id and the name; nothing else changes |
| Store.Store.Restore | src/main/java/com/personio/tictactoe/service/GameService.java:24 | a failed transaction puts back every field of the store |
| MoveService.ResolvePlayer | src/main/java/com/personio/tictactoe/service/MoveService.java:64-73 | Forbidden iff the player is neither initiator nor opponent; the initiator is matched first |
| MoveService.GetPlayerSymbol | src/main/java/com/personio/tictactoe/service/MoveService.java:75-77 | the initiator plays X, the opponent O |
| MoveService.ValidateTurn | src/main/java/com/personio/tictactoe/service/MoveService.java:79-95 | Conflict iff won or waiting; otherwise Forbidden iff the other symbol is to move (X only under PLAYER_X_TURN, O under PLAYER_O_TURN and DRAW); accepted otherwise |
| MoveService.MoveError | src/main/java/com/personio/tictactoe/service/MoveService.java:35-44 | NotFound iff the game is missing; otherwise Forbidden for a non-participant whatever the status, then `validateTurn`'s error, then Conflict for a taken cell; the move is accepted iff the player takes part, `validateTurn` passes and the cell of the rebuilt board is empty |
| MoveService.BuildBoard | src/main/java/com/personio/tictactoe/service/MoveService.java:97-101 | the array filled from the game's moves is the game's board; a cell is set iff a move of the game names it |
| MoveService.NextStatus | src/main/java/com/personio/tictactoe/service/MoveService.java:103-121 | X_WON/O_WON iff that symbol is the winner, DRAW iff a draw, else the turn flips from PLAYER_X_TURN to PLAYER_O_TURN and from any other status to PLAYER_X_TURN; never WAITING |
| MoveService.EvaluateAndUpdateStatus | src/main/java/com/personio/tictactoe/service/MoveService.java:103-121 | writes that status into the game's row and changes nothing else |
| MoveService.RenderCell | src/main/java/com/personio/tictactoe/service/MoveService.java:125 | `null` stays `null`, a symbol becomes its name |
| MoveService.Rendered | src/main/java/com/personio/tictactoe/service/MoveService.java:123-127 | cell by cell the rendering of the board |
| MoveService.BoardToString | src/main/java/com/personio/tictactoe/service/MoveService.java:123-127 | the appended list is the rendered board; each entry is `null`, "X" or "O" |
| MoveService.Val | src/main/java/com/personio/tictactoe/service/MoveService.java:129-131 | `null` and "_" print as one space, anything else as itself |
| MoveService.FormatRow | src/main/java/com/personio/tictactoe/service/MoveService.java:141-143 | the row's length is the three values' lengths plus six for the two " \| " separators; its content is stated by `MoveService.RowLayout` |
| MoveService.ToRowStrings | src/main/java/com/personio/tictactoe/service/MoveService.java:133-139 | three rows |
| MoveService.RowLayout | src/main/java/com/personio/tictactoe/service/MoveService.java:133-143 | each rendered row is nine characters: cell, " \| ", cell, " \| ", cell, with a space for an empty cell |
| MoveService.WinnerName | src/main/java/com/personio/tictactoe/service/MoveService.java:145-151 | the initiator's name for X_WON, the opponent's for O_WON, `null` otherwise |
| MoveService.MakeResponse | src/main/java/com/personio/tictactoe/service/MoveService.java:53-61 | the response holds the rendered board, its rows, the status and the winner's name |
| MoveService.NextStatusKeepsRow | src/main/java/com/personio/tictactoe/service/MoveService.java:103-121 | the recomputed status is consistent with the new board (no winner or full board while active, full under DRAW) |
| MoveService.AppendKeepsOneMovePerCell | src/main/java/com/personio/tictactoe/service/MoveService.java:42-47 | a move to a cell its game has not used keeps one move per cell |
| MoveService.RowsAfterMove | src/main/java/com/personio/tictactoe/service/MoveService.java:45-51 | after a move and the status update every row is consistent with its board |
| MoveService.MoveKeepsConsistent | src/main/java/com/personio/tictactoe/service/MoveService.java:42-51 | a validated move with its status update keeps the store invariant |
| MoveService.DrawIsOccupied | src/main/java/com/personio/tictactoe/service/MoveService.java:42-43 | in a DRAW game every cell is taken, so the taken-cell check rejects any move |
| MoveService.PlayMove | src/main/java/com/personio/tictactoe/service/MoveService.java:33-62 | fails exactly with `MoveError`'s error (NotFound, Forbidden for a non-participant, `validateTurn`'s error, Conflict for a taken cell) and then changes nothing; otherwise appends exactly the move, recomputes the status from the rebuilt board, keeps the invariant, never declares the other symbol the winner, and renders the new board |
| MoveService.ViewGame | src/main/java/com/personio/tictactoe/service/MoveService.java:153-168 | NotFound iff the game is missing; otherwise the rendering of the stored board with the stored status; nothing changes |
| GameService.IsGameRunning | src/main/java/com/personio/tictactoe/service/GameService.java:146-148 | running iff active and not waiting for an opponent |
| GameService.GetAiSymbol | src/main/java/com/personio/tictactoe/service/GameService.java:173-175 | the engine plays X iff the initiator is named AI_BOT, else O |
| GameService.ValidateGameJoining | src/main/java/com/personio/tictactoe/service/GameService.java:177-186 | IllegalState iff the game has an opponent or is not waiting; IllegalArgument iff otherwise the initiator joins; accepted otherwise |
| GameService.EngineBoard | src/main/java/com/personio/tictactoe/service/GameService.java:166-171 | the engine's view has one character per cell |
| GameService.Flatten | src/main/java/com/personio/tictactoe/service/GameService.java:167-169 | joining cells whose present strings are one character long gives one character per cell |
| GameService.FlattenRendered | src/main/java/com/personio/tictactoe/service/GameService.java:166-171 | joining the rendered board with `null` as "_" gives nine characters, '_' exactly at the empty cells |
| GameService.EngineAgrees | src/main/java/com/personio/tictactoe/ai/TicTacToeAiEngine.java:54-69 | the engine's line and fullness tests on that string agree with the evaluator's on the board |
| GameService.EngineTerminalIffFinished | src/main/java/com/personio/tictactoe/ai/TicTacToeAiEngine.java:12-13 | for an X or O player the engine returns -1 iff the evaluator sees a winner or a draw |
| GameService.EngineChoiceUnique | src/main/java/com/personio/tictactoe/ai/TicTacToeAiEngine.java:25-28 | the engine's pick is determined by the board and the symbol |
| GameService.NoCellsOpen | src/main/java/com/personio/tictactoe/service/GameService.java:107 | nine `null` cells join to the empty engine board, which is not finished for X |
| GameService.ComputeAiMoveIndex | src/main/java/com/personio/tictactoe/service/GameService.java:166-171 | passes the joined board to the engine with its guarantees (length error, -1 iff finished, best cell otherwise) |
| GameService.InsertKeepsConsistent | src/main/java/com/personio/tictactoe/service/GameService.java:47-51 | adding a row without moves that is consistent with the empty board keeps the invariant |
| GameService.UpdateKeepsConsistent | src/main/java/com/personio/tictactoe/service/GameService.java:72-75 | replacing a row by one consistent with its board keeps the invariant |
| GameService.RunningRejectsOnlyForbidden | src/main/java/com/personio/tictactoe/service/MoveService.java:65-93 | in a running game a move into an empty cell is accepted or rejected as Forbidden, never as Conflict or NotFound |
| GameService.GetOrCreateAiPlayer | src/main/java/com/personio/tictactoe/service/GameService.java:162-164 | returns the first player named AI_BOT; when one exists the player table is unchanged, and only when none exists is exactly one AI_BOT appended |
| GameService.CreateGame | src/main/java/com/personio/tictactoe/service/GameService.java:40-52 | PlayerAlreadyInGame if the initiator is in an active game, then IllegalArgument for an unknown player; otherwise exactly one new WAITING row with the next id |
| GameService.JoinGame | src/main/java/com/personio/tictactoe/service/GameService.java:59-76 | the four checks in source order; on success the game gets the opponent and PLAYER_X_TURN and nothing else changes; a self-join always fails before the initiator check |
| GameService.FirstMovePassesTurn | src/main/java/com/personio/tictactoe/service/MoveService.java:103-121 | after X's first move the status is PLAYER_O_TURN |
| GameService.PlayAiOpening | src/main/java/com/personio/tictactoe/service/GameService.java:106-114 | the engine's X move on the empty board is accepted; exactly that move is logged and the game becomes O's turn |
| GameService.CreateGameVsAi | src/main/java/com/personio/tictactoe/service/GameService.java:79-117 | the createGame errors; otherwise exactly one new row with the next id, human and AI seated by `humanPlaysFirst`, and when the AI begins exactly its engine-chosen X move is logged and O is to move; an AI_BOT is appended to the players only when none exists |
| GameService.PlayAiReply | src/main/java/com/personio/tictactoe/service/GameService.java:130-143 | on a running game the engine's pick is played by the first AI_BOT; accepted iff that player takes part and it is its turn; a rejection is Forbidden and changes no row or move; an AI_BOT is appended to the players only when none exists |
| GameService.PlayMoveVsAi | src/main/java/com/personio/tictactoe/service/GameService.java:119-144 | the human move's errors change nothing; a move that ends the game returns index -1; otherwise the AI replies with the engine's pick, accepted iff the first AI_BOT takes part and it is its turn, or the whole call is rolled back with Forbidden; the players gain at most one AI_BOT, and only when none existed |

## Left out

- **AiEngine.ComputeBestMove: a `null` board.** `computeBestMove` also throws IllegalArgumentException for a `null` board. A Dafny string cannot be null, so the model has no such case. Its only caller always passes the joined nine-cell string.
- **Concurrency.** The row lock of `findByIdForUpdate`, the `@Version` optimistic lock, and concurrent requests are not modelled. Each operation runs alone, as the sequential model of one transaction.
- **`DataIntegrityViolationException`.** The swallowed exception around `saveAndFlush` in `playMove` cannot arise in the sequential model. The taken-cell check before it already rejects a second move to the same cell.
- **Database unique constraints.** The constraint on `games.opponent_id` and the constraint on moves over (player, game, index) are not modelled. With the first, a player can be the opponent of at most one game ever, so a second human-first AI game or a second join by the same player would fail at commit.
- **Ids.** Generated ids are modelled as a counter starting at 0. Player ids are indices into the player list. The id of a move row is not modelled.
- **`creationDate`, the player statistics fields, `findAvailableGames`, and `PlayerService`:** not part of this model.
- **Controllers, DTO mapping and request validation** are not modelled. The movement index reaches `playMove` already in 0..8 (type `Cell`); a `null` index is not modelled.
- **Movement.java** is not part of this model. `Movement` is taken to be an enum with the constants X and O, whose names are "X" and "O".
- **Store.Store.FindPlayerByName: duplicate names.** When several players share a name, it returns the lowest id; Spring Data would throw for a non-unique result. Only `AI_BOT` is looked up by name, and `GetOrCreateAiPlayer` never registers a second one. `registerPlayer` accepts any name, though, `AI_BOT` included. The source's `findPlayerByName` then throws, while the model takes the lowest-id `AI_BOT`.
- **AiEngine: one line table.** The engine's private copy of the line table is the same table as `BoardEvaluator.WIN_LINES` and is modelled once, as `BoardEvaluator.WinLines`.
- **AiEngine: integer width.** Scores are unbounded integers. The only values are ±1000000000, 0 and the two `Integer` extremes, so no 32-bit overflow occurs.
- **AiEngine.ComputeBestMove: the score of the empty board.** The model does not compute the optimal score of the empty board; the full search tree is too large to unfold. It proves only that the pick is valid and optimal relative to `Score`.
- **GameService.PlayMoveVsAi: the `aiMove == -1` branch.** The branch taken after a running status is proved unreachable, so only the AI-moves path is modelled there.
- **GameService.CreateGameVsAi: the `aiMove != -1` test.** The test is proved always true.
- **GameService.CreateGameVsAi: return value.** It returns the new game's id rather than the re-read `Game` object. The postcondition states that row.
- **GameService.CreateGame: return value.** Likewise, it returns the id and states the row.
