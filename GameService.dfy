/**
 * GameService: creating and joining games, one active game per player, and
 * games against the engine (the human's move followed by the engine's).
 */
module GameService {
  import opened Wrappers
  import opened Model
  import opened Store
  import MoveService
  import AiEngine
  import BoardEvaluator

  /** The name of the engine's player. */
  const AiName: string := "AI_BOT"

  /** `AiMoveResponse`: the response after the last move and the engine's cell (-1 for none). */
  datatype AiResponse = AiResponse(response: MoveService.Response, aiMoveIndex: int)

  // ---------------------------------------------------------------------
  // Pure parts

  /** `isGameRunning`: an active status other than WAITING_FOR_OPPONENT, i.e. a turn is in progress. */
  function IsGameRunning(status: GameStatus): (r: bool)
    ensures r <==> IsActive(status) && status != WaitingForOpponent
  {
    status == PlayerXTurn || status == PlayerOTurn
  }

  /** `getAiSymbol`: the engine plays X exactly when it initiated the game. */
  function GetAiSymbol(g: Game): (c: char)
    ensures c == 'X' <==> g.initiator.name == AiName
    ensures c == 'O' <==> g.initiator.name != AiName
  {
    if g.initiator.name == AiName then 'X' else 'O'
  }

  /**
   * `validateGameJoining`: `None` when the join may go ahead. A game with
   * an opponent, or not waiting for one, is an IllegalState; the initiator
   * joining their own game is an IllegalArgument.
   */
  function ValidateGameJoining(g: Game, playerId: nat): (r: Option<Error>)
    ensures r == Some(IllegalState) <==> g.opponent.Some? || g.status != WaitingForOpponent
    ensures r == Some(IllegalArgument) <==>
              g.opponent.None? && g.status == WaitingForOpponent && g.initiator.id == playerId
    ensures r.None? <==> g.opponent.None? && g.status == WaitingForOpponent && g.initiator.id != playerId
  {
    if g.opponent.Some? then Some(IllegalState)
    else if g.status != WaitingForOpponent then Some(IllegalState)
    else if g.initiator.id == playerId then Some(IllegalArgument)
    else None
  }

  // ---------------------------------------------------------------------
  // The engine's view of a board

  /** The stream of `computeAiMoveIndex`: `null` becomes "_", the strings are joined. */
  function Flatten(cells: seq<Option<string>>): (r: string)
    // one character per cell when every present string is one character long
    ensures (forall i | 0 <= i < |cells| :: cells[i].None? || |cells[i].value| == 1) ==> |r| == |cells|
  {
    if cells == [] then ""
    else
      var last := cells[|cells| - 1];
      Flatten(cells[..|cells| - 1]) + (if last.None? then "_" else last.value)
  }

  /** The engine's character for a cell. */
  function EngineChar(c: Option<Movement>): char {
    match c
    case None => AiEngine.EmptyMark
    case Some(X) => 'X'
    case Some(O) => 'O'
  }

  /** A board as the engine sees it. */
  function EngineBoard(board: Board): (c: seq<char>)
    ensures |c| == |board| && forall i | 0 <= i < |board| :: c[i] == EngineChar(board[i])
  {
    seq(|board|, i requires 0 <= i < |board| => EngineChar(board[i]))
  }

  /** Joining a rendered board gives the engine's view of it: nine characters, '_' for the empty cells. */
  lemma {:induction false} FlattenRendered(board: Board)
    ensures Flatten(MoveService.Rendered(board)) == EngineBoard(board)
    decreases |board|
  {
    if board != [] {
      var init := board[..|board| - 1];
      var last := board[|board| - 1];
      FlattenRendered(init);
      var cells := MoveService.Rendered(board);
      assert cells[..|cells| - 1] == MoveService.Rendered(init);
      SomeMovement(last);
      assert EngineBoard(board) == EngineBoard(init) + [EngineChar(last)];
    }
  }

  /**
   * The engine's private `isWinner`/`isFull` agree with BoardEvaluator
   * under `null` <-> '_': a symbol has three in a line in the engine's view
   * iff it owns a line of the board, and the view is full iff the board is.
   */
  lemma EngineAgrees(board: Board)
    requires |board| == 9
    ensures AiEngine.HasLine(EngineBoard(board), 'X') <==> BoardEvaluator.Owns(board, X)
    ensures AiEngine.HasLine(EngineBoard(board), 'O') <==> BoardEvaluator.Owns(board, O)
    ensures AiEngine.Full(EngineBoard(board)) <==> BoardEvaluator.IsFull(board)
    ensures forall i | 0 <= i < 9 :: EngineBoard(board)[i] == AiEngine.EmptyMark <==> board[i].None?
  {
    var c := EngineBoard(board);
    forall i | 0 <= i < 9
      ensures c[i] == 'X' <==> board[i] == Some(X)
      ensures c[i] == 'O' <==> board[i] == Some(O)
      ensures c[i] == AiEngine.EmptyMark <==> board[i].None?
    {
      SomeMovement(board[i]);
    }
    forall k | 0 <= k < |BoardEvaluator.WinLines|
      ensures AiEngine.LineOf(c, 'X', k) <==> BoardEvaluator.Completes(board, X, k)
      ensures AiEngine.LineOf(c, 'O', k) <==> BoardEvaluator.Completes(board, O, k)
    {
    }
  }

  /**
   * So the engine returns -1 for an X or O player exactly on the boards
   * the evaluator calls won or drawn.
   */
  lemma EngineTerminalIffFinished(board: Board, sym: char)
    requires |board| == 9 && (sym == 'X' || sym == 'O')
    ensures AiEngine.Terminal(EngineBoard(board), sym) <==>
            BoardEvaluator.Winner(board).Some? || BoardEvaluator.IsDraw(board)
  {
    EngineAgrees(board);
  }

  /** `k` is the engine's pick on `c` for `sym`: the lowest-numbered empty cell of maximal score. */
  predicate EngineChoice(c: seq<char>, sym: char, k: int)
    requires |c| == 9
  {
    && 0 <= k < 9 && c[k] == AiEngine.EmptyMark
    && (forall j :: 0 <= j < 9 && c[j] == AiEngine.EmptyMark ==> AiEngine.MoveScore(c, sym, j) <= AiEngine.MoveScore(c, sym, k))
    && (forall j :: 0 <= j < k && c[j] == AiEngine.EmptyMark ==> AiEngine.MoveScore(c, sym, j) < AiEngine.MoveScore(c, sym, k))
  }

  /** The engine's pick is determined by the board and the symbol. */
  lemma EngineChoiceUnique(c: seq<char>, sym: char, k1: int, k2: int)
    requires |c| == 9 && EngineChoice(c, sym, k1) && EngineChoice(c, sym, k2)
    ensures k1 == k2
  {
  }

  /** `Collections.nCopies(9, null)`: the board of a game without moves. */
  const NoCells: seq<Option<string>> := seq(9, _ => None)

  /** The engine sees the move-less board as nine '_', which is not finished for X. */
  lemma NoCellsOpen()
    ensures Flatten(NoCells) == EngineBoard(EmptyBoard())
    ensures !AiEngine.Terminal(EngineBoard(EmptyBoard()), 'X')
  {
    FlattenRendered(EmptyBoard());
    assert MoveService.Rendered(EmptyBoard()) == NoCells;
    BoardEvaluator.EmptyBoardHasNoWinner();
    assert EmptyBoard()[0].None?;
    EngineTerminalIffFinished(EmptyBoard(), 'X');
  }

  /** `computeAiMoveIndex`: the engine's move on the joined board. */
  method ComputeAiMoveIndex(cells: seq<Option<string>>, aiSymbol: char) returns (r: Result<int, Error>)
    ensures |Flatten(cells)| != 9 <==> r == Failure(IllegalArgument)
    ensures |Flatten(cells)| == 9 ==> r.Success? && (r.value == -1 <==> AiEngine.Terminal(Flatten(cells), aiSymbol))
    ensures |Flatten(cells)| == 9 && !AiEngine.Terminal(Flatten(cells), aiSymbol) ==>
      var flat := Flatten(cells);
      && 0 <= r.value < 9 && flat[r.value] == AiEngine.EmptyMark
      && (forall j :: 0 <= j < 9 && flat[j] == AiEngine.EmptyMark ==>
            AiEngine.MoveScore(flat, aiSymbol, j) <= AiEngine.MoveScore(flat, aiSymbol, r.value))
      && (forall j :: 0 <= j < r.value && flat[j] == AiEngine.EmptyMark ==>
            AiEngine.MoveScore(flat, aiSymbol, j) < AiEngine.MoveScore(flat, aiSymbol, r.value))
  {
    var flat := Flatten(cells);
    r := AiEngine.ComputeBestMove(flat, aiSymbol);
  }

  // ---------------------------------------------------------------------
  // Store invariant for new and joined games

  /** Inserting a new row without moves keeps the store consistent. */
  lemma InsertKeepsConsistent(games: map<nat, Game>, moves: seq<Move>, next: nat, g: Game)
    requires Consistent(games, moves, next)
    requires RowConsistent(g, EmptyBoard())
    ensures Consistent(games[next := g], moves, next + 1)
  {
    assert forall k | 0 <= k < |moves| :: moves[k].game != next;
    NoMovesEmptyBoard(moves, next);
  }

  /** Replacing a row by one consistent with the same board keeps the store consistent. */
  lemma UpdateKeepsConsistent(games: map<nat, Game>, moves: seq<Move>, next: nat, id: nat, g: Game)
    requires Consistent(games, moves, next) && id in games
    requires RowConsistent(g, BoardOf(moves, id))
    ensures Consistent(games[id := g], moves, next)
  {
    var games' := games[id := g];
    assert games'.Keys == games.Keys;
    forall j | j in games' ensures RowConsistent(games'[j], BoardOf(moves, j)) {
      if j != id { assert games'[j] == games[j]; }
    }
  }

  /** In a running game, a move into an empty cell can only be rejected as out of turn or by an outsider. */
  lemma RunningRejectsOnlyForbidden(games: map<nat, Game>, moves: seq<Move>, gameId: nat, playerId: nat, k: Cell)
    requires gameId in games && IsGameRunning(games[gameId].status)
    requires BoardOf(moves, gameId)[k].None?
    ensures MoveService.MoveError(games, moves, gameId, playerId, k) in {None, Some(Forbidden)}
  {
    BoardOfOccupied(moves, gameId, k);
  }

  /**
   * A second write to a key hides the first. Stated once as a lemma: the
   * same equation asserted inline in `CreateGameVsAi` exhausts the solver.
   */
  lemma OverwriteRow(m: map<nat, Game>, k: nat, a: Game, b: Game)
    ensures m[k := a][k := b] == m[k := b]
  {
  }

  // ---------------------------------------------------------------------
  // The operations

  /** `getOrCreateAiPlayer`: looks AI_BOT up by name, registering it when missing. */
  method GetOrCreateAiPlayer(store: Store) returns (ai: Player)
    modifies store
    ensures ai.name == AiName && ai.id < |store.players| && store.players[ai.id] == AiName
    ensures store.FindPlayerByName(AiName) == Some(ai)
    ensures old(AiName in store.players) ==> store.players == old(store.players) && Some(ai) == old(store.FindPlayerByName(AiName))
    ensures old(AiName !in store.players) ==> store.players == old(store.players) + [AiName] && ai.id == old(|store.players|)
    ensures store.games == old(store.games) && store.moves == old(store.moves) && store.nextGameId == old(store.nextGameId)
  {
    var found := store.FindPlayerByName(AiName);
    if found.Some? {
      ai := found.value;
    } else {
      ai := store.InsertPlayer(AiName);
    }
  }

  /**
   * `createGame`: PlayerAlreadyInGame when the initiator is in an active
   * game, IllegalArgument for an unknown player, otherwise a new game
   * WAITING_FOR_OPPONENT with the initiator and no opponent.
   */
  method CreateGame(store: Store, initiatorId: nat) returns (r: Result<nat, Error>)
    requires store.Valid()
    modifies store
    ensures store.Valid()
    ensures store.moves == old(store.moves) && store.players == old(store.players)
    ensures old(store.ExistsActiveGameForPlayer(initiatorId)) ==> r == Failure(PlayerAlreadyInGame)
    ensures !old(store.ExistsActiveGameForPlayer(initiatorId)) && initiatorId >= |store.players| ==>
              r == Failure(IllegalArgument)
    ensures r.Failure? ==> store.games == old(store.games) && store.nextGameId == old(store.nextGameId)
    ensures !old(store.ExistsActiveGameForPlayer(initiatorId)) && initiatorId < |store.players| ==>
              && r == Success(old(store.nextGameId))
              && store.nextGameId == old(store.nextGameId) + 1
              && store.games == old(store.games)[r.value :=
                   Game(WaitingForOpponent, Player(initiatorId, store.players[initiatorId]), None)]
  {
    if store.ExistsActiveGameForPlayer(initiatorId) {
      return Failure(PlayerAlreadyInGame);
    }
    var initiator := store.FindPlayer(initiatorId);
    if initiator.None? {
      return Failure(IllegalArgument);
    }
    var game := Game(WaitingForOpponent, initiator.value, None);
    BoardEvaluator.EmptyBoardHasNoWinner();
    assert EmptyBoard()[0].None?;
    InsertKeepsConsistent(store.games, store.moves, store.nextGameId, game);
    var id := store.InsertGame(game);
    return Success(id);
  }

  /**
   * `joinGame`: PlayerAlreadyInGame when the joiner is in an active game,
   * IllegalArgument for an unknown game, the errors of
   * `validateGameJoining`, IllegalArgument for an unknown player; otherwise
   * the joiner becomes the opponent and X is to move. Nothing else changes.
   */
  method JoinGame(store: Store, gameId: nat, playerId: nat) returns (r: Result<Game, Error>)
    requires store.Valid()
    modifies store
    ensures store.Valid()
    ensures store.moves == old(store.moves) && store.players == old(store.players)
    ensures store.nextGameId == old(store.nextGameId)
    ensures r.Failure? ==> store.games == old(store.games)
    ensures old(store.ExistsActiveGameForPlayer(playerId)) ==> r == Failure(PlayerAlreadyInGame)
    ensures !old(store.ExistsActiveGameForPlayer(playerId)) ==>
      if gameId !in old(store.games) then r == Failure(IllegalArgument)
      else
        var g := old(store.games[gameId]);
        if ValidateGameJoining(g, playerId).Some? then r == Failure(ValidateGameJoining(g, playerId).value)
        else if playerId >= |store.players| then r == Failure(IllegalArgument)
        else
          var g' := g.(opponent := Some(Player(playerId, store.players[playerId])), status := PlayerXTurn);
          r == Success(g') && store.games == old(store.games)[gameId := g']
    // the self-join check of validateGameJoining is never the one that fires
    ensures gameId in old(store.games) && old(store.games[gameId].initiator.id) == playerId ==>
              r == Failure(PlayerAlreadyInGame) || r == Failure(IllegalState)
  {
    if store.ExistsActiveGameForPlayer(playerId) {
      return Failure(PlayerAlreadyInGame);
    }
    var gameOpt := store.FindGame(gameId);
    if gameOpt.None? {
      return Failure(IllegalArgument);
    }
    var game := gameOpt.value;
    var invalid := ValidateGameJoining(game, playerId);
    if invalid.Some? {
      if game.initiator.id == playerId {
        assert !(IsParticipant(game, playerId) && IsActive(game.status));
      }
      return Failure(invalid.value);
    }
    var opponent := store.FindPlayer(playerId);
    if opponent.None? {
      return Failure(IllegalArgument);
    }
    var joined := game.(opponent := Some(opponent.value), status := PlayerXTurn);
    UpdateKeepsConsistent(store.games, store.moves, store.nextGameId, gameId, joined);
    store.UpdateGame(gameId, joined);
    return Success(joined);
  }

  /** A board with one mark is neither won nor full, so the turn passes from X to O. */
  lemma FirstMovePassesTurn(k: Cell)
    ensures MoveService.NextStatus(PlayerXTurn, EmptyBoard()[k := Some(X)]) == PlayerOTurn
  {
    var b := EmptyBoard()[k := Some(X)];
    BoardEvaluator.SingleMarkNoWinner(k, X);
    var free: Cell := if k == 0 then 1 else 0;
    assert b[free].None?;
  }

  /**
   * The AI's opening in `createGameVsAi`: the engine's pick for X on the
   * empty board, played by the AI player as initiator of a fresh game. The
   * move is always accepted and passes the turn to O.
   */
  method PlayAiOpening(store: Store, id: nat, ai: Player, human: Player)
    requires store.Valid() && id in store.games && store.games[id] == Game(PlayerXTurn, ai, Some(human))
    requires forall j | 0 <= j < |store.moves| :: store.moves[j].game != id
    modifies store
    ensures store.Valid()
    ensures store.players == old(store.players) && store.nextGameId == old(store.nextGameId)
    ensures store.games == old(store.games)[id := Game(PlayerOTurn, ai, Some(human))]
    ensures |store.moves| == |old(store.moves)| + 1
    ensures var k := store.moves[|store.moves| - 1].index;
            && store.moves == old(store.moves) + [Move(id, ai.id, k, X)]
            && EngineChoice(EngineBoard(EmptyBoard()), 'X', k)
  {
    NoCellsOpen();
    var aiMove := ComputeAiMoveIndex(NoCells, 'X');
    // on the empty board the engine always has a move, so `aiMove != -1` holds
    var k: Cell := aiMove.value;
    NoMovesEmptyBoard(store.moves, id);
    FirstMovePassesTurn(k);
    ghost var games1 := store.games;
    assert MoveService.SymbolFor(store.games[id], ai.id) == X;
    assert MoveService.MoveError(store.games, store.moves, id, ai.id, k).None?;
    var played := MoveService.PlayMove(store, id, ai.id, k);
    assert BoardOf(store.moves, id) == EmptyBoard()[k := Some(X)];
  }

  /**
   * `createGameVsAi`: the checks of `createGame`; then a game with X to
   * move is saved, the human as initiator when they play first and the AI
   * player as initiator otherwise. When the AI begins, the engine's pick for
   * X on the empty board is played as the AI's move, which is always
   * accepted, so the new game is then O's turn.
   */
  method CreateGameVsAi(store: Store, humanId: nat, humanPlaysFirst: bool) returns (r: Result<nat, Error>)
    requires store.Valid()
    modifies store
    ensures store.Valid()
    ensures old(store.ExistsActiveGameForPlayer(humanId)) ==> r == Failure(PlayerAlreadyInGame)
    ensures !old(store.ExistsActiveGameForPlayer(humanId)) && humanId >= old(|store.players|) ==> r == Failure(IllegalArgument)
    ensures r.Failure? ==>
              && store.games == old(store.games) && store.moves == old(store.moves)
              && store.players == old(store.players) && store.nextGameId == old(store.nextGameId)
    ensures !old(store.ExistsActiveGameForPlayer(humanId)) && humanId < old(|store.players|) ==>
      && r == Success(old(store.nextGameId))
      && store.nextGameId == old(store.nextGameId) + 1
      && (AiName in old(store.players) ==> store.players == old(store.players))
      && (AiName !in old(store.players) ==> store.players == old(store.players) + [AiName])
      && store.FindPlayerByName(AiName).Some?
      && var ai := store.FindPlayerByName(AiName).value;
         var human := Player(humanId, old(store.players)[humanId]);
         if humanPlaysFirst then
           && store.games == old(store.games)[r.value := Game(PlayerXTurn, human, Some(ai))]
           && store.moves == old(store.moves)
         else
           && store.games == old(store.games)[r.value := Game(PlayerOTurn, ai, Some(human))]
           && |store.moves| == |old(store.moves)| + 1
           && var k := store.moves[|store.moves| - 1].index;
              && store.moves == old(store.moves) + [Move(r.value, ai.id, k, X)]
              && EngineChoice(EngineBoard(EmptyBoard()), 'X', k)
  {
    if store.ExistsActiveGameForPlayer(humanId) {
      return Failure(PlayerAlreadyInGame);
    }
    var humanOpt := store.FindPlayer(humanId);
    if humanOpt.None? {
      return Failure(IllegalArgument);
    }
    var human := humanOpt.value;
    var ai := GetOrCreateAiPlayer(store);
    var aiPlaysFirst := !humanPlaysFirst;
    var game;
    if humanPlaysFirst {
      game := Game(PlayerXTurn, human, Some(ai));
    } else {
      game := Game(PlayerXTurn, ai, Some(human));
    }
    BoardEvaluator.EmptyBoardHasNoWinner();
    assert EmptyBoard()[0].None?;
    InsertKeepsConsistent(store.games, store.moves, store.nextGameId, game);
    ghost var games0 := store.games;
    var id := store.InsertGame(game);
    if aiPlaysFirst {
      forall j | 0 <= j < |store.moves| ensures store.moves[j].game != id {
        assert store.moves[j].game in games0;
      }
      PlayAiOpening(store, id, ai, human);
      OverwriteRow(games0, id, game, Game(PlayerOTurn, ai, Some(human)));
    }
    return Success(id);
  }

  /**
   * The AI's reply to game `gameId` of `games` and `moves`, answered by
   * `resp`, leads to `games'` and `moves'`: the engine's pick for
   * `getAiSymbol` on the game's board is played by the first player named
   * AI_BOT, who takes part in the game, with that player's symbol, and the
   * status is recomputed from the new board.
   */
  ghost predicate AiReplied(games: map<nat, Game>, moves: seq<Move>, players': seq<string>,
                            games': map<nat, Game>, moves': seq<Move>, gameId: nat, resp: AiResponse)
    requires gameId in games
  {
    var g := games[gameId];
    var b := BoardOf(moves, gameId);
    && g.opponent.Some?
    && EngineChoice(EngineBoard(b), GetAiSymbol(g), resp.aiMoveIndex)
    && FirstNamed(players', AiName, 0).Some?
    && var ai := FirstNamed(players', AiName, 0).value;
       && IsParticipant(g, ai.id)
       && var sym := MoveService.SymbolFor(g, ai.id);
          var b2 := b[resp.aiMoveIndex := Some(sym)];
          var g2 := g.(status := MoveService.NextStatus(g.status, b2));
          && moves' == moves + [Move(gameId, ai.id, resp.aiMoveIndex, sym)]
          && games' == games[gameId := g2]
          && resp.response == MoveService.ResponseOf(b2, g2)
  }

  /** The first AI_BOT takes part in game `gameId` and it is its turn. */
  predicate AiCanReply(games: map<nat, Game>, players: seq<string>, gameId: nat)
    requires gameId in games
  {
    var ai := FirstNamed(players, AiName, 0);
    && ai.Some?
    && IsParticipant(games[gameId], ai.value.id)
    && MoveService.ValidateTurn(games[gameId].status, MoveService.SymbolFor(games[gameId], ai.value.id)).None?
  }

  /**
   * The AI's reply in `playMoveVsAi`, on a running game: the engine's pick
   * for `getAiSymbol` on the current board, played as the move of the AI
   * player. A running game is neither won nor drawn, so the engine always
   * has a move. The reply is accepted whenever the first AI_BOT takes part
   * in the game and it is its turn; on failure the caller rolls back.
   */
  method PlayAiReply(store: Store, gameId: nat, cells: seq<Option<string>>) returns (r: Result<AiResponse, Error>)
    requires store.Valid() && gameId in store.games && IsGameRunning(store.games[gameId].status)
    requires cells == MoveService.Rendered(BoardOf(store.moves, gameId))
    modifies store
    ensures store.Valid()
    ensures store.nextGameId == old(store.nextGameId)
    ensures AiName in old(store.players) ==> store.players == old(store.players)
    ensures AiName !in old(store.players) ==> store.players == old(store.players) + [AiName]
    ensures r.Failure? ==> store.games == old(store.games) && store.moves == old(store.moves)
    // in a running game only the turn check can reject the engine's empty cell
    ensures r.Failure? ==> r.error == Forbidden
    ensures r.Success? ==>
              AiReplied(old(store.games), old(store.moves), store.players, store.games, store.moves, gameId, r.value)
    ensures AiCanReply(old(store.games), old(store.players), gameId) ==> r.Success?
    ensures r.Success? ==> AiCanReply(old(store.games), store.players, gameId)
  {
    var game := store.FindGame(gameId).value;
    var aiSymbol := GetAiSymbol(game);
    ghost var board := BoardOf(store.moves, gameId);
    FlattenRendered(board);
    EngineTerminalIffFinished(board, aiSymbol);
    var aiMove := ComputeAiMoveIndex(cells, aiSymbol);
    // a running game is neither won nor drawn, so `aiMove != -1` holds
    var k: Cell := aiMove.value;
    BoardOfOccupied(store.moves, gameId, k);
    var ai := GetOrCreateAiPlayer(store);
    ghost var games1, moves1 := store.games, store.moves;
    RunningRejectsOnlyForbidden(games1, moves1, gameId, ai.id, k);
    var afterAi := MoveService.PlayMove(store, gameId, ai.id, k);
    if afterAi.Failure? {
      return Failure(afterAi.error);
    }
    assert MoveService.MoveError(games1, moves1, gameId, ai.id, k).None?;
    assert IsParticipant(game, ai.id);
    ghost var sym := MoveService.SymbolFor(game, ai.id);
    assert store.moves == moves1 + [Move(gameId, ai.id, k, sym)];
    assert store.FindPlayerByName(AiName) == Some(ai);
    assert FirstNamed(store.players, AiName, 0) == Some(ai);
    return Success(AiResponse(afterAi.value, k));
  }

  /**
   * `playMoveVsAi`: the human's move through `playMove`; when it leaves the
   * game running, the AI's reply follows. The whole call is one
   * transaction: when the AI's move is rejected, the human's move (and a
   * newly registered AI player) are rolled back.
   */
  method PlayMoveVsAi(store: Store, gameId: nat, playerId: nat, index: Cell) returns (r: Result<AiResponse, Error>)
    requires store.Valid()
    modifies store
    ensures store.Valid()
    ensures store.nextGameId == old(store.nextGameId)
    ensures r.Failure? ==>
              store.games == old(store.games) && store.moves == old(store.moves) && store.players == old(store.players)
    ensures AiName in old(store.players) ==> store.players == old(store.players)
    ensures store.players == old(store.players) || (AiName !in old(store.players) && store.players == old(store.players) + [AiName])
    ensures MoveService.MoveError(old(store.games), old(store.moves), gameId, playerId, index).Some? ==>
              r == Failure(MoveService.MoveError(old(store.games), old(store.moves), gameId, playerId, index).value)
    ensures MoveService.MoveError(old(store.games), old(store.moves), gameId, playerId, index).None? ==>
      var g := old(store.games[gameId]);
      var sym := MoveService.SymbolFor(g, playerId);
      var b1 := BoardOf(old(store.moves), gameId)[index := Some(sym)];
      var g1 := g.(status := MoveService.NextStatus(g.status, b1));
      var games1 := old(store.games)[gameId := g1];
      var moves1 := old(store.moves) + [Move(gameId, playerId, index, sym)];
      && g.opponent.Some?
      // the human's move ends the game: no reply
      && (!IsGameRunning(g1.status) ==>
            && r == Success(AiResponse(MoveService.ResponseOf(b1, g1), -1))
            && store.games == games1 && store.moves == moves1 && store.players == old(store.players))
      // otherwise the AI replies on the board after the human's move
      && (IsGameRunning(g1.status) && r.Success? ==>
            AiReplied(games1, moves1, store.players, store.games, store.moves, gameId, r.value))
      && (IsGameRunning(g1.status) && AiCanReply(games1, old(store.players), gameId) ==> r.Success?)
      && (IsGameRunning(g1.status) && r.Success? ==> AiCanReply(games1, store.players, gameId))
      // a rejected reply is always a turn error
      && (r.Failure? ==> r.error == Forbidden)
  {
    var games0, moves0, players0 := store.games, store.moves, store.players;
    var afterHuman := MoveService.PlayMove(store, gameId, playerId, index);
    if afterHuman.Failure? {
      return Failure(afterHuman.error);
    }
    ghost var g := games0[gameId];
    ghost var sym := MoveService.SymbolFor(g, playerId);
    ghost var b1 := BoardOf(moves0, gameId)[index := Some(sym)];
    ghost var g1 := g.(status := MoveService.NextStatus(g.status, b1));
    assert BoardOf(store.moves, gameId) == b1;
    assert store.games == games0[gameId := g1];
    assert afterHuman.value == MoveService.ResponseOf(b1, g1);
    if !IsGameRunning(afterHuman.value.status) {
      return Success(AiResponse(afterHuman.value, -1));
    }
    r := PlayAiReply(store, gameId, afterHuman.value.board);
    if r.Failure? {
      store.Restore(games0, moves0, players0, store.nextGameId);
      return;
    }
  }
}
