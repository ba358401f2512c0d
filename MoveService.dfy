/**
 * MoveService: applies one move to a game (validation, append to the move
 * log, board rebuilt from the whole log, new status) and renders a game.
 */
module MoveService {
  import opened Wrappers
  import opened Model
  import opened Store
  import BoardEvaluator

  /** `PlayMoveResponse`: the nine rendered cells, the three rows, the status and the winner's name. */
  datatype Response = Response(
    board: seq<Option<string>>,
    row1: string, row2: string, row3: string,
    status: GameStatus,
    winner: Option<string>)

  /** Which participant `resolvePlayer` found. */
  datatype Seat = Initiator | Opponent

  // ---------------------------------------------------------------------
  // Validation

  /** `resolvePlayer`: the initiator is looked up first, then the opponent; anyone else is Forbidden. */
  function ResolvePlayer(g: Game, playerId: nat): (r: Result<Seat, Error>)
    ensures r.Failure? <==> !IsParticipant(g, playerId)
    ensures r.Failure? ==> r.error == Forbidden
    ensures r == Success(Initiator) <==> g.initiator.id == playerId
    ensures r == Success(Opponent) ==> g.opponent.Some? && g.opponent.value.id == playerId
  {
    if g.initiator.id == playerId then Success(Initiator)
    else if g.opponent.Some? && g.opponent.value.id == playerId then Success(Opponent)
    else Failure(Forbidden)
  }

  /** `getPlayerSymbol`: the initiator plays X, the opponent O. */
  function GetPlayerSymbol(seat: Seat): (m: Movement)
    ensures m == X <==> seat == Initiator
    ensures m == O <==> seat == Opponent
  {
    match seat
    case Initiator => X
    case Opponent => O
  }

  /** The symbol of a participant. */
  function SymbolFor(g: Game, playerId: nat): Movement
    requires IsParticipant(g, playerId)
  {
    GetPlayerSymbol(ResolvePlayer(g, playerId).value)
  }

  /**
   * `validateTurn`: `None` when the move may go ahead. A finished (won) game
   * or one still waiting for its opponent is a Conflict; under
   * PLAYER_X_TURN only X may move, under any other status (DRAW included)
   * only O.
   */
  function ValidateTurn(status: GameStatus, sym: Movement): (r: Option<Error>)
    ensures r == Some(Conflict) <==> status == XWon || status == OWon || status == WaitingForOpponent
    ensures r == Some(Forbidden) <==>
              (status == PlayerXTurn && sym == O) || ((status == PlayerOTurn || status == Draw) && sym == X)
    ensures r.None? <==> (status == PlayerXTurn && sym == X) || ((status == PlayerOTurn || status == Draw) && sym == O)
  {
    assert sym == X || sym == O;
    if status == XWon || status == OWon then Some(Conflict)
    else if status == WaitingForOpponent then Some(Conflict)
    else
      var xTurn := status == PlayerXTurn;
      if xTurn && sym != X then Some(Forbidden)
      else if !xTurn && sym != O then Some(Forbidden)
      else None
  }

  // ---------------------------------------------------------------------
  // Board and status

  /** `buildBoard`: nine empty slots, then every move of the game written into its cell. */
  method BuildBoard(store: Store, gameId: nat) returns (board: Board)
    ensures board == BoardOf(store.moves, gameId)
    ensures |board| == 9
    ensures forall i: Cell :: board[i].Some? <==> store.ExistsByGameIdAndMovementIndex(gameId, i)
  {
    var slots := new Option<Movement>[9](_ => None);
    assert slots[..] == EmptyBoard();
    var ms := store.FindByGameId(gameId);
    for k := 0 to |ms|
      invariant slots[..] == Fold(ms[..k])
    {
      slots[ms[k].index] := Some(ms[k].movement);
      assert ms[..k + 1][..k] == ms[..k];
    }
    assert ms[..|ms|] == ms;
    board := slots[..];
    forall i: Cell
      ensures board[i].Some? <==> store.ExistsByGameIdAndMovementIndex(gameId, i)
    {
      BoardOfOccupied(store.moves, gameId, i);
    }
  }

  /**
   * The status `evaluateAndUpdateStatus` computes: a win for the winner's
   * symbol, else DRAW on a full board, else the turn passes (from
   * PLAYER_X_TURN to PLAYER_O_TURN, from anything else to PLAYER_X_TURN).
   */
  function NextStatus(current: GameStatus, board: Board): (s: GameStatus)
    requires |board| == 9
    ensures s == XWon <==> BoardEvaluator.Winner(board) == Some(X)
    ensures s == OWon <==> BoardEvaluator.Winner(board) == Some(O)
    ensures s == Draw <==> BoardEvaluator.IsDraw(board)
    ensures s == PlayerOTurn <==> !BoardEvaluator.IsDraw(board) && BoardEvaluator.Winner(board).None? && current == PlayerXTurn
    ensures s == PlayerXTurn <==> !BoardEvaluator.IsDraw(board) && BoardEvaluator.Winner(board).None? && current != PlayerXTurn
    ensures s != WaitingForOpponent
  {
    var w := BoardEvaluator.Winner(board);
    SomeMovement(w);
    if w.Some? then (if w.value == X then XWon else OWon)
    else if BoardEvaluator.IsDraw(board) then Draw
    else if current == PlayerXTurn then PlayerOTurn else PlayerXTurn
  }

  /** `evaluateAndUpdateStatus`: writes the new status into the game row. */
  method EvaluateAndUpdateStatus(store: Store, gameId: nat, board: Board) returns (newStatus: GameStatus)
    requires gameId in store.games && |board| == 9
    modifies store
    ensures newStatus == NextStatus(old(store.games[gameId].status), board)
    ensures store.games == old(store.games)[gameId := old(store.games[gameId]).(status := newStatus)]
    ensures store.moves == old(store.moves) && store.players == old(store.players)
    ensures store.nextGameId == old(store.nextGameId)
  {
    var game := store.games[gameId];
    newStatus := NextStatus(game.status, board);
    store.UpdateGame(gameId, game.(status := newStatus));
  }

  // ---------------------------------------------------------------------
  // Rendering

  /** One rendered cell: `null` or the symbol's name. */
  function RenderCell(c: Option<Movement>): (r: Option<string>)
    ensures r.None? <==> c.None?
    ensures c.Some? ==> r == Some(Name(c.value))
  {
    match c
    case None => None
    case Some(m) => Some(Name(m))
  }

  /** The rendered board. */
  function Rendered(board: Board): (r: seq<Option<string>>)
    ensures |r| == |board| && forall i | 0 <= i < |board| :: r[i] == RenderCell(board[i])
  {
    seq(|board|, i requires 0 <= i < |board| => RenderCell(board[i]))
  }

  /** `boardToString`: appends one rendered cell per board cell. */
  method BoardToString(board: Board) returns (out: seq<Option<string>>)
    ensures out == Rendered(board)
    ensures forall i | 0 <= i < |out| :: out[i] == None || out[i] == Some("X") || out[i] == Some("O")
  {
    out := [];
    for i := 0 to |board|
      invariant out == Rendered(board[..i])
    {
      assert board[..i + 1] == board[..i] + [board[i]];
      out := out + [RenderCell(board[i])];
    }
    assert board[..|board|] == board;
    forall i | 0 <= i < |out|
      ensures out[i] == None || out[i] == Some("X") || out[i] == Some("O")
    {
      SomeMovement(board[i]);
    }
  }

  /** `val`: `null` and "_" print as a single space. */
  function Val(s: Option<string>): (r: string)
    ensures s.None? || s == Some("_") ==> r == " "
    ensures s.Some? && s.value != "_" ==> r == s.value
  {
    if s.None? || s.value == "_" then " " else s.value
  }

  /** `formatRow`: "a | b | c". */
  function FormatRow(a: Option<string>, b: Option<string>, c: Option<string>): (r: string)
    ensures |r| == |Val(a)| + |Val(b)| + |Val(c)| + 6
  {
    Val(a) + " | " + Val(b) + " | " + Val(c)
  }

  /** `toRowStrings`: the three rows of the rendered board. */
  function ToRowStrings(cells: seq<Option<string>>): (rows: seq<string>)
    requires |cells| == 9
    ensures |rows| == 3
  {
    [ FormatRow(cells[0], cells[1], cells[2]),
      FormatRow(cells[3], cells[4], cells[5]),
      FormatRow(cells[6], cells[7], cells[8]) ]
  }

  /** The character a board cell shows in a row. */
  function CellChar(c: Option<Movement>): char {
    match c
    case None => ' '
    case Some(X) => 'X'
    case Some(O) => 'O'
  }

  /** Row `r` of a rendered board is nine characters: the three cells separated by " | ". */
  lemma RowLayout(board: Board, r: nat)
    requires |board| == 9 && r < 3
    ensures var row := ToRowStrings(Rendered(board))[r];
      && |row| == 9
      && row[0] == CellChar(board[3 * r]) && row[1..4] == " | "
      && row[4] == CellChar(board[3 * r + 1]) && row[5..8] == " | "
      && row[8] == CellChar(board[3 * r + 2])
  {
    var cells := Rendered(board);
    forall i | 0 <= i < 9
      ensures Val(cells[i]) == [CellChar(board[i])]
    {
      SomeMovement(board[i]);
    }
    var a, b, c := Val(cells[3 * r]), Val(cells[3 * r + 1]), Val(cells[3 * r + 2]);
    assert ToRowStrings(cells)[r] == a + " | " + b + " | " + c;
    JoinedLayout(CellChar(board[3 * r]), CellChar(board[3 * r + 1]), CellChar(board[3 * r + 2]));
  }

  /** Three one-character strings joined by " | ". */
  lemma JoinedLayout(a: char, b: char, c: char)
    ensures var row := [a] + " | " + [b] + " | " + [c];
      |row| == 9 && row[0] == a && row[1..4] == " | " && row[4] == b && row[5..8] == " | " && row[8] == c
  {
  }

  /** `winnerName`: the initiator's name for X_WON, the opponent's for O_WON, else `null`. */
  function WinnerName(g: Game, status: GameStatus): (r: Option<string>)
    requires status == OWon ==> g.opponent.Some?
    ensures r.Some? <==> status == XWon || status == OWon
    ensures status == XWon ==> r == Some(g.initiator.name)
    ensures status == OWon ==> r == Some(g.opponent.value.name)
  {
    match status
    case XWon => Some(g.initiator.name)
    case OWon => Some(g.opponent.value.name)
    case _ => None
  }

  /** The response for a board and a game row, as `playMove` and `viewGame` build it. */
  function ResponseOf(board: Board, g: Game): Response
    requires |board| == 9 && (g.status == OWon ==> g.opponent.Some?)
  {
    var cells := Rendered(board);
    var rows := ToRowStrings(cells);
    Response(cells, rows[0], rows[1], rows[2], g.status, WinnerName(g, g.status))
  }

  method MakeResponse(board: Board, g: Game) returns (resp: Response)
    requires |board| == 9 && (g.status == OWon ==> g.opponent.Some?)
    ensures resp == ResponseOf(board, g)
  {
    var boardStrings := BoardToString(board);
    var rows := ToRowStrings(boardStrings);
    resp := Response(boardStrings, rows[0], rows[1], rows[2], g.status, WinnerName(g, g.status));
  }

  // ---------------------------------------------------------------------
  // The store invariant across a move

  /**
   * Appending a validated move and writing the status computed from the
   * rebuilt board keeps the store consistent.
   */
  lemma MoveKeepsConsistent(games: map<nat, Game>, moves: seq<Move>, next: nat, m: Move)
    requires Consistent(games, moves, next)
    requires m.game in games && ValidateTurn(games[m.game].status, m.movement).None?
    requires forall k | 0 <= k < |moves| :: !(moves[k].game == m.game && moves[k].index == m.index)
    ensures var g := games[m.game];
            var status := NextStatus(g.status, BoardOf(moves + [m], m.game));
            Consistent(games[m.game := g.(status := status)], moves + [m], next)
  {
    var g := games[m.game];
    var status := NextStatus(g.status, BoardOf(moves + [m], m.game));
    var games': map<nat, Game> := games[m.game := g.(status := status)];
    var moves' := moves + [m];
    assert games'.Keys == games.Keys;
    forall k | 0 <= k < |moves'| ensures moves'[k].game in games' {
      if k < |moves| { assert moves'[k] == moves[k]; }
    }
    AppendKeepsOneMovePerCell(moves, m);
    RowsAfterMove(games, moves, m);
    assert Consistent(games', moves', next);
  }

  /** After a move every row is still consistent with its board. */
  lemma RowsAfterMove(games: map<nat, Game>, moves: seq<Move>, m: Move)
    requires RowsConsistent(games, moves)
    requires m.game in games && ValidateTurn(games[m.game].status, m.movement).None?
    ensures var g := games[m.game];
            RowsConsistent(games[m.game := g.(status := NextStatus(g.status, BoardOf(moves + [m], m.game)))], moves + [m])
  {
    var g := games[m.game];
    var after := BoardOf(moves + [m], m.game);
    var games' := games[m.game := g.(status := NextStatus(g.status, after))];
    forall id | id in games'
      ensures RowConsistent(games'[id], BoardOf(moves + [m], id))
    {
      AppendMoveBoard(moves, m, id);
      if id == m.game {
        NextStatusKeepsRow(g, after);
      } else {
        assert games'[id] == games[id];
      }
    }
  }

  /** The row of the moved game keeps its part of the store invariant. */
  lemma NextStatusKeepsRow(g: Game, board: Board)
    requires |board| == 9 && g.status != WaitingForOpponent && g.opponent.Some?
    ensures RowConsistent(g.(status := NextStatus(g.status, board)), board)
  {
  }

  /** Appending a move to a cell its game has not used keeps one move per cell. */
  lemma AppendKeepsOneMovePerCell(moves: seq<Move>, m: Move)
    requires OneMovePerCell(moves)
    requires forall k | 0 <= k < |moves| :: !(moves[k].game == m.game && moves[k].index == m.index)
    ensures OneMovePerCell(moves + [m])
  {
    var moves' := moves + [m];
    forall k, k' | 0 <= k < k' < |moves'| && moves'[k].game == moves'[k'].game
      ensures moves'[k].index != moves'[k'].index
    {
      assert moves'[k] == moves[k];
      if k' < |moves| { assert moves'[k'] == moves[k']; }
    }
  }

  /** Under the store invariant a DRAW game has every cell taken. */
  lemma DrawIsOccupied(store: Store, gameId: nat, index: Cell)
    requires store.Valid() && gameId in store.games && store.games[gameId].status == Draw
    ensures store.ExistsByGameIdAndMovementIndex(gameId, index)
  {
    BoardOfOccupied(store.moves, gameId, index);
  }

  /**
   * The error `playMove` raises for a move, or `None` when the move is
   * accepted. In the order they are checked: NotFound for a missing game,
   * Forbidden for a non-participant, then `validateTurn`'s Conflict (won or
   * waiting) or Forbidden (out of turn), Conflict for a taken cell.
   */
  function MoveError(games: map<nat, Game>, moves: seq<Move>, gameId: nat, playerId: nat, index: Cell): (r: Option<Error>)
    ensures r == Some(NotFound) <==> gameId !in games
    ensures r.Some? ==> r.value == NotFound || r.value == Forbidden || r.value == Conflict
    // `resolvePlayer` runs first: a non-participant is Forbidden whatever the status
    ensures gameId in games && !IsParticipant(games[gameId], playerId) ==> r == Some(Forbidden)
    // then `validateTurn`'s error, if any
    ensures (&& gameId in games && IsParticipant(games[gameId], playerId)
             && ValidateTurn(games[gameId].status, SymbolFor(games[gameId], playerId)).Some?) ==>
              r == ValidateTurn(games[gameId].status, SymbolFor(games[gameId], playerId))
    // and only then the taken cell, as Conflict
    ensures (&& gameId in games && IsParticipant(games[gameId], playerId)
             && ValidateTurn(games[gameId].status, SymbolFor(games[gameId], playerId)).None?
             && BoardOf(moves, gameId)[index].Some?) ==>
              r == Some(Conflict)
    // accepted iff the player takes part, it is their turn and the cell is empty on the rebuilt board
    ensures r.None? <==>
              && gameId in games && IsParticipant(games[gameId], playerId)
              && ValidateTurn(games[gameId].status, SymbolFor(games[gameId], playerId)).None?
              && BoardOf(moves, gameId)[index].None?
  {
    BoardOfOccupied(moves, gameId, index);
    if gameId !in games then Some(NotFound)
    else if !IsParticipant(games[gameId], playerId) then Some(Forbidden)
    else
      var g := games[gameId];
      var turn := ValidateTurn(g.status, SymbolFor(g, playerId));
      if turn.Some? then turn
      else if exists k | 0 <= k < |moves| :: moves[k].game == gameId && moves[k].index == index then Some(Conflict)
      else None
  }

  // ---------------------------------------------------------------------
  // The operations

  /**
   * `playMove`. It fails exactly when `MoveError` names an error, and then
   * changes nothing. On success exactly one move is appended, the
   * status is recomputed from the rebuilt board, and the response renders
   * that board.
   */
  method PlayMove(store: Store, gameId: nat, playerId: nat, index: Cell) returns (r: Result<Response, Error>)
    requires store.Valid()
    modifies store
    ensures store.Valid()
    ensures store.players == old(store.players) && store.nextGameId == old(store.nextGameId)
    ensures r.Failure? <==> MoveError(old(store.games), old(store.moves), gameId, playerId, index).Some?
    ensures r.Failure? ==>
              && r.error == MoveError(old(store.games), old(store.moves), gameId, playerId, index).value
              && store.games == old(store.games) && store.moves == old(store.moves)
    ensures MoveError(old(store.games), old(store.moves), gameId, playerId, index).None? ==>
              var g := old(store.games[gameId]);
              var sym := SymbolFor(g, playerId);
              var m := Move(gameId, playerId, index, sym);
              && store.moves == old(store.moves) + [m]
              && store.games == old(store.games)[gameId := g.(status := NextStatus(g.status, BoardOf(store.moves, gameId)))]
              && BoardOf(store.moves, gameId) == BoardOf(old(store.moves), gameId)[index := Some(sym)]
              && r == Success(ResponseOf(BoardOf(store.moves, gameId), store.games[gameId]))
              && r.value.status != (if sym == X then OWon else XWon)
    ensures gameId in old(store.games) && old(store.games[gameId].status) == Draw ==> r.Failure?
  {
    ghost var err := MoveError(store.games, store.moves, gameId, playerId, index);
    var gameOpt := store.FindGame(gameId);
    if gameOpt.None? {
      return Failure(NotFound);
    }
    var game := gameOpt.value;
    var seat := ResolvePlayer(game, playerId);
    if seat.Failure? {
      assert err == Some(Forbidden);
      return Failure(seat.error);
    }
    var playerSymbol := GetPlayerSymbol(seat.value);
    assert playerSymbol == SymbolFor(game, playerId);
    var turn := ValidateTurn(game.status, playerSymbol);
    if turn.Some? {
      assert err == turn;
      return Failure(turn.value);
    }
    if store.ExistsByGameIdAndMovementIndex(gameId, index) {
      assert err == Some(Conflict);
      return Failure(Conflict);
    }
    assert err.None?;
    if game.status == Draw {
      DrawIsOccupied(store, gameId, index);
      assert false;
    }

    ghost var before := BoardOf(store.moves, gameId);
    ghost var oldMoves := store.moves;
    ghost var oldGames := store.games;
    BoardOfOccupied(oldMoves, gameId, index);
    var move := Move(gameId, playerId, index, playerSymbol);
    MoveKeepsConsistent(oldGames, oldMoves, store.nextGameId, move);
    store.SaveMove(move);
    AppendMoveBoard(oldMoves, move, gameId);

    var board := BuildBoard(store, gameId);
    BoardEvaluator.PlacingOnlyMoverWins(before, index, playerSymbol);
    var newStatus := EvaluateAndUpdateStatus(store, gameId, board);
    var resp := MakeResponse(board, store.games[gameId]);
    return Success(resp);
  }

  /** `viewGame`: the same response, built from the stored state; nothing is changed. */
  method ViewGame(store: Store, gameId: nat) returns (r: Result<Response, Error>)
    requires store.Valid()
    ensures gameId !in store.games <==> r == Failure(NotFound)
    ensures gameId in store.games ==> r == Success(ResponseOf(BoardOf(store.moves, gameId), store.games[gameId]))
    ensures r.Success? ==> r.value.status == store.games[gameId].status && |r.value.board| == 9
  {
    var gameOpt := store.FindGame(gameId);
    if gameOpt.None? {
      return Failure(NotFound);
    }
    var game := gameOpt.value;
    var board := BuildBoard(store, gameId);
    var resp := MakeResponse(board, game);
    return Success(resp);
  }
}
