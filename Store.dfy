/**
 * The persistence layer as a sequential in-memory store: the game rows
 * (GameRepository), the append-only move log (MoveRepository) and the
 * players (PlayerRepository), with the invariant the services keep.
 */
module Store {
  import opened Wrappers
  import opened Model
  import BoardEvaluator

  // ---------------------------------------------------------------------
  // The move log as values

  /** `findByGameId`: the moves of one game, in log order. */
  function MovesOf(moves: seq<Move>, gameId: nat): (r: seq<Move>)
    ensures forall k :: 0 <= k < |r| ==> r[k].game == gameId
    ensures forall m :: m in r <==> m in moves && m.game == gameId
  {
    if moves == [] then []
    else
      var last := moves[|moves| - 1];
      MovesOf(moves[..|moves| - 1], gameId) + (if last.game == gameId then [last] else [])
  }

  /** The fold of `buildBoard`: each move writes its symbol into its cell of nine empty cells. */
  function Fold(ms: seq<Move>): (b: Board)
    ensures |b| == 9
  {
    if ms == [] then EmptyBoard()
    else
      var last := ms[|ms| - 1];
      Fold(ms[..|ms| - 1])[last.index := Some(last.movement)]
  }

  /** The board of a game: the fold of all of its moves. */
  function BoardOf(moves: seq<Move>, gameId: nat): (b: Board)
    ensures |b| == 9
  {
    Fold(MovesOf(moves, gameId))
  }

  /** At most one move per cell. */
  predicate DistinctCells(ms: seq<Move>) {
    forall k, k' :: 0 <= k < k' < |ms| ==> ms[k].index != ms[k'].index
  }

  /** At most one move per (game, cell): the invariant the occupied-cell check keeps. */
  predicate OneMovePerCell(moves: seq<Move>) {
    forall k, k' :: 0 <= k < k' < |moves| && moves[k].game == moves[k'].game ==> moves[k].index != moves[k'].index
  }

  /** `p` is the initiator or the opponent of `g`. */
  predicate IsParticipant(g: Game, playerId: nat) {
    g.initiator.id == playerId || (g.opponent.Some? && g.opponent.value.id == playerId)
  }

  /** A stored row is consistent with its game's board. */
  ghost predicate RowConsistent(g: Game, board: Board)
    requires |board| == 9
  {
    && (g.status == WaitingForOpponent <==> g.opponent.None?)
    && (IsActive(g.status) ==> BoardEvaluator.Winner(board).None? && !BoardEvaluator.IsFull(board))
    && (g.status == Draw ==> BoardEvaluator.IsFull(board))
  }

  /**
   * The consistency the services keep between game rows and the move log:
   * ids below the counter, every move belongs to a stored game, one move
   * per cell of a game, and every row consistent with its board (an
   * opponent exactly when the game has left WAITING_FOR_OPPONENT, neither a
   * winner nor a full board for an active game, a full board under DRAW).
   */
  ghost predicate Consistent(games: map<nat, Game>, moves: seq<Move>, nextGameId: nat) {
    && (forall id | id in games :: id < nextGameId)
    && (forall k | 0 <= k < |moves| :: moves[k].game in games)
    && OneMovePerCell(moves)
    && RowsConsistent(games, moves)
  }

  /** Every game row agrees with the board rebuilt from its moves. */
  ghost predicate RowsConsistent(games: map<nat, Game>, moves: seq<Move>) {
    forall id | id in games :: RowConsistent(games[id], BoardOf(moves, id))
  }

  // ---------------------------------------------------------------------
  // Lemmas about the fold

  lemma {:induction false} MovesOfAppend(moves: seq<Move>, m: Move, gameId: nat)
    ensures MovesOf(moves + [m], gameId) == MovesOf(moves, gameId) + (if m.game == gameId then [m] else [])
  {
    assert (moves + [m])[..|moves|] == moves;
  }

  /** The moves of one game inherit "one move per cell" from the log. */
  lemma {:induction false} MovesOfDistinct(moves: seq<Move>, gameId: nat)
    requires OneMovePerCell(moves)
    ensures DistinctCells(MovesOf(moves, gameId))
  {
    if moves != [] {
      var init := moves[..|moves| - 1];
      var last := moves[|moves| - 1];
      assert OneMovePerCell(init);
      MovesOfDistinct(init, gameId);
      if last.game == gameId {
        var prev := MovesOf(init, gameId);
        forall k | 0 <= k < |prev|
          ensures prev[k].index != last.index
        {
          assert prev[k] in init;
          var j :| 0 <= j < |init| && init[j] == prev[k];
          assert moves[j] == prev[k];
        }
      }
    }
  }

  /** A cell of the fold is occupied exactly when some move names it. */
  lemma {:induction false} FoldOccupied(ms: seq<Move>, i: Cell)
    ensures Fold(ms)[i].Some? <==> exists k :: 0 <= k < |ms| && ms[k].index == i
  {
    if ms != [] {
      var init := ms[..|ms| - 1];
      FoldOccupied(init, i);
      if exists k :: 0 <= k < |init| && init[k].index == i {
        var k :| 0 <= k < |init| && init[k].index == i;
        assert ms[k].index == i;
      }
      if exists k :: 0 <= k < |ms| && ms[k].index == i {
        var k :| 0 <= k < |ms| && ms[k].index == i;
        if k < |init| { assert init[k].index == i; }
      }
    }
  }

  /** With one move per cell, the fold holds exactly that move's symbol: the order of the log does not matter. */
  lemma {:induction false} FoldHoldsMove(ms: seq<Move>, k: nat)
    requires DistinctCells(ms) && k < |ms|
    ensures Fold(ms)[ms[k].index] == Some(ms[k].movement)
  {
    var init := ms[..|ms| - 1];
    if k < |init| {
      assert DistinctCells(init);
      assert init[k] == ms[k];
      FoldHoldsMove(init, k);
    }
  }

  /** The board of a game under the store invariant: a cell holds `s` iff the log has that game's move `s` there. */
  lemma BoardOfCell(moves: seq<Move>, gameId: nat, i: Cell, s: Movement)
    requires OneMovePerCell(moves)
    ensures BoardOf(moves, gameId)[i] == Some(s) <==>
            exists k :: 0 <= k < |moves| && moves[k].index == i && moves[k].movement == s && moves[k].game == gameId
  {
    var ms := MovesOf(moves, gameId);
    MovesOfDistinct(moves, gameId);
    FoldOccupied(ms, i);
    if BoardOf(moves, gameId)[i] == Some(s) {
      var j :| 0 <= j < |ms| && ms[j].index == i;
      FoldHoldsMove(ms, j);
      assert ms[j] in moves;
    }
    if exists k :: 0 <= k < |moves| && moves[k].index == i && moves[k].movement == s && moves[k].game == gameId {
      var k :| 0 <= k < |moves| && moves[k].index == i && moves[k].movement == s && moves[k].game == gameId;
      assert moves[k] in ms;
      var j :| 0 <= j < |ms| && ms[j] == moves[k];
      FoldHoldsMove(ms, j);
    }
  }

  /** A cell of a game's board is occupied iff the log has a move of that game in that cell. */
  lemma BoardOfOccupied(moves: seq<Move>, gameId: nat, i: Cell)
    ensures BoardOf(moves, gameId)[i].Some? <==> exists k :: 0 <= k < |moves| && moves[k].game == gameId && moves[k].index == i
  {
    var ms := MovesOf(moves, gameId);
    FoldOccupied(ms, i);
    if exists k :: 0 <= k < |ms| && ms[k].index == i {
      var k :| 0 <= k < |ms| && ms[k].index == i;
      assert ms[k] in moves;
    }
    if exists k :: 0 <= k < |moves| && moves[k].game == gameId && moves[k].index == i {
      var k :| 0 <= k < |moves| && moves[k].game == gameId && moves[k].index == i;
      assert moves[k] in ms;
    }
  }

  /** Appending a move of game `g` writes its cell of `g`'s board and leaves every other game's board alone. */
  lemma AppendMoveBoard(moves: seq<Move>, m: Move, gameId: nat)
    ensures BoardOf(moves + [m], gameId) ==
            if m.game == gameId then BoardOf(moves, gameId)[m.index := Some(m.movement)] else BoardOf(moves, gameId)
  {
    MovesOfAppend(moves, m, gameId);
    var ms := MovesOf(moves, gameId);
    if m.game == gameId {
      assert (ms + [m])[..|ms|] == ms;
      assert Fold(ms + [m]) == Fold(ms)[m.index := Some(m.movement)];
    } else {
      assert MovesOf(moves + [m], gameId) == ms;
    }
  }

  /** A game without moves has the empty board. */
  lemma NoMovesEmptyBoard(moves: seq<Move>, gameId: nat)
    requires forall k | 0 <= k < |moves| :: moves[k].game != gameId
    ensures BoardOf(moves, gameId) == EmptyBoard()
  {
    if MovesOf(moves, gameId) != [] {
      var m := MovesOf(moves, gameId)[0];
      assert m in moves;
    }
  }

  // ---------------------------------------------------------------------
  // The store

  class Store {
    var games: map<nat, Game>
    var moves: seq<Move>
    /** Player `i` is named `players[i]`. */
    var players: seq<string>
    /** The next generated game id. */
    var nextGameId: nat

    ghost predicate Valid()
      reads this
    {
      Consistent(games, moves, nextGameId)
    }

    constructor ()
      ensures Valid()
      ensures games == map[] && moves == [] && players == [] && nextGameId == 0
    {
      games, moves, players, nextGameId := map[], [], [], 0;
    }

    // GameRepository ----------------------------------------------------

    /** `findById` / `findByIdForUpdate` (the row lock is not modelled). */
    function FindGame(gameId: nat): (r: Option<Game>)
      reads this
      ensures r.Some? <==> gameId in games
      ensures r.Some? ==> r.value == games[gameId]
    {
      if gameId in games then Some(games[gameId]) else None
    }

    /** `existsActiveGameForPlayer`: the player is a participant of a game in an active status. */
    predicate ExistsActiveGameForPlayer(playerId: nat)
      reads this
      // under the invariant the player's active game is still open: not won and not full
      ensures ExistsActiveGameForPlayer(playerId) && Valid() ==>
                exists id | id in games :: IsParticipant(games[id], playerId)
                                            && BoardEvaluator.Winner(BoardOf(moves, id)).None?
                                            && !BoardEvaluator.IsFull(BoardOf(moves, id))
    {
      exists id | id in games :: IsParticipant(games[id], playerId) && IsActive(games[id].status)
    }

    /** `save` of a new game: it gets the next id. */
    method InsertGame(g: Game) returns (id: nat)
      modifies this
      ensures id == old(nextGameId) && nextGameId == id + 1
      ensures games == old(games)[id := g]
      ensures moves == old(moves) && players == old(players)
    {
      id := nextGameId;
      games := games[id := g];
      nextGameId := nextGameId + 1;
    }

    /** `save` of an existing game row. */
    method UpdateGame(id: nat, g: Game)
      requires id in games
      modifies this
      ensures games == old(games)[id := g]
      ensures moves == old(moves) && players == old(players) && nextGameId == old(nextGameId)
    {
      games := games[id := g];
    }

    // MoveRepository ----------------------------------------------------

    /** `existsByGameIdAndMovementIndex`. */
    predicate ExistsByGameIdAndMovementIndex(gameId: nat, index: Cell)
      reads this
      ensures ExistsByGameIdAndMovementIndex(gameId, index) <==> BoardOf(moves, gameId)[index].Some?
    {
      BoardOfOccupied(moves, gameId, index);
      exists k | 0 <= k < |moves| :: moves[k].game == gameId && moves[k].index == index
    }

    /** `findByGameId`. */
    function FindByGameId(gameId: nat): (r: seq<Move>)
      reads this
      ensures forall m :: m in r <==> m in moves && m.game == gameId
    {
      MovesOf(moves, gameId)
    }

    /** `saveAndFlush` of a move: appended to the log. */
    method SaveMove(m: Move)
      modifies this
      ensures moves == old(moves) + [m]
      ensures games == old(games) && players == old(players) && nextGameId == old(nextGameId)
    {
      moves := moves + [m];
    }

    // PlayerRepository --------------------------------------------------

    /** `findById` for players. */
    function FindPlayer(playerId: nat): (r: Option<Player>)
      reads this
      ensures r.Some? <==> playerId < |players|
      ensures r.Some? ==> r.value == Player(playerId, players[playerId])
    {
      if playerId < |players| then Some(Player(playerId, players[playerId])) else None
    }

    /** `findPlayerByName`: the lowest-id player with that name. */
    function FindPlayerByName(name: string): (r: Option<Player>)
      reads this
      ensures r.Some? <==> name in players
      ensures r.Some? ==> r.value.id < |players| && players[r.value.id] == name && r.value.name == name
      ensures r.Some? ==> forall i :: 0 <= i < r.value.id ==> players[i] != name
    {
      FirstNamed(players, name, 0)
    }

    /** `save` of a new player. */
    method InsertPlayer(name: string) returns (p: Player)
      modifies this
      ensures p == Player(old(|players|), name)
      ensures players == old(players) + [name]
      ensures games == old(games) && moves == old(moves) && nextGameId == old(nextGameId)
    {
      p := Player(|players|, name);
      players := players + [name];
    }

    /** A transaction that fails leaves the store as it was: every field is put back. */
    method Restore(g: map<nat, Game>, m: seq<Move>, p: seq<string>, next: nat)
      modifies this
      ensures games == g && moves == m && players == p && nextGameId == next
    {
      games, moves, players, nextGameId := g, m, p, next;
    }
  }

  /** The first player from index `i` on that has the name. */
  function FirstNamed(players: seq<string>, name: string, i: nat): (r: Option<Player>)
    requires i <= |players|
    ensures r.Some? <==> name in players[i..]
    ensures r.Some? ==> i <= r.value.id < |players| && players[r.value.id] == name && r.value.name == name
    ensures r.Some? ==> forall j :: i <= j < r.value.id ==> players[j] != name
    decreases |players| - i
  {
    if i == |players| then None
    else if players[i] == name then Some(Player(i, name))
    else
      assert players[i..] == [players[i]] + players[i + 1..];
      FirstNamed(players, name, i + 1)
  }
}
