/**
 * The entities of the game: the two symbols, the six game statuses, players,
 * the persisted game row, the persisted move fact and the error kinds the
 * services raise.
 */
module Model {
  import opened Wrappers

  /** A cell index of the 3x3 board, row-major (0-2, 3-5, 6-8). */
  type Cell = i: nat | i < 9

  /** The symbol a player puts on the board. */
  datatype Movement = X | O

  /** A board as MoveService builds it: nine cells, `None` is Java's `null`. */
  type Board = seq<Option<Movement>>

  datatype GameStatus =
    | WaitingForOpponent
    | PlayerXTurn
    | PlayerOTurn
    | XWon
    | OWon
    | Draw

  /** A registered player; the name is immutable once stored. */
  datatype Player = Player(id: nat, name: string)

  /**
   * The persisted game row: its status, the initiator (plays X) and the
   * optional opponent (plays O). The creation date and the version token are
   * not part of this model.
   */
  datatype Game = Game(status: GameStatus, initiator: Player, opponent: Option<Player>)

  /** One immutable move fact: which game, which player, which cell, which symbol. */
  datatype Move = Move(game: nat, player: nat, index: Cell, movement: Movement)

  /** The exceptions of the services, one constructor per exception class. */
  datatype Error =
    | NotFound            // NotFoundException
    | Forbidden           // ForbiddenException
    | Conflict            // ConflictException
    | IllegalArgument     // IllegalArgumentException
    | IllegalState        // IllegalStateException
    | PlayerAlreadyInGame // PlayerAlreadyInGameException

  /** The statuses that count towards "one active game per player". */
  predicate IsActive(s: GameStatus)
    ensures IsActive(s) <==> !(s == XWon || s == OWon || s == Draw)
  {
    s == WaitingForOpponent || s == PlayerXTurn || s == PlayerOTurn
  }

  /** `Movement.name()`. */
  function Name(m: Movement): (r: string)
    ensures |r| == 1 && r != "_"
    ensures m == X <==> r == "X"
    ensures m == O <==> r == "O"
  {
    match m
    case X => "X"
    case O => "O"
  }

  /** A present symbol is one of the two (the solver does not see this through the generic `Option`). */
  lemma SomeMovement(c: Option<Movement>)
    ensures c.Some? ==> c == Some(X) || c == Some(O)
  {
    if c.Some? {
      var m: Movement := c.value;
      assert m == X || m == O;
    }
  }

  /** The empty board: nine `null` cells. */
  function EmptyBoard(): (b: Board)
    ensures |b| == 9 && forall i | 0 <= i < 9 :: b[i].None?
  {
    seq(9, _ => None)
  }
}
