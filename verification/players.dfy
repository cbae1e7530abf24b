/** A player (`Player.ts`): a name bound to a board and a fleet. */
module Players {
  import opened Results
  import opened ShipDefs = Ships
  import opened Boards

  datatype Player = Player(name: string, gameBoard: Board, fleet: seq<Ship>)

  /** The constructor stores its arguments; the fleet keeps its order. */
  function NewPlayer(name: string, gameBoard: Board, ships: seq<Ship>): (p: Player)
    ensures Name(p) == name && GameBoard(p) == gameBoard
    ensures Ships(p) == ships
  {
    Player(name, gameBoard, ships)
  }

  /** The name the player was built with. */
  function Name(p: Player): (r: string)
    ensures Player(r, p.gameBoard, p.fleet) == p
  {
    p.name
  }

  /** The board the player was built with. */
  function GameBoard(p: Player): (r: Board)
    ensures Player(p.name, r, p.fleet) == p
  {
    p.gameBoard
  }

  /** The fleet, as a detached copy: the player's value cannot be changed
      through it. */
  function Ships(p: Player): (r: seq<Ship>)
    ensures Player(p.name, p.gameBoard, r) == p
  {
    p.fleet
  }

  /** The getters undo the constructor: rebuilding a player from what they
      return gives the same player. */
  lemma GettersRebuildPlayer(p: Player)
    ensures NewPlayer(Name(p), GameBoard(p), Ships(p)) == p
  {
  }

  /** Attacks `board` on behalf of the player: a coordinate that is not
      attackable fails, otherwise the board resolves the attack. */
  function Attack(p: Player, row: int, col: int, board: Board): (r: Result<BoardStep>)
    ensures !IsCoordinateAttackable(board, row, col) ==> r == Err(AlreadyAttacked)
    ensures IsCoordinateAttackable(board, row, col) ==> r == ReceiveAttack(board, row, col)
  {
    if !IsCoordinateAttackable(board, row, col) then Err(AlreadyAttacked)
    else ReceiveAttack(board, row, col)
  }

  /** The player's attack succeeds exactly when the board's own does, with
      the same resulting board; only the failure kind can differ (an
      out-of-grid coordinate fails as not attackable). */
  lemma AttackAgreesWithReceiveAttack(p: Player, row: int, col: int, board: Board)
    ensures Attack(p, row, col, board).Ok? <==> ReceiveAttack(board, row, col).Ok?
    ensures Attack(p, row, col, board).Ok? ==> Attack(p, row, col, board) == ReceiveAttack(board, row, col)
  {
  }
}
