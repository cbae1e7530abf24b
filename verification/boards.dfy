/** A player's grid (`GameBoard.ts`): a rectangular matrix of cell statuses
    plus the ships registered by successful placements.

    `ships` lists every registered ship object once, in the order of its
    first registration. Placing a ship that is already registered moves
    that entry to the new area. The source pushes the same object onto its
    list a second time instead, but `find` and `every` only ever see the
    first occurrence of an object (`Seqs.RepeatIsUnobservable`), so the
    second entry changes nothing the board reports.

    The board accepts placements and attacks at any time; gating attacks
    to the battle phase is the controller's job. Each successful operation
    returns the new board together with the notification it emits. */
module Boards {
  import opened Results
  import opened Seqs
  import opened Ships

  datatype CellStatus = Empty | Hit | Missed

  /** Every row is as long as the first one. */
  predicate Rectangular(g: seq<seq<CellStatus>>) {
    forall i :: 0 <= i < |g| ==> |g[i]| == |g[0]|
  }

  type Grid = g: seq<seq<CellStatus>> | Rectangular(g) witness []

  datatype Board = Board(cells: Grid, ships: seq<Ship>)

  /** The notifications a board emits: `cellStatusChanged` and `shipPlaced`. */
  datatype BoardSignal =
    | CellStatusChanged(row: int, col: int, status: CellStatus)
    | ShipPlaced(ship: Ship, area: Area)

  /** The board after a successful operation and the notification it emitted. */
  datatype BoardStep = BoardStep(board: Board, signal: BoardSignal)

  /** The number of rows; each of them has `ColumnCount` cells. */
  function RowCount(b: Board): (r: nat)
    ensures r == |b.cells|
    ensures forall i :: 0 <= i < r ==> |b.cells[i]| == ColumnCount(b)
  {
    |b.cells|
  }

  /** The length of the first row, or 0 for a board without rows; every row
      has this length. */
  function ColumnCount(b: Board): (r: nat)
    ensures forall i :: 0 <= i < |b.cells| ==> |b.cells[i]| == r
    ensures |b.cells| == 0 ==> r == 0
  {
    if |b.cells| == 0 then 0 else |b.cells[0]|
  }

  /** The row and column counts admit the cell, which is exactly when the
      grid holds a cell at (row, col). */
  function InBoundaries(b: Board, row: int, col: int): (r: bool)
    ensures r <==> 0 <= row < |b.cells| && 0 <= col < |b.cells[row]|
  {
    0 <= row < RowCount(b) && 0 <= col < ColumnCount(b)
  }

  function Cell(b: Board, row: int, col: int): CellStatus
    requires InBoundaries(b, row, col)
  {
    b.cells[row][col]
  }

  /** Both boards have the same number of rows and columns. */
  predicate SameShape(b: Board, b': Board) {
    RowCount(b) == RowCount(b') && ColumnCount(b) == ColumnCount(b')
  }

  /** The two corners the boundary check of an area looks at: (top, right)
      and (bottom, left). */
  predicate AreaInBoundaries(b: Board, a: Area) {
    InBoundaries(b, a.top, a.right) && InBoundaries(b, a.bottom, a.left)
  }

  /** The point form of `_throwIfOutOfBoundaries`. */
  function ValidatePoint(b: Board, row: int, col: int): (r: Result<()>)
    ensures r.Ok? <==> InBoundaries(b, row, col)
    ensures r.Err? ==> r.error == OutOfBounds
  {
    if InBoundaries(b, row, col) then Ok(()) else Err(OutOfBounds)
  }

  /** The area form of `_throwIfOutOfBoundaries`: (top, right), then (bottom, left). */
  function ValidateArea(b: Board, a: Area): (r: Result<()>)
    ensures r.Ok? <==> AreaInBoundaries(b, a)
    ensures r.Err? ==> r.error == OutOfBounds
  {
    var _ :- ValidatePoint(b, a.top, a.right);
    ValidatePoint(b, a.bottom, a.left)
  }

  /** The constructor: a rows-by-cols grid of empty cells and no ships. */
  function NewBoard(rows: int, cols: int): (r: Result<Board>)
    ensures r.Err? <==> rows <= 0 || cols <= 0
    ensures r.Err? ==> r.error == InvalidArgument
    ensures r.Ok? ==> RowCount(r.value) == rows && ColumnCount(r.value) == cols
    ensures r.Ok? ==> r.value.ships == []
    ensures r.Ok? ==> forall i, j :: InBoundaries(r.value, i, j) ==> Cell(r.value, i, j) == Empty
  {
    if rows <= 0 || cols <= 0 then Err(InvalidArgument)
    else Ok(Board(seq(rows, _ => seq(cols, _ => Empty)), []))
  }

  /** The error-checked cell read. */
  function GetCellStatus(b: Board, row: int, col: int): (r: Result<CellStatus>)
    ensures r.Err? <==> !InBoundaries(b, row, col)
    ensures r.Err? ==> r.error == OutOfBounds
    ensures r.Ok? ==> r.value == Cell(b, row, col)
  {
    var _ :- ValidatePoint(b, row, col);
    Ok(b.cells[row][col])
  }

  /** True iff every registered ship is sunk; vacuously true without ships. */
  function IsAllSunk(b: Board): (r: bool)
    ensures r <==> forall i :: 0 <= i < |b.ships| ==> IsSunk(b.ships[i])
    ensures |b.ships| == 0 ==> r
  {
    Every(b.ships, s => IsSunk(s))
  }

  function InSpan(x: int, lo: int, hi: int): bool {
    lo <= x <= hi
  }

  /** The overlap test of `isAreaEmpty` for one registered ship: a horizontal
      endpoint of `a` lies in the ship's column span, and a vertical endpoint
      of `a` lies in its row span. It looks only at the endpoints of `a`. */
  predicate Blocks(s: Ship, a: Area) {
    && s.area.Some?
    && (InSpan(a.left, s.area.value.left, s.area.value.right)
        || InSpan(a.right, s.area.value.left, s.area.value.right))
    && (InSpan(a.top, s.area.value.top, s.area.value.bottom)
        || InSpan(a.bottom, s.area.value.top, s.area.value.bottom))
  }

  /** Fails when a corner of the area is outside the grid; otherwise true iff
      no registered ship blocks the area. */
  function IsAreaEmpty(b: Board, a: Area): (r: Result<bool>)
    ensures r.Err? <==> !AreaInBoundaries(b, a)
    ensures r.Err? ==> r.error == OutOfBounds
    ensures r.Ok? ==> (r.value <==> forall i :: 0 <= i < |b.ships| ==> !Blocks(b.ships[i], a))
  {
    var _ :- ValidateArea(b, a);
    Ok(FindIndex(b.ships, s => Blocks(s, a)) == -1)
  }

  /** The ship object handed to `PlaceShip`: one this board has not
      registered, or the registered ship at position `index`. */
  datatype ShipHandle = Unregistered(ship: Ship) | Registered(index: nat)

  /** A registered handle names one of the board's ships. */
  predicate ValidHandle(b: Board, h: ShipHandle) {
    h.Registered? ==> h.index < |b.ships|
  }

  /** The current state of the ship object a handle names. */
  function Denoted(b: Board, h: ShipHandle): Ship
    requires ValidHandle(b, h)
  {
    match h
    case Unregistered(s) => s
    case Registered(k) => b.ships[k]
  }

  /** Places the ship `h` names on `a`: out-of-grid corners fail first, then
      a blocked area. On success the ship gets the area and is marked
      placed; the cells do not change. An unregistered ship is appended to
      the ships. An already placed ship is not refused: it moves to `a`,
      keeping its position and its damage, and it takes part in the overlap
      test against the area it is leaving. */
  function PlaceShip(b: Board, h: ShipHandle, a: Area): (r: Result<BoardStep>)
    requires ValidHandle(b, h)
    ensures !AreaInBoundaries(b, a) ==> r == Err(OutOfBounds)
    ensures (AreaInBoundaries(b, a) && exists i :: 0 <= i < |b.ships| && Blocks(b.ships[i], a))
            ==> r == Err(AreaTaken)
    ensures r.Ok? <==> IsAreaEmpty(b, a) == Ok(true)
    ensures r.Ok? ==> r.value.board.cells == b.cells
    ensures r.Ok? && h.Unregistered? ==> r.value.board.ships == b.ships + [Place(h.ship, a)]
    ensures r.Ok? && h.Registered? ==>
              && |r.value.board.ships| == |b.ships|
              && r.value.board.ships[h.index] == Place(b.ships[h.index], a)
              && forall k :: 0 <= k < |b.ships| && k != h.index ==> r.value.board.ships[k] == b.ships[k]
    ensures r.Ok? ==> r.value.signal == ShipPlaced(Place(Denoted(b, h), a), a)
  {
    var empty :- IsAreaEmpty(b, a);
    if !empty then Err(AreaTaken)
    else
      var placed := Place(Denoted(b, h), a);
      var ships := if h.Registered? then b.ships[h.index := placed] else b.ships + [placed];
      Ok(BoardStep(Board(b.cells, ships), ShipPlaced(placed, a)))
  }

  /** True iff the coordinate is inside the grid and not attacked yet; never fails. */
  function IsCoordinateAttackable(b: Board, row: int, col: int): (r: bool)
    ensures r <==> GetCellStatus(b, row, col) == Ok(Empty)
  {
    InBoundaries(b, row, col) && Cell(b, row, col) == Empty
  }

  /** The ship is placed and its area covers the cell. */
  predicate Occupies(s: Ship, row: int, col: int) {
    s.area.Some? && Covers(s.area.value, row, col)
  }

  /** `k` is the first registered ship that occupies the cell. */
  predicate FirstOccupant(ships: seq<Ship>, k: int, row: int, col: int) {
    && 0 <= k < |ships|
    && Occupies(ships[k], row, col)
    && forall j :: 0 <= j < k ==> !Occupies(ships[j], row, col)
  }

  /** Index of the first registered ship occupying the cell, or -1. */
  function ShipAtCoordinate(b: Board, row: int, col: int): (r: int)
    ensures r == -1 <==> forall k :: 0 <= k < |b.ships| ==> !Occupies(b.ships[k], row, col)
    ensures r != -1 ==> FirstOccupant(b.ships, r, row, col)
  {
    FindIndex(b.ships, s => Occupies(s, row, col))
  }

  /** Resolves an attack: out of grid fails first, then a cell already
      attacked. Otherwise only that cell changes, to `Hit` when some ship
      occupies it and `Missed` when none does, and only the first occupying
      ship takes a hit. */
  function ReceiveAttack(b: Board, row: int, col: int): (r: Result<BoardStep>)
    ensures !InBoundaries(b, row, col) ==> r == Err(OutOfBounds)
    ensures InBoundaries(b, row, col) && Cell(b, row, col) != Empty ==> r == Err(AlreadyAttacked)
    ensures r.Ok? <==> IsCoordinateAttackable(b, row, col)
    ensures r.Ok? ==> SameShape(b, r.value.board)
    ensures r.Ok? ==> forall i, j :: (InBoundaries(b, i, j) && (i, j) != (row, col))
                                     ==> Cell(r.value.board, i, j) == Cell(b, i, j)
    ensures r.Ok? ==> (Cell(r.value.board, row, col) == Hit
                       <==> exists k :: 0 <= k < |b.ships| && Occupies(b.ships[k], row, col))
    ensures r.Ok? ==> Cell(r.value.board, row, col) != Empty
    ensures r.Ok? ==> |r.value.board.ships| == |b.ships|
    ensures r.Ok? ==> forall k :: 0 <= k < |b.ships| ==>
                        r.value.board.ships[k]
                        == if FirstOccupant(b.ships, k, row, col) then Ships.Hit(b.ships[k]) else b.ships[k]
    ensures r.Ok? ==> r.value.signal == CellStatusChanged(row, col, Cell(r.value.board, row, col))
  {
    var current :- GetCellStatus(b, row, col);
    if current != Empty then Err(AlreadyAttacked)
    else
      var k := ShipAtCoordinate(b, row, col);
      var ships := if k == -1 then b.ships else b.ships[k := Ships.Hit(b.ships[k])];
      var status := if k == -1 then Missed else Hit;
      var cells := SetCell(b.cells, row, col, status);
      Ok(BoardStep(Board(cells, ships), CellStatusChanged(row, col, status)))
  }

  /** The grid with one cell replaced; the shape is kept. */
  function SetCell(g: Grid, row: int, col: int, status: CellStatus): (r: Grid)
    requires 0 <= row < |g| && 0 <= col < |g[row]|
    ensures |r| == |g| && |r[0]| == |g[0]|
    ensures r[row][col] == status
    ensures forall i, j :: 0 <= i < |g| && 0 <= j < |g[i]| && (i, j) != (row, col) ==> r[i][j] == g[i][j]
  {
    var r := g[row := g[row][col := status]];
    assert forall i :: 0 <= i < |r| ==> |r[i]| == |g[i]|;
    r
  }
}
