/** Concrete boards: a length-3 ship on a 10-by-10 board, the default fleet,
    a ship placed a second time, and inputs that show what the
    endpoint-in-span overlap test accepts. */
module Scenarios {
  import opened Results
  import opened Ships
  import opened Helpers
  import opened Boards
  import opened BoardProperties

  /** The fleet the scene setup gives each player, on a 10-by-10 board. */
  const DefaultFleetLengths: seq<int> := [5, 4, 3, 3, 2]
  const DefaultSize: int := 10

  /** Board(10, 10) with a length-3 ship along row 0, columns 0 to 2: an area
      starting on column 2 is taken; hitting (0, 1) damages the ship once, and
      hitting (0, 0) and (0, 2) as well sinks it. */
  lemma ThreeCellShipWalkThrough()
    ensures var b0 := NewBoard(10, 10).value;
            var ship := NewShip(3).value;
            var area := Area(top := 0, right := 2, bottom := 0, left := 0);
            && area == GetAreaForShip(0, 0, ship)
            && PlaceShip(b0, Unregistered(ship), area).Ok?
            && var b1 := PlaceShip(b0, Unregistered(ship), area).value.board;
               && IsAreaEmpty(b1, Area(top := 0, right := 4, bottom := 0, left := 2)) == Ok(false)
               && ReceiveAttack(b1, 0, 1).Ok?
               && var b2 := ReceiveAttack(b1, 0, 1).value.board;
                  && Cell(b2, 0, 1) == Hit
                  && b2.ships[0].hitCount == 1 && !IsSunk(b2.ships[0])
                  && ReceiveAttack(b2, 0, 0).Ok?
                  && var b3 := ReceiveAttack(b2, 0, 0).value.board;
                     && ReceiveAttack(b3, 0, 2).Ok?
                     && var b4 := ReceiveAttack(b3, 0, 2).value.board;
                        && b4.ships[0].hitCount == 3 && IsSunk(b4.ships[0]) && IsAllSunk(b4)
  {
    var b0 := NewBoard(10, 10).value;
    var ship := NewShip(3).value;
    var area := Area(top := 0, right := 2, bottom := 0, left := 0);
    var b1 := PlaceShip(b0, Unregistered(ship), area).value.board;
    assert b1.ships == [Place(ship, area)];
    assert Blocks(b1.ships[0], Area(top := 0, right := 4, bottom := 0, left := 2));
    assert FirstOccupant(b1.ships, 0, 0, 1);
    var b2 := ReceiveAttack(b1, 0, 1).value.board;
    assert FirstOccupant(b2.ships, 0, 0, 0);
    var b3 := ReceiveAttack(b2, 0, 0).value.board;
    assert FirstOccupant(b3.ships, 0, 0, 2);
  }

  /** The two-corner bounds check accepts an area whose left and right are
      swapped. Against a ship on columns 0-2, the area with right end 1 and
      left end 5 is refused, though it shares no cell with the ship and
      does not strictly contain its span. */
  lemma SwappedCornersAreRefused()
    ensures var b0 := NewBoard(1, 10).value;
            var ship := Area(0, 2, 0, 0);
            var swapped := Area(0, 1, 0, 5);
            && PlaceShip(b0, Unregistered(NewShip(3).value), ship).Ok?
            && var b1 := PlaceShip(b0, Unregistered(NewShip(3).value), ship).value.board;
               && AreaInBoundaries(b1, swapped)
               && IsAreaEmpty(b1, swapped) == Ok(false)
               && !Intersect(swapped, ship)
               && !StrictlyContains(swapped.left, swapped.right, ship.left, ship.right)
  {
    var b0 := NewBoard(1, 10).value;
    var b1 := PlaceShip(b0, Unregistered(NewShip(3).value), Area(0, 2, 0, 0)).value.board;
    assert b1.ships == [Place(NewShip(3).value, Area(0, 2, 0, 0))];
    assert Blocks(b1.ships[0], Area(0, 1, 0, 5));
  }

  /** A vertical ship down column 2 and a horizontal ship along row 1 cross
      at (1, 2), yet the overlap test lets the second one be placed: neither
      end of the new ship lies in the first ship's column span. */
  lemma CrossingShipIsAccepted()
    ensures var b0 := NewBoard(10, 10).value;
            var down := GetAreaForShip(0, 2, NewShip(3).value, true);
            var across := GetAreaForShip(1, 0, NewShip(5).value);
            && PlaceShip(b0, Unregistered(NewShip(3).value), down).Ok?
            && var b1 := PlaceShip(b0, Unregistered(NewShip(3).value), down).value.board;
               && IsAreaEmpty(b1, across) == Ok(true)
               && PlaceShip(b1, Unregistered(NewShip(5).value), across).Ok?
               && Covers(down, 1, 2) && Covers(across, 1, 2)
               && Intersect(across, down)
  {
    var b0 := NewBoard(10, 10).value;
    var down := GetAreaForShip(0, 2, NewShip(3).value, true);
    var across := GetAreaForShip(1, 0, NewShip(5).value);
    var b1 := PlaceShip(b0, Unregistered(NewShip(3).value), down).value.board;
    assert b1.ships == [Place(NewShip(3).value, down)];
    assert !Blocks(b1.ships[0], across);
  }

  /** Placement depends on order: a length-2 ship on columns 3 to 4 and a
      length-5 ship on columns 2 to 6 of row 0 can be placed in that order,
      but not the other way round. */
  lemma PlacementOrderMatters()
    ensures var b0 := NewBoard(10, 10).value;
            var short := NewShip(2).value;
            var long := NewShip(5).value;
            var inner := GetAreaForShip(0, 3, short);
            var outer := GetAreaForShip(0, 2, long);
            && PlaceShip(b0, Unregistered(short), inner).Ok?
            && PlaceShip(PlaceShip(b0, Unregistered(short), inner).value.board, Unregistered(long), outer).Ok?
            && PlaceShip(b0, Unregistered(long), outer).Ok?
            && PlaceShip(PlaceShip(b0, Unregistered(long), outer).value.board, Unregistered(short), inner) == Err(AreaTaken)
  {
    var b0 := NewBoard(10, 10).value;
    var short := NewShip(2).value;
    var long := NewShip(5).value;
    var inner := GetAreaForShip(0, 3, short);
    var outer := GetAreaForShip(0, 2, long);
    var first := PlaceShip(b0, Unregistered(short), inner).value.board;
    assert first.ships == [Place(short, inner)];
    assert !Blocks(first.ships[0], outer);
    var other := PlaceShip(b0, Unregistered(long), outer).value.board;
    assert other.ships == [Place(long, outer)];
    assert Blocks(other.ships[0], inner);
  }

  /** The 1-by-5 board of `OverlappedFleetCannotSink` after the first `n`
      cells of its row were attacked: a length-2 ship over columns 1 to 2 was
      placed first and a length-5 ship over the whole row second. */
  function OverlapStage(n: nat): Board
    requires n <= 5
  {
    var cells := seq(5, j => if j < n then Hit else Empty);
    var shortHits := if n <= 1 then 0 else if n == 2 then 1 else 2;
    var longHits := if n == 0 then 0 else if n <= 3 then 1 else n - 2;
    Board([cells], [Ship(2, shortHits, Some(Area(0, 2, 0, 1)), true),
                    Ship(5, longHits, Some(Area(0, 4, 0, 0)), true)])
  }

  /** Placing the length-2 ship and then the length-5 ship over it is
      accepted and gives the first stage. */
  lemma OverlappingPlacementAccepted()
    ensures var b0 := NewBoard(1, 5).value;
            var short := NewShip(2).value;
            var long := NewShip(5).value;
            && PlaceShip(b0, Unregistered(short), GetAreaForShip(0, 1, short)).Ok?
            && var b1 := PlaceShip(b0, Unregistered(short), GetAreaForShip(0, 1, short)).value.board;
               && PlaceShip(b1, Unregistered(long), GetAreaForShip(0, 0, long)).Ok?
               && PlaceShip(b1, Unregistered(long), GetAreaForShip(0, 0, long)).value.board == OverlapStage(0)
  {
    var b0 := NewBoard(1, 5).value;
    var short := NewShip(2).value;
    var long := NewShip(5).value;
    var b1 := PlaceShip(b0, Unregistered(short), GetAreaForShip(0, 1, short)).value.board;
    assert b1.ships == [Place(short, GetAreaForShip(0, 1, short))];
    assert !Blocks(b1.ships[0], GetAreaForShip(0, 0, long));
    assert b0.cells[0] == OverlapStage(0).cells[0];
    assert b0.cells == OverlapStage(0).cells;
  }

  /** Attacking column `n` of stage `n` hits and gives stage `n + 1`: the
      shared cells 1 and 2 count for the ship placed first only. */
  lemma OverlapAttack(n: nat)
    requires n < 5
    ensures ReceiveAttack(OverlapStage(n), 0, n).Ok?
    ensures ReceiveAttack(OverlapStage(n), 0, n).value.board == OverlapStage(n + 1)
  {
    var b := OverlapStage(n);
    var k := if n == 1 || n == 2 then 0 else 1;
    assert FirstOccupant(b.ships, k, 0, n);
    var b' := ReceiveAttack(b, 0, n).value.board;
    assert b'.cells[0] == OverlapStage(n + 1).cells[0];
    assert b'.cells == OverlapStage(n + 1).cells;
  }

  /** The columns n .. 4 in increasing order. */
  function ColumnsFrom(n: nat): seq<int>
    decreases 5 - n
  {
    if n >= 5 then [] else [n] + ColumnsFrom(n + 1)
  }

  /** Attacking the first of the given columns hits on stage `n` and leaves
      the rest to stage `n + 1`. */
  lemma OverlapRowStep(n: nat, rest: seq<int>)
    requires n < 5
    ensures AttackRow(OverlapStage(n), 0, [n] + rest) == AttackRow(OverlapStage(n + 1), 0, rest)
  {
    OverlapAttack(n);
    assert ([n] + rest)[0] == n && ([n] + rest)[1..] == rest;
  }

  /** Attacking the remaining columns n .. 4 in order, from stage `n`,
      reaches the last stage. */
  lemma {:induction false} OverlapAttackRest(n: nat)
    requires n <= 5
    ensures AttackRow(OverlapStage(n), 0, ColumnsFrom(n)) == Ok(OverlapStage(5))
    decreases 5 - n
  {
    if n < 5 {
      OverlapRowStep(n, ColumnsFrom(n + 1));
      OverlapAttackRest(n + 1);
    }
  }

  /** A board whose ships overlap can never be all sunk: after every cell of
      the row is attacked the length-5 ship has only 3 hits, so the fleet is
      not all sunk, and no cell is left to attack. */
  lemma OverlappedFleetCannotSink()
    ensures AttackRow(OverlapStage(0), 0, [0, 1, 2, 3, 4]) == Ok(OverlapStage(5))
    ensures !IsAllSunk(OverlapStage(5)) && OverlapStage(5).ships[1].hitCount == 3
    ensures forall r, c :: !IsCoordinateAttackable(OverlapStage(5), r, c)
  {
    OverlapAttackRest(0);
    assert ColumnsFrom(0) == [0, 1, 2, 3, 4];
    FullyAttackedStage();
  }

  /** In the last stage every cell is attacked and the long ship is afloat. */
  lemma FullyAttackedStage()
    ensures !IsAllSunk(OverlapStage(5)) && OverlapStage(5).ships[1].hitCount == 3
    ensures forall r, c :: !IsCoordinateAttackable(OverlapStage(5), r, c)
  {
    assert !IsSunk(OverlapStage(5).ships[1]);
  }

  /** A 1-by-5 board whose only ship, of length 2, was first placed on
      columns 0 and 1 and then placed again on columns 3 and 4. */
  const Moved: Board := Board([[Empty, Empty, Empty, Empty, Empty]], [Ship(2, 0, Some(Area(0, 4, 0, 3)), true)])

  /** Placing a ship and then placing the same ship again elsewhere is
      accepted and moves it: the board still holds one ship, now on the
      second area. */
  lemma ReplacedShipLeavesItsFirstArea()
    ensures var b0 := NewBoard(1, 5).value;
            var ship := NewShip(2).value;
            && PlaceShip(b0, Unregistered(ship), Area(0, 1, 0, 0)).Ok?
            && var b1 := PlaceShip(b0, Unregistered(ship), Area(0, 1, 0, 0)).value.board;
               && PlaceShip(b1, Registered(0), Area(0, 4, 0, 3)).Ok?
               && PlaceShip(b1, Registered(0), Area(0, 4, 0, 3)).value.board == Moved
  {
    var b0 := NewBoard(1, 5).value;
    var ship := NewShip(2).value;
    assert b0.cells[0] == Moved.cells[0];
    var b1 := PlaceShip(b0, Unregistered(ship), Area(0, 1, 0, 0)).value.board;
    assert b1.ships == [Place(ship, Area(0, 1, 0, 0))];
    assert !Blocks(b1.ships[0], Area(0, 4, 0, 3));
  }

  /** On the moved ship's board the first area is water: an attack there
      misses, and two hits on the second area sink the whole fleet. */
  lemma MovedShipSinksOnItsNewArea()
    ensures ReceiveAttack(Moved, 0, 0).Ok?
    ensures Cell(ReceiveAttack(Moved, 0, 0).value.board, 0, 0) == Missed
    ensures AttackRow(Moved, 0, [0, 3, 4]).Ok?
    ensures IsAllSunk(AttackRow(Moved, 0, [0, 3, 4]).value)
  {
    var b1 := ReceiveAttack(Moved, 0, 0).value.board;
    assert b1.ships == Moved.ships;
    var b2 := ReceiveAttack(b1, 0, 3).value.board;
    assert FirstOccupant(b1.ships, 0, 0, 3);
    assert b2.ships[0].hitCount == 1;
    assert FirstOccupant(b2.ships, 0, 0, 4);
    var b3 := ReceiveAttack(b2, 0, 4).value.board;
    assert b3.ships[0].hitCount == 2;
    assert AttackRow(b3, 0, []) == Ok(b3);
  }

  /** Attacks the given columns of one row in order, stopping at the first failure. */
  function AttackRow(b: Board, row: int, cols: seq<int>): Result<Board>
    decreases |cols|
  {
    if cols == [] then Ok(b)
    else
      var step :- ReceiveAttack(b, row, cols[0]);
      AttackRow(step.board, row, cols[1..])
  }

  /** Every ship of the default fleet can be built and placed, one per row
      from the top-left corner, on a 10-by-10 board. */
  lemma DefaultFleetFits()
    ensures forall i :: 0 <= i < |DefaultFleetLengths| ==> NewShip(DefaultFleetLengths[i]).Ok?
    ensures NewBoard(DefaultSize, DefaultSize).Ok?
    ensures forall i :: 0 <= i < |DefaultFleetLengths| ==>
              AreaInBoundaries(NewBoard(DefaultSize, DefaultSize).value,
                               GetAreaForShip(i, 0, NewShip(DefaultFleetLengths[i]).value))
  {
  }
}
