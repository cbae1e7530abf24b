/** Turning a ship's anchor cell and orientation into the area it would
    occupy (`helpers.ts`). Horizontal is the default orientation. */
module Helpers {
  import opened Ships

  /** The area of a ship anchored at (row, col): the anchor is always the
      top-left corner, and the ship extends `length` cells to the right, or
      downwards when vertical. */
  function GetAreaForShip(row: int, col: int, ship: Ship, isVertical: bool := false): (r: Area)
    ensures r.top == row && r.left == col
    ensures 1 <= ship.length ==> WellFormed(r)
    ensures !isVertical ==> forall x, y :: Covers(r, x, y) <==> x == row && col <= y < col + ship.length
    ensures isVertical ==> forall x, y :: Covers(r, x, y) <==> y == col && row <= x < row + ship.length
  {
    Area(
      top := row,
      right := if !isVertical then col + ship.length - 1 else col,
      bottom := if !isVertical then row else row + ship.length - 1,
      left := col)
  }

  /** The number of cells an area spans, rows times columns. */
  function CellCount(a: Area): int {
    (a.bottom - a.top + 1) * (a.right - a.left + 1)
  }

  /** A horizontal area is one row high and `length` columns wide; a vertical
      one is one column wide and `length` rows high; either way it spans
      exactly `length` cells. */
  lemma AreaForShipSpansLength(row: int, col: int, ship: Ship, isVertical: bool)
    requires 1 <= ship.length
    ensures var a := GetAreaForShip(row, col, ship, isVertical);
            && (!isVertical ==> a.bottom == a.top && a.right - a.left + 1 == ship.length)
            && (isVertical ==> a.right == a.left && a.bottom - a.top + 1 == ship.length)
            && CellCount(a) == ship.length
  {
  }

  /** The default orientation is horizontal. */
  lemma DefaultIsHorizontal(row: int, col: int, ship: Ship)
    ensures GetAreaForShip(row, col, ship) == GetAreaForShip(row, col, ship, false)
    ensures GetAreaForShip(row, col, ship).bottom == row
    ensures GetAreaForShip(row, col, ship).right == col + ship.length - 1
  {
  }
}
