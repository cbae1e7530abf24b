/** Properties of the board that relate several operations or compare the
    overlap test of `isAreaEmpty` with plain rectangle intersection. */
module BoardProperties {
  import opened Results
  import opened Ships
  import opened Helpers
  import opened Boards

  /** The coordinates whose cell has been attacked. */
  function Attacked(b: Board): set<(int, int)> {
    set i, j | 0 <= i < RowCount(b) && 0 <= j < ColumnCount(b) && Cell(b, i, j) != Empty :: (i, j)
  }

  /** A successful attack marks exactly the attacked cell, which was not
      marked before; no attacked cell ever becomes empty again. */
  lemma AttackMarksExactlyOneCell(b: Board, row: int, col: int)
    requires ReceiveAttack(b, row, col).Ok?
    ensures (row, col) !in Attacked(b)
    ensures Attacked(ReceiveAttack(b, row, col).value.board) == Attacked(b) + {(row, col)}
  {
    var b' := ReceiveAttack(b, row, col).value.board;
    forall p | p in Attacked(b') ensures p in Attacked(b) + {(row, col)} {
      var (i, j) := p;
      assert InBoundaries(b, i, j);
    }
    forall p | p in Attacked(b) + {(row, col)} ensures p in Attacked(b') {
      var (i, j) := p;
      assert InBoundaries(b, i, j);
    }
  }

  /** A cell is attacked at most once: attacking it again always fails. */
  lemma SecondAttackFails(b: Board, row: int, col: int)
    requires ReceiveAttack(b, row, col).Ok?
    ensures ReceiveAttack(ReceiveAttack(b, row, col).value.board, row, col) == Err(AlreadyAttacked)
  {
  }

  /** Every ship on the board satisfies the ship invariant. */
  predicate ShipsValid(b: Board) {
    forall k :: 0 <= k < |b.ships| ==> Ships.Valid(b.ships[k])
  }

  /** Attacks keep every ship's damage between 0 and its length. */
  lemma AttackKeepsShipsValid(b: Board, row: int, col: int)
    requires ShipsValid(b)
    requires ReceiveAttack(b, row, col).Ok?
    ensures ShipsValid(ReceiveAttack(b, row, col).value.board)
  {
    var b' := ReceiveAttack(b, row, col).value.board;
    forall k | 0 <= k < |b'.ships| ensures Ships.Valid(b'.ships[k]) {
      assert Ships.Valid(b.ships[k]);
    }
  }

  /** Placing a valid ship keeps every ship valid, and the ship placed ends
      up placed on the area: at the end of the list when it was not
      registered, at its old position when it was. */
  lemma PlaceKeepsShipsValid(b: Board, h: ShipHandle, a: Area)
    requires ShipsValid(b) && ValidHandle(b, h) && Ships.Valid(Denoted(b, h))
    requires PlaceShip(b, h, a).Ok?
    ensures ShipsValid(PlaceShip(b, h, a).value.board)
    ensures var s := PlaceShip(b, h, a).value.board.ships;
            var k := if h.Registered? then h.index else |s| - 1;
            0 <= k < |s| && s[k].isPlaced && s[k].area == Some(a)
  {
  }

  /** Placing a registered ship again moves it: it covers exactly the new
      area, keeps its damage, and no ship is added, so whether the fleet is
      all sunk does not change. */
  lemma PlacingAgainMovesTheShip(b: Board, k: nat, a: Area)
    requires k < |b.ships| && PlaceShip(b, Registered(k), a).Ok?
    ensures var b' := PlaceShip(b, Registered(k), a).value.board;
            && |b'.ships| == |b.ships|
            && (forall row, col :: Occupies(b'.ships[k], row, col) <==> Covers(a, row, col))
            && b'.ships[k].hitCount == b.ships[k].hitCount
            && IsAllSunk(b') == IsAllSunk(b)
  {
  }

  /** On valid ships, "all sunk" means every ship's damage equals its length. */
  lemma AllSunkMeansAllFullyHit(b: Board)
    requires ShipsValid(b)
    ensures IsAllSunk(b) <==> forall k :: 0 <= k < |b.ships| ==> b.ships[k].hitCount == b.ships[k].length
  {
  }

  /** For a well-formed area the two-corner boundary check is exact: it
      passes iff every cell of the area is inside the grid. */
  lemma AreaCheckCoversAllCells(b: Board, a: Area)
    requires WellFormed(a)
    ensures AreaInBoundaries(b, a) <==> forall i, j :: Covers(a, i, j) ==> InBoundaries(b, i, j)
  {
    if forall i, j :: Covers(a, i, j) ==> InBoundaries(b, i, j) {
      assert Covers(a, a.top, a.right) && Covers(a, a.bottom, a.left);
    }
  }

  /** A ship's area from `GetAreaForShip` passes the boundary check iff the
      anchor is on the grid and the far end does not stick out. */
  lemma ShipAreaInBoundaries(b: Board, row: int, col: int, ship: Ship, isVertical: bool)
    requires 1 <= ship.length
    ensures var a := GetAreaForShip(row, col, ship, isVertical);
            AreaInBoundaries(b, a)
            <==> InBoundaries(b, row, col)
                 && (!isVertical ==> col + ship.length <= ColumnCount(b))
                 && (isVertical ==> row + ship.length <= RowCount(b))
  {
  }

  /** The two closed intervals share a point. */
  predicate SpansMeet(lo1: int, hi1: int, lo2: int, hi2: int) {
    lo1 <= hi2 && lo2 <= hi1
  }

  /** Plain rectangle intersection: the areas share a cell. */
  predicate Intersect(a: Area, t: Area) {
    SpansMeet(a.left, a.right, t.left, t.right) && SpansMeet(a.top, a.bottom, t.top, t.bottom)
  }

  /** `a` strictly contains the span [lo, hi] on that axis. */
  predicate StrictlyContains(alo: int, ahi: int, lo: int, hi: int) {
    alo < lo && hi < ahi
  }

  lemma EndpointInSpanIff(alo: int, ahi: int, lo: int, hi: int)
    requires alo <= ahi && lo <= hi
    ensures (InSpan(alo, lo, hi) || InSpan(ahi, lo, hi))
            <==> SpansMeet(alo, ahi, lo, hi) && !StrictlyContains(alo, ahi, lo, hi)
  {
    if SpansMeet(alo, ahi, lo, hi) && !StrictlyContains(alo, ahi, lo, hi) {
      if lo <= alo {
        assert InSpan(alo, lo, hi);
      } else {
        assert InSpan(ahi, lo, hi);
      }
    }
  }

  /** What the overlap test of `isAreaEmpty` decides, for well-formed areas:
      a placed ship blocks `a` iff the rectangles intersect and `a` does not
      strictly contain the ship's span on either axis. So it never rejects a
      disjoint area, but it misses an area that runs across a ship. */
  lemma BlocksIffIntersectWithoutContainment(s: Ship, a: Area)
    requires s.area.Some? && WellFormed(s.area.value) && WellFormed(a)
    ensures var t := s.area.value;
            Blocks(s, a)
            <==> && Intersect(a, t)
                 && !StrictlyContains(a.left, a.right, t.left, t.right)
                 && !StrictlyContains(a.top, a.bottom, t.top, t.bottom)
  {
    var t := s.area.value;
    EndpointInSpanIff(a.left, a.right, t.left, t.right);
    EndpointInSpanIff(a.top, a.bottom, t.top, t.bottom);
  }

  /** Two new ships on well-formed areas that do not intersect each other,
      and that the board accepts one at a time, are accepted in either
      order, with the same cells and the same ships as a result. */
  lemma DisjointPlacementsCommute(b: Board, s1: Ship, a1: Area, s2: Ship, a2: Area)
    requires WellFormed(a1) && WellFormed(a2) && !Intersect(a1, a2)
    requires IsAreaEmpty(b, a1) == Ok(true) && IsAreaEmpty(b, a2) == Ok(true)
    ensures var one := PlaceShip(b, Unregistered(s1), a1);
            var two := PlaceShip(b, Unregistered(s2), a2);
            && one.Ok? && two.Ok?
            && PlaceShip(one.value.board, Unregistered(s2), a2).Ok?
            && PlaceShip(two.value.board, Unregistered(s1), a1).Ok?
            && var b12 := PlaceShip(one.value.board, Unregistered(s2), a2).value.board;
               var b21 := PlaceShip(two.value.board, Unregistered(s1), a1).value.board;
               && b12.cells == b21.cells
               && multiset(b12.ships) == multiset(b21.ships)
  {
    PlacedShipLetsDisjointAreaPass(b, s1, a1, a2);
    PlacedShipLetsDisjointAreaPass(b, s2, a2, a1);
  }

  /** For new ships on disjoint well-formed areas, placing A then B succeeds
      exactly when placing B then A does. */
  lemma PlacementOrderIrrelevant(b: Board, s1: Ship, a1: Area, s2: Ship, a2: Area)
    requires WellFormed(a1) && WellFormed(a2) && !Intersect(a1, a2)
    ensures var one := PlaceShip(b, Unregistered(s1), a1);
            var two := PlaceShip(b, Unregistered(s2), a2);
            (one.Ok? && PlaceShip(one.value.board, Unregistered(s2), a2).Ok?)
            <==> (two.Ok? && PlaceShip(two.value.board, Unregistered(s1), a1).Ok?)
  {
    var one := PlaceShip(b, Unregistered(s1), a1);
    var two := PlaceShip(b, Unregistered(s2), a2);
    if one.Ok? && PlaceShip(one.value.board, Unregistered(s2), a2).Ok? {
      SecondPlacementPassesAlone(b, s1, a1, s2, a2);
      DisjointPlacementsCommute(b, s1, a1, s2, a2);
    }
    if two.Ok? && PlaceShip(two.value.board, Unregistered(s1), a1).Ok? {
      SecondPlacementPassesAlone(b, s2, a2, s1, a1);
      DisjointPlacementsCommute(b, s1, a1, s2, a2);
    }
  }

  /** An area accepted after another new ship was placed is accepted by the
      board before that placement: the earlier ships are still registered
      and the grid is the same. */
  lemma SecondPlacementPassesAlone(b: Board, s1: Ship, a1: Area, s2: Ship, a2: Area)
    requires PlaceShip(b, Unregistered(s1), a1).Ok?
    requires PlaceShip(PlaceShip(b, Unregistered(s1), a1).value.board, Unregistered(s2), a2).Ok?
    ensures IsAreaEmpty(b, a1) == Ok(true) && IsAreaEmpty(b, a2) == Ok(true)
  {
    var b1 := PlaceShip(b, Unregistered(s1), a1).value.board;
    assert IsAreaEmpty(b1, a2) == Ok(true);
    assert forall k :: 0 <= k < |b.ships| ==> b1.ships[k] == b.ships[k];
  }

  /** After a new ship is placed on `a`, an area that the board accepted and
      that does not intersect `a` is still accepted. */
  lemma PlacedShipLetsDisjointAreaPass(b: Board, s: Ship, a: Area, other: Area)
    requires WellFormed(a) && WellFormed(other) && !Intersect(a, other)
    requires IsAreaEmpty(b, a) == Ok(true) && IsAreaEmpty(b, other) == Ok(true)
    ensures PlaceShip(b, Unregistered(s), a).Ok?
    ensures IsAreaEmpty(PlaceShip(b, Unregistered(s), a).value.board, other) == Ok(true)
  {
    var b' := PlaceShip(b, Unregistered(s), a).value.board;
    BlocksIffIntersectWithoutContainment(Place(s, a), other);
    assert !Blocks(b'.ships[|b.ships|], other);
    assert forall k :: 0 <= k < |b.ships| ==> b'.ships[k] == b.ships[k];
  }

  /** Whatever the overlap test rejects does intersect a placed ship. */
  lemma BlockedAreasIntersect(b: Board, a: Area)
    requires WellFormed(a)
    requires forall k :: 0 <= k < |b.ships| && b.ships[k].area.Some? ==> WellFormed(b.ships[k].area.value)
    requires IsAreaEmpty(b, a) == Ok(false)
    ensures exists k :: 0 <= k < |b.ships| && b.ships[k].area.Some? && Intersect(a, b.ships[k].area.value)
  {
    var k :| 0 <= k < |b.ships| && Blocks(b.ships[k], a);
    BlocksIffIntersectWithoutContainment(b.ships[k], a);
  }
}
