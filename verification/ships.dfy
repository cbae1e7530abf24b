/** A ship: a fixed length, a damage counter and a placement record
    (`Ship.ts`). An `Area` is the axis-aligned rectangle a ship occupies,
    with inclusive bounds. */
module Ships {
  import opened Results

  datatype Area = Area(top: int, right: int, bottom: int, left: int)

  /** The cell (row, col) lies inside the area, bounds included. */
  predicate Covers(a: Area, row: int, col: int) {
    a.top <= row <= a.bottom && a.left <= col <= a.right
  }

  /** The area is a non-empty rectangle. */
  predicate WellFormed(a: Area) {
    a.top <= a.bottom && a.left <= a.right
  }

  datatype Ship = Ship(length: int, hitCount: int, area: Option<Area>, isPlaced: bool)

  /** What every ship built by `NewShip` and changed by `Hit` and `Place` satisfies. */
  predicate Valid(s: Ship) {
    && 0 < s.length
    && 0 <= s.hitCount <= s.length
    && (s.isPlaced <==> s.area.Some?)
  }

  /** The constructor: a non-positive length is refused. */
  function NewShip(length: int): (r: Result<Ship>)
    ensures r.Err? <==> length <= 0
    ensures r.Err? ==> r.error == InvalidArgument
    ensures r.Ok? ==> r.value.length == length && r.value.hitCount == 0
    ensures r.Ok? ==> r.value.area == None && !r.value.isPlaced
    ensures r.Ok? ==> Valid(r.value)
  {
    if length <= 0 then Err(InvalidArgument)
    else Ok(Ship(length, 0, None, false))
  }

  /** Sunk once the damage has reached the length; on a ship that keeps the
      invariant, exactly when the damage equals the length. */
  function IsSunk(s: Ship): (r: bool)
    ensures Valid(s) ==> (r <==> s.hitCount == s.length)
  {
    s.length <= s.hitCount
  }

  /** One hit: counts while the ship floats, does nothing once it is sunk. */
  function Hit(s: Ship): (r: Ship)
    ensures r.length == s.length && r.area == s.area && r.isPlaced == s.isPlaced
    ensures !IsSunk(s) ==> r.hitCount == s.hitCount + 1
    ensures IsSunk(s) ==> r == s
    ensures s.hitCount <= r.hitCount
    ensures Valid(s) ==> Valid(r)
  {
    if IsSunk(s) then s else s.(hitCount := s.hitCount + 1)
  }

  /** Records the area and marks the ship placed; a second call overwrites the area. */
  function Place(s: Ship, a: Area): (r: Ship)
    ensures r.area == Some(a) && r.isPlaced
    ensures r.length == s.length && r.hitCount == s.hitCount
    ensures Valid(s) ==> Valid(r)
  {
    s.(area := Some(a), isPlaced := true)
  }

  /** Placing again keeps only the last area: there is no once-only guard. */
  lemma PlaceOverwrites(s: Ship, first: Area, second: Area)
    ensures Place(Place(s, first), second) == Place(s, second)
    ensures Place(Place(s, first), second).area == Some(second)
  {
  }

  /** `n` successive hits. */
  function Hits(s: Ship, n: nat): Ship {
    if n == 0 then s else Hit(Hits(s, n - 1))
  }

  function Min(a: int, b: int): int {
    if a <= b then a else b
  }

  /** Hits saturate: the counter grows by one per hit until it reaches the
      length and then stays there; the length and placement never change. */
  lemma {:induction false} HitsSaturate(s: Ship, n: nat)
    requires Valid(s)
    ensures Hits(s, n).hitCount == Min(s.hitCount + n, s.length)
    ensures Hits(s, n).length == s.length && Hits(s, n).area == s.area
    ensures Valid(Hits(s, n))
  {
    if n > 0 {
      HitsSaturate(s, n - 1);
    }
  }

  /** A new ship of length `k` sinks on exactly its `k`-th hit. */
  lemma SinksOnLastHit(k: int, n: nat)
    requires 0 < k
    ensures IsSunk(Hits(NewShip(k).value, n)) <==> k <= n
  {
    HitsSaturate(NewShip(k).value, n);
  }
}
