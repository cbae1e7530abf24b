# Battleship rules engine in Dafny

This project models the rules core of the odin-battleship game and proves
properties of it. The core covers:

- **ships**: a length, a damage counter and a placement record;
- **ship areas**: how an anchor cell and an orientation become the rectangle
  a ship covers;
- **the game board**: a rectangular grid of cells that are empty, hit or
  missed, plus the ships placed on it, with bounds checks, the overlap test
  for placements and the resolution of attacks;
- **players**: a name bound to a board and a fleet;
- **the match controller**: the status machine idle → ready → battle → over,
  the rotation of active players and the arbitration of attacks;
- **notification channels**: an ordered listener list.

The model uses value semantics. Every operation is a pure function that
returns the new state, or a `Result` error that leaves the old state as it
was; each failing guard of the source becomes one of these errors. Each
mutating operation also returns the notifications it emits, in emission
order:

- a board step carries one `CellStatusChanged` or `ShipPlaced` signal;
- a controller step carries `BoardChanged`, `GameOver`, `GameStatusChanged`
  and `PlayerInTurnChanged` signals.

Players are identified by their position in the list passed to
`DefinePlayers`.

Modules and files:

| module | file | models |
|---|---|---|
| `Results` | results.dfy | the error kinds and `Result`/`Option` |
| `Seqs` | seqs.dfy | the array primitives the code relies on: `findIndex`, `find`, `every`, one-element `splice` |
| `Events` | events.dfy | `createEvent` in `src/ts/Event.ts` |
| `Ships` | ships.dfy | `src/ts/Ship.ts` |
| `Helpers` | helpers.dfy | `getAreaForShip` in `src/ts/helpers.ts` |
| `Boards` | boards.dfy | `src/ts/GameBoard.ts` |
| `BoardProperties` | board_properties.dfy | properties that relate several board operations |
| `Players` | players.dfy | `src/ts/Player.ts` |
| `Games` | games.dfy | `src/ts/GameController.ts` |
| `GameProperties` | game_properties.dfy | properties of whole attacks and of the rotation |
| `Scenarios` | scenarios.dfy | concrete boards |
| `GameScenarios` | game_scenarios.dfy | concrete matches |

### Behaviour of the code worth knowing

- **Overlap test.** A bounding-box intersection test would refuse every
  area that shares a cell with a placed ship. The test in `isAreaEmpty`
  instead checks, once per axis, whether either end of the new area falls
  inside a placed ship's span.
  - `BoardProperties.BlocksIffIntersectWithoutContainment` states exactly
    what that test decides. For well-formed areas, it agrees with
    intersection except when the new area strictly contains the ship's span
    on an axis. The two-corner bounds check also lets through areas whose
    corners are swapped, and for those the answer can differ further
    (`Scenarios.SwappedCornersAreRefused`).
  - `Scenarios.CrossingShipIsAccepted` gives two one-cell-wide ships that
    cross at (1, 2). Both placements are accepted.
  - `Scenarios.OverlappedFleetCannotSink` shows what follows from an
    accepted overlap. Every cell gets attacked, yet the fleet is never all
    sunk.
  - The model keeps the code's rule.
- **Placement order.** For new ships on well-formed areas that do not
  intersect, the order of placement does not matter. Placing A then B
  succeeds exactly when placing B then A does
  (`BoardProperties.PlacementOrderIrrelevant`). When the board accepts each
  area on its own, both orders are accepted and give the same board up to
  the order of the ship list (`BoardProperties.DisjointPlacementsCommute`).
  This rests on the fact
  that a rejected well-formed area always intersects a ship
  (`BoardProperties.BlockedAreasIntersect`). For ships that do overlap,
  acceptance depends on the order (`Scenarios.PlacementOrderMatters`).
- **Placing a ship again.** `placeShip` does not refuse a ship that is
  already placed. It moves the ship to the new area and pushes the same
  object onto the ship list a second time. The model moves the registered
  entry; the second push is invisible to `find` and `every`
  (`Seqs.RepeatIsUnobservable`). `Scenarios.ReplacedShipLeavesItsFirstArea`
  and `Scenarios.MovedShipSinksOnItsNewArea` show a moved ship whose first
  area is water.
- **Turn shift after an elimination.** Removing the eliminated player and
  then advancing the index can pass over the player who should move next.
  The remaining players shift down while the index still moves up.
  `GameProperties.SuccessorAfterElimination` states exactly when this
  happens, and `GameScenarios.EliminationBeforeAttackerRepeatsTurn` gives an
  instance.
- **Game over.** `_nextPlayer` also runs after the game is over. The turn
  index is advanced and a `PlayerInTurnChanged` signal follows the
  `GameStatusChanged(Over)` signal.
- **Player in turn before players are defined.** Here the source reads an
  index of a list that is not yet assigned. The model returns `None` instead.

## Model

| member | source | states |
|---|---|---|
| Seqs.FindIndex | src/ts/GameController.ts:58 | the result is -1 iff no element satisfies the predicate; otherwise it is the position of the first element that does |
| Seqs.IndexOf | src/ts/GameController.ts:60 | -1 iff the element is absent; otherwise the position of its first occurrence, which does not occur earlier |
| Seqs.Every | src/ts/GameBoard.ts:61 | true iff every element satisfies the predicate, so vacuously true on an empty list |
| Seqs.RemoveFirst | src/ts/GameController.ts:67-68 | an absent element leaves the list unchanged; otherwise the list loses one element, keeps only elements it had, and stays free of duplicates with the element gone |
| Seqs.RemoveFirstSplices | src/ts/GameController.ts:67-68 | removal keeps every element before the first occurrence and shifts every later one down by one place |
| Seqs.RepeatIsUnobservable | src/ts/GameBoard.ts:41 | pushing an element the list already holds changes neither the first match nor the every answer, so a ship pushed twice is seen once |
| Seqs.RemoveFirstMultiset | src/ts/Event.ts:9-10 | removal takes exactly one copy of a present element out of the multiset of elements |
| Events.NewChannel | src/ts/Event.ts:2 | a new channel has no listeners |
| Events.Subscribe | src/ts/Event.ts:4-6 | the listener is appended after every existing one, which keep their order; duplicates are allowed |
| Events.Unsubscribe | src/ts/Event.ts:8-11 | only the first occurrence is removed: an absent listener changes nothing, and otherwise one copy leaves while the others keep their order |
| Events.Notify | src/ts/Event.ts:13-15 | every listener is called once per occurrence, in list order, with the same sender and arguments |
| Events.NotifyCallsEachOccurrence | src/ts/Event.ts:13-15 | the called listeners are exactly the subscribed list, multiplicities included |
| Events.NotifyAfterSubscribe | src/ts/Event.ts:4-15 | a newly subscribed listener is called after all earlier ones |
| Events.UnsubscribeUndoesSubscribe | src/ts/Event.ts:4-11 | unsubscribing a listener that was not subscribed before restores the list |
| Events.DuplicateSubscriptionSurvivesOneUnsubscribe | src/ts/Event.ts:8-11 | a listener subscribed twice is still subscribed after one unsubscribe |
| Ships.NewShip | src/ts/Ship.ts:41-44 | a non-positive length fails with InvalidArgument; otherwise the ship is unhit, unplaced and has that length |
| Ships.Hit | src/ts/Ship.ts:46-49 | a floating ship's counter grows by one; a sunk ship is unchanged; the length and placement are kept |
| Ships.Place | src/ts/Ship.ts:55-58 | the ship records the area and becomes placed, with length and damage kept |
| Ships.PlaceOverwrites | src/ts/Ship.ts:55-58 | nothing stops a second placement: the last area wins |
| Ships.HitsSaturate | src/ts/Ship.ts:46-53 | after n hits the counter is the smaller of its start plus n and the length |
| Ships.SinksOnLastHit | src/ts/Ship.ts:41-53 | a new ship of length k is sunk after n hits iff k <= n |
| Ships.IsSunk | src/ts/Ship.ts:51-53 | on ships that keep the invariant, sunk means the damage equals the length |
| Helpers.GetAreaForShip | src/ts/helpers.ts:3-10 | the anchor is the top-left corner; the area covers exactly the length cells to the right of it, or below it when vertical |
| Helpers.AreaForShipSpansLength | src/ts/helpers.ts:3-10 | the area is one cell thick and exactly the ship's length long |
| Helpers.DefaultIsHorizontal | src/ts/helpers.ts:3 | without an orientation the area lies along the anchor's row |
| Boards.RowCount | src/ts/GameBoard.ts:19-21 | the number of rows, each of which has the column count of cells |
| Boards.ColumnCount | src/ts/GameBoard.ts:23-25 | every row has this many cells, and it is 0 for a board without rows |
| Boards.InBoundaries | src/ts/GameBoard.ts:96-98 | the counts admit the coordinate iff the grid holds a cell there |
| Boards.ValidatePoint | src/ts/GameBoard.ts:89 | succeeds iff the cell is inside the grid, else OutOfBounds |
| Boards.ValidateArea | src/ts/GameBoard.ts:90-93 | succeeds iff both checked corners are inside the grid, else OutOfBounds |
| Boards.NewBoard | src/ts/GameBoard.ts:27-35 | non-positive dimensions fail with InvalidArgument; otherwise the grid has those dimensions, every cell is empty and no ship is registered |
| Boards.GetCellStatus | src/ts/GameBoard.ts:55-58 | fails with OutOfBounds iff the cell is outside the grid, otherwise returns the cell |
| Boards.IsAllSunk | src/ts/GameBoard.ts:60-62 | true iff every registered ship is sunk, and true on a board without ships |
| Boards.IsAreaEmpty | src/ts/GameBoard.ts:64-74 | fails iff a checked corner is off the grid; otherwise true iff no placed ship blocks the area by the endpoint-in-span test |
| Boards.PlaceShip | src/ts/GameBoard.ts:37-43 | out-of-grid corners fail first, then a blocked area fails; success is the area-empty answer and keeps the cells; a new ship is appended as placed on the area, an already registered ship is not refused but moved there in place with the other ships untouched; ShipPlaced is emitted |
| Boards.IsCoordinateAttackable | src/ts/GameBoard.ts:76-78 | true iff the cell is inside the grid and still empty |
| Boards.ShipAtCoordinate | src/ts/GameBoard.ts:100-102 | -1 iff no placed ship covers the cell; otherwise the first ship that covers it |
| Boards.ReceiveAttack | src/ts/GameBoard.ts:45-53 | out of grid fails first, then an attacked cell; otherwise only that cell changes, to hit iff a ship covers it, only the first covering ship takes a hit, and the change is emitted |
| Boards.SetCell | src/ts/GameBoard.ts:80-82 | only the given cell changes and the grid keeps its shape |
| BoardProperties.AttackMarksExactlyOneCell | src/ts/GameBoard.ts:45-53 | a successful attack adds exactly the attacked cell to the attacked cells, which never shrink |
| BoardProperties.SecondAttackFails | src/ts/GameBoard.ts:47 | attacking the same cell again fails with AlreadyAttacked |
| BoardProperties.AttackKeepsShipsValid | src/ts/GameBoard.ts:48-49 | attacks keep every ship's damage between 0 and its length |
| BoardProperties.PlaceKeepsShipsValid | src/ts/GameBoard.ts:37-43 | placing a valid ship keeps all ships valid, and the placed ship sits on the area, at the end of the list when new and at its old position when registered |
| BoardProperties.PlacingAgainMovesTheShip | src/ts/GameBoard.ts:37-43 | placing a registered ship again makes it cover exactly the new area, keeps its damage and the number of ships, and leaves the all-sunk answer unchanged |
| BoardProperties.AllSunkMeansAllFullyHit | src/ts/GameBoard.ts:60-62 | all sunk iff every ship's damage equals its length |
| BoardProperties.AreaCheckCoversAllCells | src/ts/GameBoard.ts:90-93 | for a well-formed area the two-corner check passes iff every covered cell is on the grid |
| BoardProperties.ShipAreaInBoundaries | src/ts/GameBoard.ts:86-93 | a ship's area fits iff its anchor is on the grid and its far end does not stick out |
| BoardProperties.EndpointInSpanIff | src/ts/GameBoard.ts:69-72 | on one axis, an endpoint lies in the other span iff the spans meet and the first does not strictly contain the second |
| BoardProperties.BlocksIffIntersectWithoutContainment | src/ts/GameBoard.ts:66-73 | a ship blocks an area iff the rectangles intersect and the area does not strictly contain the ship on either axis |
| BoardProperties.BlockedAreasIntersect | src/ts/GameBoard.ts:64-74 | every well-formed area the test rejects intersects some placed ship |
| BoardProperties.PlacedShipLetsDisjointAreaPass | src/ts/GameBoard.ts:37-43 | a new ship placed on an area leaves every accepted well-formed area that does not intersect it accepted |
| BoardProperties.DisjointPlacementsCommute | src/ts/GameBoard.ts:37-43 | two new ships on non-intersecting well-formed areas, each accepted alone, are accepted in either order with the same cells and the same ships |
| BoardProperties.SecondPlacementPassesAlone | src/ts/GameBoard.ts:37-43 | an area accepted right after another new ship was placed was already accepted, together with that ship's area, by the board before |
| BoardProperties.PlacementOrderIrrelevant | src/ts/GameBoard.ts:37-43 | for new ships on non-intersecting well-formed areas, placing A then B succeeds if and only if placing B then A succeeds |
| Players.NewPlayer | src/ts/Player.ts:24-28 | the name, board and fleet getters return the constructor's arguments |
| Players.Name | src/ts/Player.ts:12-14 | the result is the player's name: putting it back into the player changes nothing |
| Players.GameBoard | src/ts/Player.ts:16-18 | the result is the player's board: putting it back into the player changes nothing |
| Players.Ships | src/ts/Player.ts:20-22 | the result is the player's fleet, in order: putting it back into the player changes nothing |
| Players.GettersRebuildPlayer | src/ts/Player.ts:12-28 | rebuilding a player from its getters gives the same player, so getters and constructor are inverse |
| Players.Attack | src/ts/Player.ts:30-33 | a coordinate that is not attackable fails with AlreadyAttacked, otherwise the board resolves the attack |
| Players.AttackAgreesWithReceiveAttack | src/ts/Player.ts:30-33 | the player's attack succeeds exactly when the board's does, with the same result |
| Games.NewController | src/ts/GameController.ts:7-10 | a new controller is idle with nobody in turn |
| Games.PlayerInTurn | src/ts/GameController.ts:36-38 | nobody is in turn iff idle; otherwise the active player at the turn index |
| Games.DefinePlayers | src/ts/GameController.ts:40-45 | fails with InvalidState unless idle, then with InvalidArgument for fewer than two players; otherwise the game is ready, the players are the turn order, the first is in turn and the status change is emitted |
| Games.Start | src/ts/GameController.ts:47-50 | fails with InvalidState unless ready; otherwise only the status changes, to battle, and is emitted |
| Games.NextTurn | src/ts/GameController.ts:77-79 | the next index wraps to 0 at the end, which is successor modulo the count |
| Games.Attack | src/ts/GameController.ts:52-75 | the five guards fail in source order; otherwise the defender's board resolves the attack, a fully sunk defender leaves the active players for the deactivated ones, one active player left means game over, the turn advances against the shrunk list, and the signals are emitted in source order |
| Games.UpdateBoard | src/ts/GameController.ts:64 | the defender gets the new board and keeps its name and fleet; every other player is unchanged |
| Games.Eliminate | src/ts/GameController.ts:65-69 | a sunk defender moves from the active to the deactivated players; the lists stay known, distinct and disjoint |
| Games.Rotate | src/ts/GameController.ts:70-79 | one active player means over, otherwise battle; the turn index advances |
| GameProperties.OverIsFinal | src/ts/GameController.ts:41-54 | once over, every operation fails with InvalidState and the sole remaining player is in turn |
| GameProperties.StatusNeverRegresses | src/ts/GameController.ts:52-75 | a successful attack keeps the status or moves it forward, to over |
| GameProperties.TurnAdvancesWithoutElimination | src/ts/GameController.ts:74-81 | without an elimination the turn moves to the next active player modulo the count and the battle goes on |
| GameProperties.EliminationRemovesOnlyTheDefender | src/ts/GameController.ts:65-69 | an eliminated defender is spliced out of the rotation and deactivated; every other active player stays |
| GameProperties.RemovalSplices | src/ts/GameController.ts:67-68 | removing a present player splices out its one position and keeps the others |
| GameProperties.RemovalKeepsOthers | src/ts/GameController.ts:67-68 | removal keeps every other element |
| GameProperties.LastStanding | src/ts/GameController.ts:65-70 | if one player is left after a removal, it is any other player who was there |
| GameProperties.AttackRotation | src/ts/GameController.ts:52-81 | a successful attack implies every guard held, and fixes the new rotation, turn, status and signal order |
| GameProperties.GameOverCrownsTheAttacker | src/ts/GameController.ts:70-73 | the game ends only when the defender is fully sunk, and then the attacker is the sole active player, announced winner and in turn |
| GameProperties.TwoPlayerWin | src/ts/GameController.ts:65-73 | in a two-player game sinking the defender ends the game with the attacker as winner, and further attacks fail |
| GameProperties.ShiftedRotation | src/ts/GameController.ts:67-79 | after removing position k, the advanced index names the intended successor iff k does not lie before the attacker while the attacker is short of the last position |
| GameProperties.SuccessorAfterElimination | src/ts/GameController.ts:65-81 | with three or more active players, the player in turn after an elimination is the intended successor iff the defender did not sit before the attacker while the attacker was short of the last position |
| Scenarios.ThreeCellShipWalkThrough | src/ts/GameBoard.ts:37-53 | on a 10-by-10 board a length-3 ship at the corner blocks an area starting on its last cell; three hits sink it |
| Scenarios.SwappedCornersAreRefused | src/ts/GameBoard.ts:64-74 | an area with swapped left and right passes the corner check and is refused against a ship it neither meets nor strictly contains |
| Scenarios.CrossingShipIsAccepted | src/ts/GameBoard.ts:66-73 | a horizontal ship crossing a vertical one is accepted although they share a cell |
| Scenarios.PlacementOrderMatters | src/ts/GameBoard.ts:64-74 | a short ship and a long ship that contains it are accepted in one order and refused in the other |
| Scenarios.OverlappingPlacementAccepted | src/ts/GameBoard.ts:37-43 | a long ship placed over a short one is accepted |
| Scenarios.OverlapAttack | src/ts/GameBoard.ts:45-53 | on the overlapped board a shared cell counts only for the ship placed first |
| Scenarios.OverlappedFleetCannotSink | src/ts/GameBoard.ts:60-62 | after every cell of the overlapped board is attacked the fleet is not all sunk and no cell is left to attack |
| Scenarios.ReplacedShipLeavesItsFirstArea | src/ts/GameBoard.ts:37-43 | a ship placed on columns 0-1 and placed again on columns 3-4 is accepted and moved; the board still holds one ship |
| Scenarios.MovedShipSinksOnItsNewArea | src/ts/GameBoard.ts:45-62 | on the moved ship's board an attack on its first area misses, and two hits on its new area sink the fleet |
| Scenarios.DefaultFleetFits | src/ts/SceneController.ts:29 | each ship of the default fleet can be built and fits on a 10-by-10 board |
| GameScenarios.BoardsArePlacedFleets | src/ts/GameBoard.ts:37-43 | the two sample boards are what placing a one-cell ship on an empty board gives |
| GameScenarios.ThreePlayersRotate | src/ts/GameController.ts:52-81 | with no eliminations three players move in order and wrap around; attacking out of turn or oneself fails |
| GameScenarios.EliminatedPlayerLeavesRotation | src/ts/GameController.ts:64-81 | of three players, when P1 sinks P2, P2 is deactivated and P3 is in turn |
| GameScenarios.EliminatedPlayerIsSkipped | src/ts/GameController.ts:58 | an eliminated player cannot be attacked and the rotation cycles the remaining players |
| GameScenarios.ShiftOpeningMiss | src/ts/GameController.ts:74-81 | a miss passes the turn to the next player |
| GameScenarios.EliminationBeforeAttackerRepeatsTurn | src/ts/GameController.ts:67-79 | after P1 misses and P2 sinks P1, P2 is in turn again instead of P3 |
| GameScenarios.TwoPlayerGameEnds | src/ts/GameController.ts:70-74 | sinking the only opponent emits the hit, game over, status over and player in turn, in that order; further attacks fail |

## Left out

- Object identity. JavaScript compares players, listeners and ships by
  reference. The model uses values:
  - Players are positions in the defined list, so the same player object
    passed twice to `definePlayers` cannot be expressed.
  - A board tracks the identity of the ships placed on it, through
    `Boards.ShipHandle`. The same ship object placed on two different
    boards, or held in a player's fleet, is a separate copy in each. The
    ship objects in a player's fleet therefore do not see placements or
    hits made through the board. `Players.Ships` returns the fleet as
    given.
- Games.DefinePlayers: the controller keeps copies of the players it is
  given, where the source shares the `Player` and `GameBoard` objects. In
  the source, ships placed on a registered player's board after
  `definePlayers`, and attacks made through `Player.attack` on such a board,
  are seen by the controller; in the model they change only the copy they
  were made on.
- Numbers. JavaScript numbers are floating point. Rows, columns, lengths and
  counters are modelled as mathematical integers, so fractional or
  non-finite arguments are not modelled.
- Re-entrancy. A listener that subscribes, unsubscribes or calls back into
  the board or controller while it is being notified is not modelled.
  Notification only yields the list of calls in order.
- The channels are not part of the board or controller state. Operations
  return their signals instead of calling listeners. The subscription
  getters (`cellStatusChangedEvent` and the others) are therefore not
  modelled.
- Error messages. Each failure is an error kind, not the text the source
  throws.
- The public `area` setter of `Ship` is not modelled. Only `place` sets an
  area.
- The `viewer` flag of `Player` is not modelled. It plays no part in the
  rules.
- Games.PlayerInTurn: returns `None` while idle. The source reads an index
  of a list that is not yet assigned at that point.
- The user interface, the computer opponent, the scene setup and the
  command invoker are not part of this model. This covers `UIController.ts`,
  `Computer.ts`, `SceneController.ts`, `index.ts` and `Invoker.ts`.
  - The only use of `SceneController.ts` is the default fleet and board
    size in `Scenarios`.
  - `invoker.throwIf` appears only as the `Result` errors.
