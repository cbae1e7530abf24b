/** The match controller (`GameController.ts`): the status machine
    idle -> ready -> battle -> over, the active-player rotation and the
    arbitration of attacks.

    Players are identified by their position in the list handed to
    `DefinePlayers`; the controller keeps that list and replaces a player's
    board when it is attacked. */
module Games {
  import opened Results
  import opened Seqs
  import opened Boards
  import opened Players

  datatype GameStatus = Idle | Ready | Battle | Over

  /** Position of a player in the list given to `DefinePlayers`. */
  type PlayerId = nat

  datatype Game = Game(
    status: GameStatus,
    players: seq<Player>,
    active: seq<PlayerId>,
    deactivated: seq<PlayerId>,
    turn: nat)

  /** The controller's invariant: active and deactivated players are known,
      distinct and disjoint; once players are defined the turn is a valid
      index; a game in progress has at least two active players and a game
      that is over has exactly one. */
  predicate Valid(g: Game) {
    && (forall i :: 0 <= i < |g.active| ==> g.active[i] < |g.players|)
    && NoDuplicates(g.active)
    && (forall i :: 0 <= i < |g.deactivated| ==> g.deactivated[i] < |g.players| && g.deactivated[i] !in g.active)
    && (g.status == Idle ==> g.players == [] && g.active == [] && g.deactivated == [] && g.turn == 0)
    && (g.status != Idle ==> g.turn < |g.active|)
    && ((g.status == Ready || g.status == Battle) ==> 2 <= |g.active|)
    && (g.status == Over ==> |g.active| == 1)
  }

  type Controller = g: Game | Valid(g) witness Game(Idle, [], [], [], 0)

  /** The notifications of an attack, in emission order: the defender's board
      reports the changed cell, then the controller reports game over, its
      status and the player in turn. */
  datatype GameSignal =
    | BoardChanged(player: PlayerId, signal: BoardSignal)
    | GameStatusChanged(status: GameStatus)
    | GameOver(winner: PlayerId)
    | PlayerInTurnChanged(inTurn: Option<PlayerId>)

  /** The controller after a successful operation and what it emitted. */
  datatype Step = Step(game: Controller, signals: seq<GameSignal>)

  /** Position of a status in the forward order idle, ready, battle, over. */
  function Rank(s: GameStatus): nat {
    match s
    case Idle => 0
    case Ready => 1
    case Battle => 2
    case Over => 3
  }

  /** A new controller is idle and nobody is in turn. */
  function NewController(): (c: Controller)
    ensures c.status == Idle && PlayerInTurn(c) == None
  {
    Game(Idle, [], [], [], 0)
  }

  /** The active player at the turn index; none before players are defined. */
  function PlayerInTurn(c: Controller): (r: Option<PlayerId>)
    ensures r == None <==> c.status == Idle
    ensures r.Some? ==> r.value == c.active[c.turn] && r.value < |c.players|
  {
    if c.turn < |c.active| then Some(c.active[c.turn]) else None
  }

  /** The players 0 .. n-1 in order. */
  function Range(n: nat): (r: seq<PlayerId>)
    ensures |r| == n && forall i :: 0 <= i < n ==> r[i] == i
  {
    if n == 0 then [] else Range(n - 1) + [n - 1]
  }

  /** Fails unless idle, then with fewer than two players; otherwise the
      players, in the given order, become the turn order and the game is ready. */
  function DefinePlayers(c: Controller, players: seq<Player>): (r: Result<Step>)
    ensures c.status != Idle ==> r == Err(InvalidState)
    ensures c.status == Idle && |players| <= 1 ==> r == Err(InvalidArgument)
    ensures r.Ok? <==> c.status == Idle && 2 <= |players|
    ensures r.Ok? ==> var g := r.value.game;
                      && g.status == Ready && g.players == players && g.deactivated == []
                      && |g.active| == |players| && (forall i :: 0 <= i < |g.active| ==> g.active[i] == i)
                      && PlayerInTurn(g) == Some(0)
    ensures r.Ok? ==> r.value.signals == [GameStatusChanged(Ready)]
    ensures r.Ok? ==> Rank(c.status) < Rank(r.value.game.status)
  {
    if c.status != Idle then Err(InvalidState)
    else if |players| <= 1 then Err(InvalidArgument)
    else Ok(Step(Game(Ready, players, Range(|players|), [], c.turn), [GameStatusChanged(Ready)]))
  }

  /** Fails unless ready; otherwise the battle begins with nothing else changed. */
  function Start(c: Controller): (r: Result<Step>)
    ensures r.Err? <==> c.status != Ready
    ensures r.Err? ==> r.error == InvalidState
    ensures r.Ok? ==> r.value.game == c.(status := Battle)
    ensures r.Ok? ==> r.value.signals == [GameStatusChanged(Battle)]
    ensures r.Ok? ==> Rank(c.status) < Rank(r.value.game.status)
  {
    if c.status != Ready then Err(InvalidState)
    else Ok(Step(c.(status := Battle), [GameStatusChanged(Battle)]))
  }

  /** `_nextPlayer`'s arithmetic: the next index, wrapping to 0 at the end. */
  function NextTurn(turn: nat, count: nat): (r: nat)
    ensures 0 < count ==> r < count
    ensures turn < count ==> r == (turn + 1) % count
  {
    if turn + 1 >= count then 0 else turn + 1
  }

  /** Every guard of `Attack` passes. */
  predicate AttackAllowed(c: Controller, attacker: PlayerId, defender: PlayerId, row: int, col: int) {
    && c.status == Battle
    && attacker != defender
    && defender in c.active
    && PlayerInTurn(c) == Some(attacker)
    && IsCoordinateAttackable(c.players[defender].gameBoard, row, col)
  }

  /** Arbitrates an attack. The guards fail in this order: the game is not
      in battle, a player attacks itself, the defender is not active, the
      attacker is not in turn, the coordinate is not attackable. Otherwise
      the defender's board resolves the attack; a defender whose fleet is
      then all sunk leaves the active players (the others keep their order)
      and joins the deactivated ones; with one active player left the game
      is over; and in every case the turn index advances, wrapping around
      the shrunk active list. */
  function Attack(c: Controller, attacker: PlayerId, defender: PlayerId, row: int, col: int): (r: Result<Step>)
    ensures c.status != Battle ==> r == Err(InvalidState)
    ensures c.status == Battle && attacker == defender ==> r == Err(InvalidArgument)
    ensures (c.status == Battle && attacker != defender && defender !in c.active)
            ==> r == Err(UnknownPlayer)
    ensures (c.status == Battle && attacker != defender && defender in c.active
             && PlayerInTurn(c) != Some(attacker))
            ==> r == Err(NotYourTurn)
    ensures (c.status == Battle && attacker != defender && defender in c.active
             && PlayerInTurn(c) == Some(attacker)
             && !IsCoordinateAttackable(c.players[defender].gameBoard, row, col))
            ==> r == Err(AlreadyAttacked)
    ensures r.Ok? <==> AttackAllowed(c, attacker, defender, row, col)
    ensures r.Ok? ==>
              var hit := ReceiveAttack(c.players[defender].gameBoard, row, col).value;
              var g := r.value.game;
              && g.players == c.players[defender := c.players[defender].(gameBoard := hit.board)]
              && (IsAllSunk(hit.board) ==> g.active == RemoveFirst(c.active, defender)
                                           && g.deactivated == c.deactivated + [defender])
              && (!IsAllSunk(hit.board) ==> g.active == c.active && g.deactivated == c.deactivated)
              && (g.status == Over <==> |g.active| == 1)
              && (g.status != Over ==> g.status == Battle)
              && g.turn == NextTurn(c.turn, |g.active|)
              && r.value.signals
                 == [BoardChanged(defender, hit.signal)]
                    + (if g.status == Over then [GameOver(g.active[0]), GameStatusChanged(Over)] else [])
                    + [PlayerInTurnChanged(PlayerInTurn(g))]
  {
    if c.status != Battle then Err(InvalidState)
    else if attacker == defender then Err(InvalidArgument)
    else if defender !in c.active then Err(UnknownPlayer)
    else if IndexOf(c.active, attacker) != c.turn then Err(NotYourTurn)
    else if !IsCoordinateAttackable(c.players[defender].gameBoard, row, col) then Err(AlreadyAttacked)
    else
      match ReceiveAttack(c.players[defender].gameBoard, row, col)
      case Err(e) => Err(e)
      case Ok(hit) => Ok(Conclude(c, defender, hit))
  }

  /** Steps 7 to 9 of an attack that the defender's board has resolved. */
  function Conclude(c: Controller, defender: PlayerId, hit: BoardStep): Step
    requires c.status == Battle && defender in c.active
  {
    var players := UpdateBoard(c, defender, hit.board);
    var rosters := Eliminate(c, defender, IsAllSunk(hit.board));
    var g := Rotate(c.turn, players, rosters.0, rosters.1);
    Step(g, [BoardChanged(defender, hit.signal)]
            + (if g.status == Over then [GameOver(g.active[0]), GameStatusChanged(Over)] else [])
            + [PlayerInTurnChanged(PlayerInTurn(g))])
  }

  /** The players with the defender's board replaced: every other player is
      unchanged, and the defender keeps its name and fleet. */
  function UpdateBoard(c: Controller, defender: PlayerId, board: Board): (r: seq<Player>)
    requires defender in c.active
    ensures |r| == |c.players| && defender < |r|
    ensures r[defender].gameBoard == board
    ensures r[defender].name == c.players[defender].name && r[defender].fleet == c.players[defender].fleet
    ensures forall i :: 0 <= i < |r| && i != defender ==> r[i] == c.players[i]
  {
    assert defender < |c.players| by {
      var i :| 0 <= i < |c.active| && c.active[i] == defender;
    }
    c.players[defender := c.players[defender].(gameBoard := board)]
  }

  /** The active and deactivated players after the defender's fleet was found
      all sunk (`sunk`) or not: the defender moves from the first list to the
      second, or nothing moves. Both lists stay known, distinct and disjoint,
      and at least one player stays active. */
  function Eliminate(c: Controller, defender: PlayerId, sunk: bool): (r: (seq<PlayerId>, seq<PlayerId>))
    requires c.status == Battle && defender in c.active
    ensures r == if sunk then (RemoveFirst(c.active, defender), c.deactivated + [defender])
                 else (c.active, c.deactivated)
    ensures 1 <= |r.0| && NoDuplicates(r.0)
    ensures forall i :: 0 <= i < |r.0| ==> r.0[i] < |c.players|
    ensures forall i :: 0 <= i < |r.1| ==> r.1[i] < |c.players| && r.1[i] !in r.0
  {
    if !sunk then (c.active, c.deactivated)
    else
      var active := RemoveFirst(c.active, defender);
      var deactivated := c.deactivated + [defender];
      assert forall i :: 0 <= i < |active| ==> active[i] < |c.players| by {
        forall i | 0 <= i < |active| ensures active[i] < |c.players| {
          assert active[i] in c.active;
        }
      }
      assert forall i :: 0 <= i < |deactivated| ==> deactivated[i] < |c.players| && deactivated[i] !in active by {
        forall i | 0 <= i < |deactivated| ensures deactivated[i] < |c.players| && deactivated[i] !in active {
          if i < |c.deactivated| {
            assert deactivated[i] == c.deactivated[i];
          } else {
            var j :| 0 <= j < |c.active| && c.active[j] == defender;
          }
        }
      }
      (active, deactivated)
  }

  /** The game after an attack: over with one active player left, still in
      battle otherwise, and the turn index advanced. */
  function Rotate(turn: nat, players: seq<Player>, active: seq<PlayerId>, deactivated: seq<PlayerId>): (g: Controller)
    requires 1 <= |active| && NoDuplicates(active)
    requires forall i :: 0 <= i < |active| ==> active[i] < |players|
    requires forall i :: 0 <= i < |deactivated| ==> deactivated[i] < |players| && deactivated[i] !in active
    ensures g.players == players && g.active == active && g.deactivated == deactivated
    ensures g.status == (if |active| == 1 then Over else Battle)
    ensures g.turn == NextTurn(turn, |active|)
  {
    Game(if |active| == 1 then Over else Battle, players, active, deactivated, NextTurn(turn, |active|))
  }
}
