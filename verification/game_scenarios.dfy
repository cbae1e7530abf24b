/** Concrete matches: three-player rotation, elimination, the rotation shift
    after eliminating a player who sat before the attacker, and a two-player
    win. */
module GameScenarios {
  import opened Results
  import opened Seqs
  import opened Ships
  import opened Boards
  import Players
  import opened Games

  /** A 1-by-2 board with a one-cell ship on (0, 0): an attack on (0, 1) misses. */
  const Afloat: Board := Board([[Empty, Empty]], [Ship(1, 0, Some(Area(0, 0, 0, 0)), true)])

  /** A 1-by-1 board with a one-cell ship on (0, 0): one hit sinks the fleet. */
  const Exposed: Board := Board([[Empty]], [Ship(1, 0, Some(Area(0, 0, 0, 0)), true)])

  /** `Exposed` after its only cell was hit. */
  const Sunk: Board := Board([[Hit]], [Ship(1, 1, Some(Area(0, 0, 0, 0)), true)])

  /** `Afloat` after a miss on (0, 1). */
  const Missed1: Board := Board([[Empty, Missed]], Afloat.ships)

  /** Both boards are what placing a one-cell ship at the corner of an empty
      board gives. */
  lemma BoardsArePlacedFleets()
    ensures PlaceShip(NewBoard(1, 2).value, Unregistered(NewShip(1).value), Area(0, 0, 0, 0)).Ok?
    ensures PlaceShip(NewBoard(1, 2).value, Unregistered(NewShip(1).value), Area(0, 0, 0, 0)).value.board == Afloat
    ensures PlaceShip(NewBoard(1, 1).value, Unregistered(NewShip(1).value), Area(0, 0, 0, 0)).Ok?
    ensures PlaceShip(NewBoard(1, 1).value, Unregistered(NewShip(1).value), Area(0, 0, 0, 0)).value.board == Exposed
  {
    var b2 := NewBoard(1, 2).value;
    assert b2.cells[0] == Afloat.cells[0];
    assert b2.cells == Afloat.cells;
    var b1 := NewBoard(1, 1).value;
    assert b1.cells[0] == Exposed.cells[0];
    assert b1.cells == Exposed.cells;
  }

  /** Attacking (0, 1) of `Afloat` misses and leaves its fleet afloat. */
  lemma AfloatMisses()
    ensures ReceiveAttack(Afloat, 0, 1) == Ok(BoardStep(Missed1, CellStatusChanged(0, 1, Missed)))
    ensures !IsAllSunk(Missed1)
  {
    var r := ReceiveAttack(Afloat, 0, 1).value;
    assert !Occupies(Afloat.ships[0], 0, 1);
    assert |r.board.cells| == 1 && |r.board.cells[0]| == 2;
    assert r.board.cells[0][0] == Empty && r.board.cells[0][1] == Missed;
    assert r.board.cells[0] == [Empty, Missed];
    assert r.board.cells == [[Empty, Missed]];
    assert r.board.ships[0] == Afloat.ships[0];
    assert r.board.ships == Afloat.ships;
  }

  /** Attacking (0, 0) of `Exposed` hits and sinks its whole fleet. */
  lemma ExposedSinks()
    ensures ReceiveAttack(Exposed, 0, 0) == Ok(BoardStep(Sunk, CellStatusChanged(0, 0, Hit)))
    ensures IsAllSunk(Sunk)
  {
    var r := ReceiveAttack(Exposed, 0, 0).value;
    assert FirstOccupant(Exposed.ships, 0, 0, 0);
    assert |r.board.cells| == 1 && |r.board.cells[0]| == 1;
    assert r.board.cells[0][0] == Hit;
    assert r.board.cells[0] == [Hit];
    assert r.board.cells == [[Hit]];
    assert r.board.ships[0] == Ship(1, 1, Some(Area(0, 0, 0, 0)), true);
    assert r.board.ships == [Ship(1, 1, Some(Area(0, 0, 0, 0)), true)];
  }

  /** A miss on an `Afloat` defender only records the miss on that board and
      passes the turn on. */
  lemma MissOnAfloat(c: Controller, attacker: PlayerId, defender: PlayerId)
    requires AttackAllowed(c, attacker, defender, 0, 1) && c.players[defender].gameBoard == Afloat
    ensures var g := Attack(c, attacker, defender, 0, 1).value.game;
            && g.players == c.players[defender := c.players[defender].(gameBoard := Missed1)]
            && g.status == Battle && g.active == c.active && g.deactivated == c.deactivated
            && g.turn == NextTurn(c.turn, |c.active|)
  {
    var miss := ReceiveAttack(c.players[defender].gameBoard, 0, 1).value;
    assert miss.board == Missed1 && !IsAllSunk(miss.board) by {
      AfloatMisses();
    }
  }

  /** Sinking an `Exposed` defender removes it from the rotation. */
  lemma SinkExposed(c: Controller, attacker: PlayerId, defender: PlayerId)
    requires AttackAllowed(c, attacker, defender, 0, 0) && c.players[defender].gameBoard == Exposed
    ensures var s := Attack(c, attacker, defender, 0, 0).value;
            && s.game.players == c.players[defender := c.players[defender].(gameBoard := Sunk)]
            && s.game.active == RemoveFirst(c.active, defender)
            && s.game.deactivated == c.deactivated + [defender]
            && s.game.turn == NextTurn(c.turn, |s.game.active|)
            && s.signals[0] == BoardChanged(defender, CellStatusChanged(0, 0, Hit))
  {
    var hit := ReceiveAttack(c.players[defender].gameBoard, 0, 0).value;
    assert hit == BoardStep(Sunk, CellStatusChanged(0, 0, Hit))
           && IsAllSunk(hit.board) by {
      ExposedSinks();
    }
  }

  /** What sinking an `Exposed` defender emits while the game goes on. */
  lemma SinkSignalsContinuing(c: Controller, attacker: PlayerId, defender: PlayerId)
    requires AttackAllowed(c, attacker, defender, 0, 0) && c.players[defender].gameBoard == Exposed
    requires 3 <= |c.active|
    ensures var s := Attack(c, attacker, defender, 0, 0).value;
            s.signals == [BoardChanged(defender, CellStatusChanged(0, 0, Hit)), PlayerInTurnChanged(PlayerInTurn(s.game))]
  {
    SinkExposed(c, attacker, defender);
    var s := Attack(c, attacker, defender, 0, 0).value;
    assert |s.game.active| == |c.active| - 1;
    assert s.game.status == Battle;
  }

  /** Sinking an `Exposed` defender with one other active player ends the game. */
  lemma SinkEndsGame(c: Controller, attacker: PlayerId, defender: PlayerId)
    requires AttackAllowed(c, attacker, defender, 0, 0) && c.players[defender].gameBoard == Exposed
    requires |c.active| == 2
    ensures var s := Attack(c, attacker, defender, 0, 0).value;
            |s.game.active| == 1 && s.game.status == Over
            && s.signals[0] == BoardChanged(defender, CellStatusChanged(0, 0, Hit))
  {
    SinkExposed(c, attacker, defender);
  }

  /** What sinking an `Exposed` defender emits when it ends the game. */
  lemma SinkSignalsEnding(c: Controller, attacker: PlayerId, defender: PlayerId)
    requires AttackAllowed(c, attacker, defender, 0, 0) && c.players[defender].gameBoard == Exposed
    requires |c.active| == 2
    ensures var s := Attack(c, attacker, defender, 0, 0).value;
            s.signals == [BoardChanged(defender, CellStatusChanged(0, 0, Hit)), GameOver(s.game.active[0]),
                          GameStatusChanged(Over), PlayerInTurnChanged(PlayerInTurn(s.game))]
  {
    SinkEndsGame(c, attacker, defender);
  }

  function Named(name: string, b: Board): Players.Player {
    Players.NewPlayer(name, b, [])
  }

  /** A fresh controller after defining the players and starting the battle. */
  function InBattle(players: seq<Players.Player>): Controller
    requires 2 <= |players|
  {
    Start(DefinePlayers(NewController(), players).value.game).value.game
  }

  /** Three players whose attacks all miss move in the order 1, 2, 3 and
      then 1 again; attacking out of turn or attacking oneself fails. */
  lemma ThreePlayersRotate()
    ensures var c := InBattle([Named("P1", Afloat), Named("P2", Afloat), Named("P3", Afloat)]);
            && PlayerInTurn(c) == Some(0)
            && Attack(c, 1, 2, 0, 1) == Err(NotYourTurn)
            && Attack(c, 0, 0, 0, 1) == Err(InvalidArgument)
            && Attack(c, 0, 1, 0, 1).Ok?
            && var c1 := Attack(c, 0, 1, 0, 1).value.game;
               && PlayerInTurn(c1) == Some(1)
               && Attack(c1, 1, 2, 0, 1).Ok?
               && var c2 := Attack(c1, 1, 2, 0, 1).value.game;
                  && PlayerInTurn(c2) == Some(2)
                  && Attack(c2, 2, 0, 0, 1).Ok?
                  && PlayerInTurn(Attack(c2, 2, 0, 0, 1).value.game) == Some(0)
  {
    var c := InBattle([Named("P1", Afloat), Named("P2", Afloat), Named("P3", Afloat)]);
    assert c.active == [0, 1, 2];
    var c1 := Attack(c, 0, 1, 0, 1).value.game;
    assert c1.active == [0, 1, 2] && c1.players[2].gameBoard == Afloat;
    var c2 := Attack(c1, 1, 2, 0, 1).value.game;
    assert c2.active == [0, 1, 2] && c2.players[0].gameBoard == Afloat;
  }

  /** Player 1 attacks first among players 1 to 3; player 2's fleet is one hit from sinking. */
  const SkipStart: Controller :=
    Game(Battle, [Named("P1", Afloat), Named("P2", Exposed), Named("P3", Afloat)], [0, 1, 2], [], 0)

  /** After player 1 sank player 2: players 1 and 3 remain and player 3 is in turn. */
  const SkipAfter: Controller :=
    Game(Battle, [Named("P1", Afloat), Named("P2", Sunk), Named("P3", Afloat)], [0, 2], [1], 1)

  lemma SkipStartIsInBattle()
    ensures InBattle([Named("P1", Afloat), Named("P2", Exposed), Named("P3", Afloat)]) == SkipStart
  {
  }

  /** Player 1 sinks player 2's fleet: player 2 leaves the rotation and joins
      the deactivated players, and player 3 is in turn. */
  lemma EliminatedPlayerLeavesRotation()
    ensures Attack(SkipStart, 0, 1, 0, 0)
            == Ok(Step(SkipAfter, [BoardChanged(1, CellStatusChanged(0, 0, Hit)), PlayerInTurnChanged(Some(2))]))
  {
    SkipSink();
    SkipSinkSignals();
    var s := Attack(SkipStart, 0, 1, 0, 0).value;
    assert s.game == SkipAfter;
  }

  /** The fields of the game after player 1 sinks player 2. */
  lemma SkipSink()
    ensures Attack(SkipStart, 0, 1, 0, 0).Ok?
    ensures var g := Attack(SkipStart, 0, 1, 0, 0).value.game;
            && g.players == SkipAfter.players && g.active == [0, 2]
            && g.deactivated == [1] && g.turn == 1 && g.status == Battle
  {
    SkipSetup();
    SinkExposed(SkipStart, 0, 1);
  }

  /** What is emitted when player 1 sinks player 2. */
  lemma SkipSinkSignals()
    ensures Attack(SkipStart, 0, 1, 0, 0).Ok?
    ensures Attack(SkipStart, 0, 1, 0, 0).value.signals
            == [BoardChanged(1, CellStatusChanged(0, 0, Hit)), PlayerInTurnChanged(Some(2))]
  {
    SkipSink();
    SkipSetup();
    SinkSignalsContinuing(SkipStart, 0, 1);
  }

  lemma SkipSetup()
    ensures AttackAllowed(SkipStart, 0, 1, 0, 0)
    ensures SkipStart.players[1 := SkipStart.players[1].(gameBoard := Sunk)] == SkipAfter.players
    ensures RemoveFirst(SkipStart.active, 1) == [0, 2]
  {
    ExposedSinks();
    assert IndexOf([0, 1, 2], 1) == 1;
  }

  /** The eliminated player 2 can no longer be attacked, and the rotation
      goes on from player 3 back to player 1. */
  lemma EliminatedPlayerIsSkipped()
    ensures Attack(SkipAfter, 2, 1, 0, 0) == Err(UnknownPlayer)
    ensures Attack(SkipAfter, 2, 0, 0, 1).Ok?
    ensures PlayerInTurn(Attack(SkipAfter, 2, 0, 0, 1).value.game) == Some(0)
  {
    assert AttackAllowed(SkipAfter, 2, 0, 0, 1) by {
      AfloatMisses();
    }
    MissOnAfloat(SkipAfter, 2, 0);
  }

  /** Player 1 attacks first among players 1 to 3; player 1's fleet is one hit from sinking. */
  const ShiftStart: Controller :=
    Game(Battle, [Named("P1", Exposed), Named("P2", Afloat), Named("P3", Afloat)], [0, 1, 2], [], 0)

  /** After player 1 missed player 2: player 2 is in turn. */
  const ShiftMiddle: Controller :=
    Game(Battle, [Named("P1", Exposed), Named("P2", Missed1), Named("P3", Afloat)], [0, 1, 2], [], 1)

  /** After player 2 sank player 1: players 2 and 3 remain, and the turn
      index 0 points at player 2 again. */
  const ShiftAfter: Controller :=
    Game(Battle, [Named("P1", Sunk), Named("P2", Missed1), Named("P3", Afloat)], [1, 2], [0], 0)

  lemma ShiftStartIsInBattle()
    ensures InBattle([Named("P1", Exposed), Named("P2", Afloat), Named("P3", Afloat)]) == ShiftStart
  {
  }

  /** Player 1 misses player 2, and the turn passes to player 2. */
  lemma ShiftOpeningMiss()
    ensures Attack(ShiftStart, 0, 1, 0, 1).Ok?
    ensures Attack(ShiftStart, 0, 1, 0, 1).value.game == ShiftMiddle
    ensures PlayerInTurn(ShiftMiddle) == Some(1)
  {
    assert AttackAllowed(ShiftStart, 0, 1, 0, 1) by {
      AfloatMisses();
    }
    MissOnAfloat(ShiftStart, 0, 1);
  }

  /** Player 2 sinks player 1, who sat before them in the rotation. The
      remaining players shift down while the turn index moves up, so player 2
      is in turn again instead of player 3, and may attack again. */
  lemma EliminationBeforeAttackerRepeatsTurn()
    ensures Attack(ShiftMiddle, 1, 0, 0, 0).Ok?
    ensures Attack(ShiftMiddle, 1, 0, 0, 0).value.game == ShiftAfter
    ensures PlayerInTurn(ShiftAfter) == Some(1)
    ensures Attack(ShiftAfter, 1, 2, 0, 1).Ok?
  {
    ShiftSink();
    var g := Attack(ShiftMiddle, 1, 0, 0, 0).value.game;
    assert g == ShiftAfter;
    ShiftAfterAllowed();
  }

  lemma ShiftAfterAllowed()
    ensures AttackAllowed(ShiftAfter, 1, 2, 0, 1)
  {
    AfloatMisses();
  }

  /** The fields of the game after player 2 sinks player 1. */
  lemma ShiftSink()
    ensures Attack(ShiftMiddle, 1, 0, 0, 0).Ok?
    ensures var g := Attack(ShiftMiddle, 1, 0, 0, 0).value.game;
            && g.players == ShiftAfter.players && g.active == [1, 2]
            && g.deactivated == [0] && g.turn == 0 && g.status == Battle
  {
    ShiftSetup();
    SinkExposed(ShiftMiddle, 1, 0);
  }

  lemma ShiftSetup()
    ensures AttackAllowed(ShiftMiddle, 1, 0, 0, 0)
    ensures ShiftMiddle.players[0 := ShiftMiddle.players[0].(gameBoard := Sunk)] == ShiftAfter.players
    ensures RemoveFirst(ShiftMiddle.active, 0) == [1, 2]
  {
    ExposedSinks();
    assert IndexOf([0, 1, 2], 0) == 0;
  }

  /** Player 1 attacks first in a two-player game; player 2's fleet is one hit from sinking. */
  const DuelStart: Controller := Game(Battle, [Named("P1", Afloat), Named("P2", Exposed)], [0, 1], [], 0)

  /** After player 1 sank player 2: the game is over and player 1 is left. */
  const DuelAfter: Controller := Game(Over, [Named("P1", Afloat), Named("P2", Sunk)], [0], [1], 0)

  lemma DuelStartIsInBattle()
    ensures InBattle([Named("P1", Afloat), Named("P2", Exposed)]) == DuelStart
  {
  }

  /** With two players, sinking the other fleet ends the game: the attacker
      is announced as the winner and any further attack fails. */
  lemma TwoPlayerGameEnds()
    ensures Attack(DuelStart, 0, 1, 0, 0)
            == Ok(Step(DuelAfter, [BoardChanged(1, CellStatusChanged(0, 0, Hit)), GameOver(0),
                                   GameStatusChanged(Over), PlayerInTurnChanged(Some(0))]))
    ensures Attack(DuelAfter, 0, 1, 0, 0) == Err(InvalidState)
  {
    DuelSink();
    DuelSinkSignals();
    var s := Attack(DuelStart, 0, 1, 0, 0).value;
    assert s.game == DuelAfter;
  }

  /** The fields of the game after player 1 sinks player 2. */
  lemma DuelSink()
    ensures Attack(DuelStart, 0, 1, 0, 0).Ok?
    ensures var g := Attack(DuelStart, 0, 1, 0, 0).value.game;
            && g.players == DuelAfter.players && g.active == [0]
            && g.deactivated == [1] && g.turn == 0 && g.status == Over
  {
    DuelSetup();
    SinkExposed(DuelStart, 0, 1);
  }

  /** What is emitted when player 1 sinks player 2. */
  lemma DuelSinkSignals()
    ensures Attack(DuelStart, 0, 1, 0, 0).Ok?
    ensures Attack(DuelStart, 0, 1, 0, 0).value.signals
            == [BoardChanged(1, CellStatusChanged(0, 0, Hit)), GameOver(0),
                             GameStatusChanged(Over), PlayerInTurnChanged(Some(0))]
  {
    DuelSink();
    DuelSetup();
    SinkSignalsEnding(DuelStart, 0, 1);
  }

  lemma DuelSetup()
    ensures AttackAllowed(DuelStart, 0, 1, 0, 0)
    ensures DuelStart.players[1 := DuelStart.players[1].(gameBoard := Sunk)] == DuelAfter.players
    ensures RemoveFirst(DuelStart.active, 1) == [0]
  {
    ExposedSinks();
    assert IndexOf([0, 1], 1) == 1;
  }
}
