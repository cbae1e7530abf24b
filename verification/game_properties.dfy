/** Properties of the match controller over whole attacks: the status
    machine only moves forward, game over is final, the turn rotation, and
    what eliminating a player does to the rotation. */
module GameProperties {
  import opened Results
  import opened Seqs
  import opened Boards
  import Players
  import opened Games

  /** The defender's board after an attack that passed every guard. */
  function AttackedBoard(c: Controller, attacker: PlayerId, defender: PlayerId, row: int, col: int): Board
    requires Attack(c, attacker, defender, row, col).Ok?
  {
    ReceiveAttack(c.players[defender].gameBoard, row, col).value.board
  }

  /** Once the game is over every operation fails with InvalidState, and the
      player in turn is the sole remaining active player. */
  lemma OverIsFinal(c: Controller, players: seq<Players.Player>, attacker: PlayerId, defender: PlayerId, row: int, col: int)
    requires c.status == Over
    ensures DefinePlayers(c, players) == Err(InvalidState)
    ensures Start(c) == Err(InvalidState)
    ensures Attack(c, attacker, defender, row, col) == Err(InvalidState)
    ensures |c.active| == 1 && PlayerInTurn(c) == Some(c.active[0])
  {
  }

  /** An attack never moves the status backwards: it leaves the game in
      battle or ends it. With the forward steps of `DefinePlayers` and
      `Start`, the status only ever moves forward. */
  lemma StatusNeverRegresses(c: Controller, attacker: PlayerId, defender: PlayerId, row: int, col: int)
    ensures Attack(c, attacker, defender, row, col).Ok?
            ==> Rank(c.status) <= Rank(Attack(c, attacker, defender, row, col).value.game.status)
  {
  }

  /** Without an elimination the turn moves from i to (i + 1) mod n, so the
      next active player in the fixed order is in turn. */
  lemma TurnAdvancesWithoutElimination(c: Controller, attacker: PlayerId, defender: PlayerId, row: int, col: int)
    requires Attack(c, attacker, defender, row, col).Ok?
    requires !IsAllSunk(AttackedBoard(c, attacker, defender, row, col))
    ensures var g := Attack(c, attacker, defender, row, col).value.game;
            && g.active == c.active
            && g.turn == (c.turn + 1) % |c.active|
            && PlayerInTurn(g) == Some(c.active[(c.turn + 1) % |c.active|])
            && g.status == Battle
  {
  }

  /** An eliminated defender leaves the rotation and joins the deactivated
      players; every other active player stays, in the same relative order. */
  lemma EliminationRemovesOnlyTheDefender(c: Controller, attacker: PlayerId, defender: PlayerId, row: int, col: int)
    requires Attack(c, attacker, defender, row, col).Ok?
    requires IsAllSunk(AttackedBoard(c, attacker, defender, row, col))
    ensures var g := Attack(c, attacker, defender, row, col).value.game;
            var k := IndexOf(c.active, defender);
            && 0 <= k
            && g.active == c.active[..k] + c.active[k + 1..]
            && defender !in g.active
            && g.deactivated == c.deactivated + [defender]
            && (forall p :: p in c.active && p != defender ==> p in g.active)
  {
    RemovalSplices(c.active, defender);
  }

  /** Removing a present element of a list without duplicates splices out
      its one position and keeps every other element. */
  lemma RemovalSplices(s: seq<PlayerId>, x: PlayerId)
    requires x in s && NoDuplicates(s)
    ensures var k := IndexOf(s, x);
            && 0 <= k
            && RemoveFirst(s, x) == s[..k] + s[k + 1..]
            && x !in RemoveFirst(s, x)
            && (forall p :: p in s && p != x ==> p in RemoveFirst(s, x))
  {
    var k := IndexOf(s, x);
    var r := RemoveFirst(s, x);
    RemoveFirstSplices(s, x);
    assert r == r[..k] + r[k..];
    forall p | p in s && p != x ensures p in r {
      RemovalKeepsOthers(s, x, p);
    }
  }

  /** Removing one element keeps every other element. */
  lemma RemovalKeepsOthers(s: seq<PlayerId>, x: PlayerId, y: PlayerId)
    requires y in s && y != x
    ensures y in RemoveFirst(s, x)
  {
    if x in s {
      var k := IndexOf(s, x);
      var r := RemoveFirst(s, x);
      RemoveFirstSplices(s, x);
      var j :| 0 <= j < |s| && s[j] == y;
      if j < k {
        assert r[..k][j] == s[..k][j];
      } else {
        assert j != k;
        assert r[k..][j - 1 - k] == s[k + 1..][j - 1 - k];
      }
    }
  }

  /** Removing one of two or more players leaves a single one only when two
      were left, and then it is any other player that was active. */
  lemma LastStanding(s: seq<PlayerId>, x: PlayerId, y: PlayerId)
    requires y in s && y != x && |RemoveFirst(s, x)| == 1
    ensures RemoveFirst(s, x) == [y]
  {
    var r := RemoveFirst(s, x);
    RemovalKeepsOthers(s, x, y);
    assert r[0] == y;
  }

  /** What an attack that passed its guards did to the rotation. */
  lemma AttackRotation(c: Controller, attacker: PlayerId, defender: PlayerId, row: int, col: int)
    requires Attack(c, attacker, defender, row, col).Ok?
    ensures var s := Attack(c, attacker, defender, row, col).value;
            && c.status == Battle && 2 <= |c.active| && NoDuplicates(c.active)
            && c.turn < |c.active| && c.active[c.turn] == attacker
            && defender in c.active && defender != attacker
            && (IsAllSunk(AttackedBoard(c, attacker, defender, row, col))
                ==> s.game.active == RemoveFirst(c.active, defender))
            && (!IsAllSunk(AttackedBoard(c, attacker, defender, row, col)) ==> s.game.active == c.active)
            && s.game.turn == NextTurn(c.turn, |s.game.active|)
            && (s.game.status == Over <==> |s.game.active| == 1)
            && |s.signals| >= 2
            && s.signals[|s.signals| - 1] == PlayerInTurnChanged(PlayerInTurn(s.game))
            && (s.game.status == Over ==> s.signals[1] == GameOver(s.game.active[0])
                                          && s.signals[2] == GameStatusChanged(Over))
  {
  }

  /** The game ends exactly when an attack leaves one active player, who is
      the attacker: it is announced as the winner, the status becomes over and
      the attacker is the player in turn. */
  lemma GameOverCrownsTheAttacker(c: Controller, attacker: PlayerId, defender: PlayerId, row: int, col: int)
    requires Attack(c, attacker, defender, row, col).Ok?
    ensures var s := Attack(c, attacker, defender, row, col).value;
            s.game.status == Over
            ==> && IsAllSunk(AttackedBoard(c, attacker, defender, row, col))
                && s.game.active == [attacker]
                && PlayerInTurn(s.game) == Some(attacker)
                && s.signals[1] == GameOver(attacker)
                && s.signals[2] == GameStatusChanged(Over)
  {
    AttackRotation(c, attacker, defender, row, col);
    var s := Attack(c, attacker, defender, row, col).value;
    if s.game.status == Over {
      assert IsAllSunk(AttackedBoard(c, attacker, defender, row, col));
      LastStanding(c.active, defender, attacker);
    }
  }

  /** In a two-player game, sinking the defender's last ship ends the game
      with the attacker as winner, and any further attack fails. */
  lemma TwoPlayerWin(c: Controller, attacker: PlayerId, defender: PlayerId, row: int, col: int,
                     a2: PlayerId, d2: PlayerId, row2: int, col2: int)
    requires |c.active| == 2
    requires Attack(c, attacker, defender, row, col).Ok?
    requires IsAllSunk(AttackedBoard(c, attacker, defender, row, col))
    ensures var s := Attack(c, attacker, defender, row, col).value;
            && s.game.status == Over
            && GameOver(attacker) in s.signals
            && PlayerInTurn(s.game) == Some(attacker)
            && Attack(s.game, a2, d2, row2, col2) == Err(InvalidState)
  {
    AttackRotation(c, attacker, defender, row, col);
    GameOverCrownsTheAttacker(c, attacker, defender, row, col);
  }

  /** The player who should move after the attacker at position `t` in the
      rotation as it stood, passing over the eliminated defender at `k`. */
  function IntendedSuccessor(active: seq<PlayerId>, t: nat, k: nat): PlayerId
    requires t < |active| && k < |active| && t != k && 3 <= |active|
  {
    var j := NextTurn(t, |active|);
    if j == k then active[NextTurn(j, |active|)] else active[j]
  }

  /** The rotation rule on its own: remove position `k`, then advance the
      turn index `t` against the shorter list. The result is the intended
      successor unless the removed position lies before `t` and `t` is not
      the last position. */
  lemma ShiftedRotation(a: seq<PlayerId>, t: nat, k: nat)
    requires NoDuplicates(a) && 3 <= |a| && t < |a| && k < |a| && t != k
    ensures var r := RemoveFirst(a, a[k]);
            var t' := NextTurn(t, |a| - 1);
            t' < |r|
            && (r[t'] == IntendedSuccessor(a, t, k) <==> !(k < t < |a| - 1))
  {
    var n := |a|;
    IndexOfUnique(a, k);
    RemoveFirstSplices(a, a[k]);
    var r := RemoveFirst(a, a[k]);
    assert |r| == n - 1;
    assert forall m :: 0 <= m < k ==> r[m] == a[m] by {
      forall m | 0 <= m < k ensures r[m] == a[m] {
        assert r[..k][m] == a[..k][m];
      }
    }
    assert forall m :: k <= m < n - 1 ==> r[m] == a[m + 1] by {
      forall m | k <= m < n - 1 ensures r[m] == a[m + 1] {
        assert r[k..][m - k] == a[k + 1..][m - k];
      }
    }
    var t' := NextTurn(t, n - 1);
    assert t' == (if t + 1 >= n - 1 then 0 else t + 1);
    var j := if t + 1 >= n then 0 else t + 1;
    assert NextTurn(t, n) == j;
    assert NextTurn(j, n) == if j + 1 >= n then 0 else j + 1;
    var intended := IntendedSuccessor(a, t, k);
    if k > t {
      if t + 1 < n - 1 {
        if t + 1 == k {
          assert r[t + 1] == a[t + 2] == intended;
        } else {
          assert r[t + 1] == a[t + 1] == intended;
        }
      } else {
        assert t == n - 2 && k == n - 1;
        assert r[0] == a[0] == intended;
      }
    } else if t == n - 1 {
      if k == 0 {
        assert r[0] == a[1] == intended;
      } else {
        assert r[0] == a[0] == intended;
      }
    } else {
      assert intended == a[t + 1];
      if t + 1 < n - 1 {
        assert r[t + 1] == a[t + 2] && a[t + 2] != a[t + 1];
      } else if k == 0 {
        assert r[0] == a[1] && a[1] != a[n - 1];
      } else {
        assert r[0] == a[0] && a[0] != a[n - 1];
      }
    }
  }

  /** After an elimination that does not end the game, the player in turn is
      the attacker's intended successor exactly when the eliminated defender
      did not sit before the attacker while the attacker was short of the last
      position. Removing an earlier player shifts the remaining ones down
      while the turn index still moves up, so the intended successor is
      passed over. */
  lemma SuccessorAfterElimination(c: Controller, attacker: PlayerId, defender: PlayerId, row: int, col: int)
    requires Attack(c, attacker, defender, row, col).Ok?
    requires IsAllSunk(AttackedBoard(c, attacker, defender, row, col))
    requires 3 <= |c.active|
    ensures var g := Attack(c, attacker, defender, row, col).value.game;
            var k := IndexOf(c.active, defender);
            && 0 <= k && k != c.turn
            && (PlayerInTurn(g) == Some(IntendedSuccessor(c.active, c.turn, k))
                <==> !(k < c.turn < |c.active| - 1))
  {
    AttackRotation(c, attacker, defender, row, col);
    var k := IndexOf(c.active, defender);
    ShiftedRotation(c.active, c.turn, k);
  }
}
