/**
 * The game engine: the pawn store, the turn variables and the two commands a
 * player issues, rolling the die and moving a pawn. Each command is proved
 * against the value-level rules of module Rules.
 */
module Engine {
  import opened Board
  import opened Rules

  class Game {
    /**
     * Row `c` holds the four pawn records of colour `c`. A record is replaced,
     * one at a time, only by UpdatePawnPosition or HandleCapture.
     */
    var pawnStates: Store
    var currentPlayerIndex: int
    var diceValue: int
    var diceRolled: bool
    /** Set by a win: the roll button is disabled and pawn clicks are ignored. */
    var won: bool
    /** The pawns of the current player that carry the highlight of a legal move. */
    var movable: set<int>

    /**
     * What holds between any two commands: every pawn record is well formed,
     * and `won` is set exactly when some colour has all four pawns finished.
     */
    ghost predicate Consistent()
      reads this
    {
      StoreOk(pawnStates) &&
      0 <= currentPlayerIndex < PlayerCount &&
      0 <= diceValue <= 6 &&
      (won <==> exists c: Color :: AllFinished(pawnStates[c]))
    }

    /**
     * Consistent, and the die is either not rolled (no pawn highlighted), or
     * rolled with the highlighted pawns exactly the current player's legal
     * ones, of which there is at least one.
     */
    ghost predicate Valid()
      reads this
    {
      Consistent() &&
      (diceRolled ==>
        1 <= diceValue &&
        movable == MovablePawns(pawnStates[currentPlayerIndex], currentPlayerIndex, diceValue) &&
        movable != {}) &&
      (!diceRolled ==> movable == {})
    }

    /** A new game: every pawn at home, red to roll. */
    constructor ()
      ensures Valid()
      ensures pawnStates == InitialStore()
      ensures currentPlayerIndex == Red && diceValue == 0 && !diceRolled && !won
    {
      pawnStates := InitialStore();
      currentPlayerIndex := Red;
      diceValue := 0;
      diceRolled := false;
      won := false;
      movable := {};
      new;
      forall c: Color
        ensures !AllFinished(pawnStates[c])
      {
        assert pawnStates[c][0].state == Home;
      }
    }

    /** Writes one pawn record; nothing else changes. */
    method UpdatePawnPosition(c: Color, i: int, newPosIndex: int, state: PawnState)
      requires Shaped(pawnStates) && 0 <= i < PawnsPerPlayer
      modifies this`pawnStates
      ensures pawnStates == old(pawnStates)[c := old(pawnStates)[c][i := Pawn(state, newPosIndex)]]
    {
      pawnStates := pawnStates[c := pawnStates[c][i := Pawn(state, newPosIndex)]];
    }

    /**
     * Rolls the die with value `d`. Refused (nothing changes) once the game is
     * won or while a rolled die is still pending. Otherwise the current
     * player's legal pawns are highlighted, or, if there are none, the turn
     * passes to the next player.
     */
    method RollDice(d: int) returns (rolled: bool)
      requires Valid() && 1 <= d <= 6
      modifies this
      ensures Valid()
      ensures rolled == (!old(won) && !old(diceRolled))
      ensures !rolled ==> unchanged(this)
      ensures pawnStates == old(pawnStates) && won == old(won)
      ensures rolled ==> diceValue == d
      ensures rolled ==>
        var legal := MovablePawns(old(pawnStates)[old(currentPlayerIndex)], old(currentPlayerIndex), d);
        if legal == {} then
          !diceRolled && currentPlayerIndex == (old(currentPlayerIndex) + 1) % PlayerCount
        else
          diceRolled && movable == legal && currentPlayerIndex == old(currentPlayerIndex)
    {
      if won || diceRolled {
        return false;
      }
      rolled := true;
      diceValue := d;
      diceRolled := true;
      var movablePawns := MovablePawns(pawnStates[currentPlayerIndex], currentPlayerIndex, diceValue);
      if movablePawns == {} {
        SwitchTurn();
      } else {
        movable := movablePawns;
      }
    }

    /**
     * Moves pawn `i` of colour `color` by the pending die value. Refused
     * (nothing changes) once the game is won, when it is not that colour's
     * turn, when no die is pending, or when the pawn is not highlighted.
     * Otherwise the store becomes AfterMove of the old one, `won` records
     * whether the mover's colour has now finished all its pawns, and the
     * turn either stays (a six) or passes to the next player.
     */
    method MovePawn(color: Color, i: int) returns (moved: bool)
      requires Valid() && 0 <= i < PawnsPerPlayer
      modifies this
      ensures Valid()
      ensures moved == (!old(won) && color == old(currentPlayerIndex) && old(diceRolled) && i in old(movable))
      ensures !moved ==> unchanged(this)
      ensures moved ==> pawnStates == AfterMove(old(pawnStates), color, i, old(diceValue))
      ensures moved ==> won == AllFinished(pawnStates[color])
      ensures moved ==> !diceRolled && movable == {} && diceValue == old(diceValue)
      ensures moved ==>
        currentPlayerIndex == if old(diceValue) == 6 then old(currentPlayerIndex) else (old(currentPlayerIndex) + 1) % PlayerCount
    {
      if won || color != currentPlayerIndex || !diceRolled || i !in movable {
        return false;
      }
      moved := true;
      assert Legal(pawnStates[color][i], color, diceValue);
      WinnerIsMover(pawnStates, color, i, diceValue);
      ApplyMove(color, i);
      PostMove();
    }

    /**
     * The move itself, for a pawn that the pending die value lets move:
     * the pawn enters play, walks the ring (turning into its home stretch at
     * its entry point, or landing and capturing), or advances along its home
     * stretch; a pawn that finishes triggers the win check.
     */
    method ApplyMove(color: Color, i: int)
      requires StoreOk(pawnStates) && !won && 0 <= i < PawnsPerPlayer && 1 <= diceValue <= 6
      requires Legal(pawnStates[color][i], color, diceValue)
      modifies this`pawnStates, this`won
      ensures pawnStates == AfterMove(old(pawnStates), color, i, diceValue)
      ensures won == AllFinished(pawnStates[color])
    {
      ghost var before := pawnStates;
      var pawnState := pawnStates[color][i];
      if pawnState.state == Home && diceValue == 6 {
        UpdatePawnPosition(color, i, Start(color), Active);
        assert pawnStates[color][i].state == Active;
      } else if pawnState.state == Active {
        var walk := WalkRing(pawnState.position, color, diceValue);
        AfterMoveByWalk(pawnStates, color, i, diceValue);
        if walk.EnteredHome? {
          var remainingSteps := diceValue - walk.steps;
          if remainingSteps < 6 {
            UpdatePawnPosition(color, i, remainingSteps, Homing);
          }
          if remainingSteps == 5 {
            UpdatePawnPosition(color, i, 5, Finished);
            assert before[color][i := Pawn(Homing, 5)][i := Pawn(Finished, 5)] == before[color][i := Pawn(Finished, 5)];
            CheckWinCondition(color);
          } else {
            assert pawnStates[color][i].state == Homing;
          }
        } else {
          UpdatePawnPosition(color, i, walk.cell, Active);
          HandleCapture(walk.cell, color);
          assert pawnStates[color][i].state == Active;
        }
      } else if pawnState.state == Homing {
        var newHomePos := pawnState.position + diceValue;
        if newHomePos == 5 {
          UpdatePawnPosition(color, i, newHomePos, Finished);
          CheckWinCondition(color);
        } else {
          UpdatePawnPosition(color, i, newHomePos, Homing);
          assert pawnStates[color][i].state == Homing;
        }
      }
    }

    /**
     * Resolves a landing on ring cell `position` by a pawn of colour
     * `attackerColor`: the store becomes Capture of the old one.
     */
    method HandleCapture(position: int, attackerColor: Color)
      requires Shaped(pawnStates)
      modifies this`pawnStates
      ensures pawnStates == Capture(old(pawnStates), position, attackerColor)
    {
      if IsSafe(position) {
        return;
      }
      for c := 0 to PlayerCount
        invariant Shaped(pawnStates)
        invariant forall c', j :: 0 <= c' < PlayerCount && 0 <= j < PawnsPerPlayer ==>
          pawnStates[c'][j] ==
            if c' < c then CapturePawn(old(pawnStates)[c'][j], c', position, attackerColor)
            else old(pawnStates)[c'][j]
      {
        if c == attackerColor {
          continue;
        }
        for j := 0 to PawnsPerPlayer
          invariant Shaped(pawnStates)
          invariant forall c', j' :: 0 <= c' < PlayerCount && 0 <= j' < PawnsPerPlayer ==>
            pawnStates[c'][j'] ==
              if c' < c || (c' == c && j' < j) then CapturePawn(old(pawnStates)[c'][j'], c', position, attackerColor)
              else old(pawnStates)[c'][j']
        {
          var pawn := pawnStates[c][j];
          if pawn.state == Active && pawn.position == position {
            pawnStates := pawnStates[c := pawnStates[c][j := InBase]];
          }
        }
      }
      StoreExt(pawnStates, Capture(old(pawnStates), position, attackerColor));
    }

    /** Ends a move: a six gives the same player another roll, anything else passes the turn. */
    method PostMove()
      requires Consistent()
      modifies this
      ensures Valid()
      ensures pawnStates == old(pawnStates) && won == old(won) && diceValue == old(diceValue)
      ensures !diceRolled && movable == {}
      ensures currentPlayerIndex ==
        if diceValue == 6 then old(currentPlayerIndex) else (old(currentPlayerIndex) + 1) % PlayerCount
    {
      movable := {};
      if diceValue == 6 {
        diceRolled := false;
      } else {
        SwitchTurn();
      }
    }

    /** Passes the turn to the next player in order and clears the die. */
    method SwitchTurn()
      requires Consistent()
      modifies this
      ensures Valid()
      ensures pawnStates == old(pawnStates) && won == old(won) && diceValue == old(diceValue)
      ensures currentPlayerIndex == (old(currentPlayerIndex) + 1) % PlayerCount
      ensures !diceRolled && movable == {}
    {
      currentPlayerIndex := (currentPlayerIndex + 1) % PlayerCount;
      diceRolled := false;
      movable := {};
    }

    /** Records a win when every pawn of `playerColor` has finished. */
    method CheckWinCondition(playerColor: Color)
      requires Shaped(pawnStates)
      modifies this`won
      ensures won == (old(won) || AllFinished(pawnStates[playerColor]))
    {
      var allFinished := AllFinished(pawnStates[playerColor]);
      if allFinished {
        won := true;
      }
    }
  }

  /**
   * A fresh game in which red rolls a six and moves its first pawn: the pawn
   * stands on red's start cell, no other pawn has moved, and red rolls again.
   */
  method OpeningSix() returns (g: Game)
    ensures g.Valid()
    ensures g.pawnStates == InitialStore()[Red := InitialStore()[Red][0 := Pawn(Active, Start(Red))]]
    ensures g.currentPlayerIndex == Red && !g.diceRolled && !g.won
  {
    g := new Game();
    OpeningNeedsSix(Red, 6);
    var rolled := g.RollDice(6);
    var moved := g.MovePawn(Red, 0);
    EnterPlay(InitialStore(), Red, 0);
    assert g.pawnStates[Red][0].state == Active;
  }

  /** A fresh game in which red rolls anything but a six: red cannot move and green is to roll. */
  method OpeningWithoutSix(d: int) returns (g: Game)
    requires 1 <= d <= 5
    ensures g.Valid()
    ensures g.pawnStates == InitialStore()
    ensures g.currentPlayerIndex == Green && !g.diceRolled && g.diceValue == d
  {
    g := new Game();
    OpeningNeedsSix(Red, d);
    var rolled := g.RollDice(d);
  }
}
