/**
 * The rules of a move, on values: pawn records, which pawns a die value lets
 * move, where a moved pawn ends up, and which opposing pawns a landing
 * captures. The Engine module's Game class is proved against these functions.
 */
module Rules {
  import opened Board

  datatype PawnState = Home | Active | Homing | Finished

  /**
   * One pawn record. `position` is -1 while the pawn is at home, a ring
   * index while it is active, and an index into its colour's home stretch
   * while it is homing or finished.
   */
  datatype Pawn = Pawn(state: PawnState, position: int)

  /** A pawn back in its home base. */
  const InBase: Pawn := Pawn(Home, -1)

  /** The pawn store: four rows (one per colour, in turn order) of four pawns. */
  type Store = seq<seq<Pawn>>

  predicate Shaped(s: Store)
  {
    |s| == PlayerCount && forall c :: 0 <= c < PlayerCount ==> |s[c]| == PawnsPerPlayer
  }

  /** The invariant every pawn record of colour `c` keeps. */
  predicate WellFormed(p: Pawn, c: Color)
  {
    match p.state
    case Home => p.position == -1
    case Active => 0 <= p.position < RingLength && p.position != EntryPoint(c)
    case Homing => 0 <= p.position < HomeLength - 1
    case Finished => p.position == HomeLength - 1
  }

  predicate StoreOk(s: Store)
  {
    Shaped(s) &&
    forall c, i :: 0 <= c < PlayerCount && 0 <= i < PawnsPerPlayer ==> WellFormed(s[c][i], c)
  }

  /** Two shaped stores that agree on every pawn are equal. */
  lemma StoreExt(a: Store, b: Store)
    requires Shaped(a) && Shaped(b)
    requires forall c, i :: 0 <= c < PlayerCount && 0 <= i < PawnsPerPlayer ==> a[c][i] == b[c][i]
    ensures a == b
  {
    forall c | 0 <= c < PlayerCount
      ensures a[c] == b[c]
    {
      assert forall i :: 0 <= i < PawnsPerPlayer ==> a[c][i] == b[c][i];
    }
  }

  /** The store right after the game starts: every pawn at home. */
  function InitialStore(): (s: Store)
    ensures StoreOk(s)
    ensures forall c, i :: 0 <= c < PlayerCount && 0 <= i < PawnsPerPlayer ==> s[c][i].state == Home
  {
    seq(PlayerCount, c => seq(PawnsPerPlayer, i => InBase))
  }

  // ---------------------------------------------------------------------
  // Legality (getMovablePawns)
  // ---------------------------------------------------------------------

  /** The distance to home that the legality test computes for an active pawn at `pos`. */
  function StepsToHome(pos: int, c: Color): int
  {
    if pos >= Start(c) then EntryPoint(c) - pos + 1
    else (RingLength - Start(c)) + EntryPoint(c) + 1
  }

  /** Whether a die value of `roll` lets pawn `p` of colour `c` move. */
  predicate Legal(p: Pawn, c: Color, roll: int)
  {
    match p.state
    case Finished => false
    case Home => roll == 6
    case Active => StepsToHome(p.position, c) + 6 >= roll
    case Homing => p.position + roll < 6
  }

  /** The indices, within one colour's row, of the pawns that may move. */
  function MovablePawns(row: seq<Pawn>, c: Color, roll: int): set<int>
  {
    set i | 0 <= i < |row| && Legal(row[i], c, roll)
  }

  /**
   * At the start of the game a player has a pawn to move exactly when the die
   * shows a six, and then all four pawns may move.
   */
  lemma {:induction false} OpeningNeedsSix(c: Color, roll: int)
    ensures MovablePawns(InitialStore()[c], c, roll) == if roll == 6 then {0, 1, 2, 3} else {}
  {
    var row := InitialStore()[c];
    assert forall j :: 0 <= j < |row| ==> row[j] == InBase;
    if roll == 6 {
      assert forall j :: j in {0, 1, 2, 3} ==> 0 <= j < |row| && Legal(row[j], c, roll);
    }
  }

  /**
   * Which pawns may move, in closed form. For an active pawn this is what the
   * two-branch distance formula amounts to: every active red pawn may move,
   * while a pawn of another colour that has gone past its start cell may move
   * only while it is at most `6 - roll` cells beyond it.
   */
  lemma LegalityRules(p: Pawn, c: Color, roll: int)
    requires WellFormed(p, c) && 1 <= roll <= 6
    ensures p.state == Finished ==> !Legal(p, c, roll)
    ensures p.state == Home ==> (Legal(p, c, roll) <==> roll == 6)
    ensures p.state == Homing ==> (Legal(p, c, roll) <==> p.position + roll <= HomeLength - 1)
    ensures p.state == Active && c == Red ==> Legal(p, c, roll)
    ensures p.state == Active && c != Red ==>
      (Legal(p, c, roll) <==> p.position < Start(c) || p.position <= Start(c) + 6 - roll)
  {
  }

  /**
   * A pawn of a colour other than red that is active at least six cells past
   * its own start cell can never move again, whatever the die shows.
   */
  lemma {:induction false} StrandedPawn(p: Pawn, c: Color, roll: int)
    requires p.state == Active && c != Red && 1 <= roll <= 6
    requires Start(c) + 6 <= p.position < RingLength
    ensures !Legal(p, c, roll)
  {
    assert StepsToHome(p.position, c) == Start(c) - p.position;
  }

  /** A red pawn keeps moving: some die value always lets an active or homing red pawn move. */
  lemma {:induction false} RedNeverStranded(p: Pawn)
    requires WellFormed(p, Red) && (p.state == Active || p.state == Homing)
    ensures Legal(p, Red, 1)
  {
    if p.state == Active {
      assert StepsToHome(p.position, Red) == 52 - p.position;
    }
  }

  // ---------------------------------------------------------------------
  // Walking the ring (the stepping loop of movePawn)
  // ---------------------------------------------------------------------

  /** The ring cell `steps` single steps after cell `pos`. */
  function Advance(pos: int, steps: int): int
  {
    (pos + steps) % RingLength
  }

  /** One more step after `steps` steps is one step on from where those ended. */
  lemma AdvanceStep(pos: int, steps: int)
    requires 0 <= pos < RingLength && 0 <= steps
    ensures Advance(pos, steps + 1) == (Advance(pos, steps) + 1) % RingLength
  {
  }

  /** The number of single steps from ring cell `pos` until `c`'s entry point is first reached. */
  function StepsToEntry(pos: int, c: Color): int
    requires 0 <= pos < RingLength
  {
    (EntryPoint(c) - pos - 1) % RingLength + 1
  }

  /**
   * StepsToEntry is the first hit: after that many steps around the ring the
   * pawn stands on the entry point, and after any fewer it does not.
   */
  lemma {:induction false} StepsToEntryFirstHit(pos: int, c: Color)
    requires 0 <= pos < RingLength
    ensures 1 <= StepsToEntry(pos, c) <= RingLength
    ensures Advance(pos, StepsToEntry(pos, c)) == EntryPoint(c)
    ensures forall j :: 1 <= j < StepsToEntry(pos, c) ==> Advance(pos, j) != EntryPoint(c)
  {
    var e := EntryPoint(c);
    if pos < e {
      assert StepsToEntry(pos, c) == e - pos;
      forall j | 1 <= j < e - pos
        ensures Advance(pos, j) != e
      {
        assert Advance(pos, j) == pos + j;
      }
    } else {
      assert StepsToEntry(pos, c) == e - pos + RingLength;
      assert Advance(pos, e - pos + RingLength) == e;
      forall j | 1 <= j < e - pos + RingLength
        ensures Advance(pos, j) != e
      {
        if pos + j < RingLength {
          assert Advance(pos, j) == pos + j;
        } else {
          assert Advance(pos, j) == pos + j - RingLength;
        }
      }
    }
  }

  /** How a walk along the ring ends: on the entry point after `steps` steps, or on `cell`. */
  datatype Walk = EnteredHome(steps: int) | Landed(cell: int)

  /** Where walking `roll` cells from `pos` ends, in closed form. */
  function RingWalk(pos: int, c: Color, roll: int): Walk
    requires 0 <= pos < RingLength
  {
    var k := StepsToEntry(pos, c);
    if k <= roll then EnteredHome(k) else Landed(Advance(pos, roll))
  }

  /**
   * Steps a pawn from `pos` one ring cell at a time, `roll` times, and stops
   * as soon as it stands on its colour's entry point.
   */
  method WalkRing(pos: int, c: Color, roll: int) returns (w: Walk)
    requires 0 <= pos < RingLength && 1 <= roll <= 6
    ensures w == RingWalk(pos, c, roll)
    ensures w.EnteredHome? ==> 1 <= w.steps <= roll && Advance(pos, w.steps) == EntryPoint(c)
    ensures w.Landed? ==>
      w.cell == Advance(pos, roll) &&
      forall j :: 1 <= j <= roll ==> Advance(pos, j) != EntryPoint(c)
  {
    var entryPoint := EntryPoint(c);
    var newPos := pos;
    StepsToEntryFirstHit(pos, c);
    for i := 0 to roll
      invariant newPos == Advance(pos, i)
      invariant forall j :: 1 <= j <= i ==> Advance(pos, j) != entryPoint
    {
      AdvanceStep(pos, i);
      newPos := (newPos + 1) % RingLength;
      if newPos == entryPoint {
        return EnteredHome(i + 1);
      }
    }
    w := Landed(newPos);
  }

  // ---------------------------------------------------------------------
  // Applying a move
  // ---------------------------------------------------------------------

  /** The pawn that results from moving `p` of colour `c` by `roll`. */
  function MovedPawn(p: Pawn, c: Color, roll: int): Pawn
    requires WellFormed(p, c)
  {
    match p.state
    case Home => if roll == 6 then Pawn(Active, Start(c)) else p
    case Active =>
      (match RingWalk(p.position, c, roll)
       case EnteredHome(k) =>
         var remaining := roll - k;
         if remaining == 5 then Pawn(Finished, 5)
         else if remaining < 6 then Pawn(Homing, remaining)
         else p
       case Landed(cell) => Pawn(Active, cell))
    case Homing =>
      var newHomePos := p.position + roll;
      if newHomePos == 5 then Pawn(Finished, newHomePos) else Pawn(Homing, newHomePos)
    case Finished => p
  }

  /** What a landing on `cell` by colour `attacker` does to pawn `q` of colour `owner`. */
  function CapturePawn(q: Pawn, owner: Color, cell: int, attacker: Color): Pawn
  {
    if owner != attacker && q.state == Active && q.position == cell then InBase else q
  }

  /**
   * The store after a pawn of colour `attacker` lands active on ring cell
   * `cell`: on a safe cell nothing changes; otherwise every pawn either keeps
   * its record or is an opposing pawn active on `cell` sent back home, and
   * afterwards no opposing pawn is active on `cell`.
   */
  function Capture(s: Store, cell: int, attacker: Color): (r: Store)
    requires Shaped(s)
    ensures Shaped(r)
    ensures IsSafe(cell) ==> r == s
    ensures forall c, i :: 0 <= c < PlayerCount && 0 <= i < PawnsPerPlayer ==>
      r[c][i] == s[c][i] ||
      (c != attacker && s[c][i].state == Active && s[c][i].position == cell && r[c][i] == InBase)
    ensures !IsSafe(cell) ==> forall c, i :: 0 <= c < PlayerCount && c != attacker && 0 <= i < PawnsPerPlayer ==>
      !(r[c][i].state == Active && r[c][i].position == cell)
  {
    if IsSafe(cell) then s
    else seq(PlayerCount, c requires 0 <= c < PlayerCount =>
           seq(PawnsPerPlayer, i requires 0 <= i < PawnsPerPlayer => CapturePawn(s[c][i], c, cell, attacker)))
  }

  /** The store after pawn `i` of colour `c` is moved by `roll`. */
  function AfterMove(s: Store, c: Color, i: int, roll: int): Store
    requires StoreOk(s) && 0 <= i < PawnsPerPlayer
  {
    var p := s[c][i];
    var q := MovedPawn(p, c, roll);
    var moved := s[c := s[c][i := q]];
    if p.state == Active && q.state == Active then Capture(moved, q.position, c) else moved
  }

  /** A legal move keeps the moved pawn's record well formed. */
  lemma {:induction false} MovedPawnWellFormed(p: Pawn, c: Color, roll: int)
    requires WellFormed(p, c) && Legal(p, c, roll) && 1 <= roll <= 6
    ensures WellFormed(MovedPawn(p, c, roll), c)
  {
    if p.state == Active {
      StepsToEntryFirstHit(p.position, c);
      match RingWalk(p.position, c, roll)
      case EnteredHome(k) =>
      case Landed(cell) =>
        assert StepsToEntry(p.position, c) > roll;
        assert cell == Advance(p.position, roll);
        assert cell != EntryPoint(c);
    }
  }

  /** Every legal move keeps every pawn record of the store well formed. */
  lemma {:induction false} AfterMoveKeepsStore(s: Store, c: Color, i: int, roll: int)
    requires StoreOk(s) && 0 <= i < PawnsPerPlayer && 1 <= roll <= 6
    requires Legal(s[c][i], c, roll)
    ensures StoreOk(AfterMove(s, c, i, roll))
  {
    MovedPawnWellFormed(s[c][i], c, roll);
    var q := MovedPawn(s[c][i], c, roll);
    var moved := s[c := s[c][i := q]];
    assert StoreOk(moved);
    if s[c][i].state == Active && q.state == Active && !IsSafe(q.position) {
      var r := Capture(moved, q.position, c);
      forall c', j | 0 <= c' < PlayerCount && 0 <= j < PawnsPerPlayer
        ensures WellFormed(r[c'][j], c')
      {
        assert r[c'][j] == CapturePawn(moved[c'][j], c', q.position, c);
      }
    }
  }

  /** Moving a home pawn on a six puts it on its colour's start cell; no capture is resolved. */
  lemma EnterPlay(s: Store, c: Color, i: int)
    requires StoreOk(s) && 0 <= i < PawnsPerPlayer && s[c][i].state == Home
    ensures AfterMove(s, c, i, 6) == s[c := s[c][i := Pawn(Active, Start(c))]]
  {
  }

  /**
   * An active pawn that first reaches its entry point within the roll turns
   * into its home stretch with the steps left over (finishing when five are
   * left), and nothing else in the store changes.
   */
  lemma {:induction false} ActiveMoveIntoHome(s: Store, c: Color, i: int, roll: int)
    requires StoreOk(s) && 0 <= i < PawnsPerPlayer && 1 <= roll <= 6
    requires s[c][i].state == Active && StepsToEntry(s[c][i].position, c) <= roll
    ensures var k := StepsToEntry(s[c][i].position, c);
      Advance(s[c][i].position, k) == EntryPoint(c) &&
      AfterMove(s, c, i, roll) ==
        s[c := s[c][i := if roll - k == HomeLength - 1 then Pawn(Finished, HomeLength - 1)
                         else Pawn(Homing, roll - k)]]
  {
    StepsToEntryFirstHit(s[c][i].position, c);
  }

  /**
   * An active pawn that does not reach its entry point lands active
   * `roll` cells further round the ring. On a safe cell nothing else
   * changes; otherwise exactly the opposing pawns active on that cell go
   * back home, so afterwards no opposing pawn stands on it. The mover's own
   * other pawns never change.
   */
  lemma {:induction false} ActiveMoveOnRing(s: Store, c: Color, i: int, roll: int)
    requires StoreOk(s) && 0 <= i < PawnsPerPlayer && 1 <= roll <= 6
    requires s[c][i].state == Active && StepsToEntry(s[c][i].position, c) > roll
    ensures var cell := Advance(s[c][i].position, roll);
      var r := AfterMove(s, c, i, roll);
      Shaped(r) &&
      r[c][i] == Pawn(Active, cell) &&
      (forall j :: 0 <= j < PawnsPerPlayer && j != i ==> r[c][j] == s[c][j]) &&
      (forall c', j :: 0 <= c' < PlayerCount && c' != c && 0 <= j < PawnsPerPlayer ==>
         r[c'][j] == if !IsSafe(cell) && s[c'][j].state == Active && s[c'][j].position == cell
                     then InBase else s[c'][j]) &&
      (!IsSafe(cell) ==> forall c', j :: 0 <= c' < PlayerCount && c' != c && 0 <= j < PawnsPerPlayer ==>
         !(r[c'][j].state == Active && r[c'][j].position == cell))
  {
    var cell := Advance(s[c][i].position, roll);
    assert RingWalk(s[c][i].position, c, roll) == Landed(cell);
    var q := Pawn(Active, cell);
    assert MovedPawn(s[c][i], c, roll) == q;
    var moved := s[c := s[c][i := q]];
    var r := AfterMove(s, c, i, roll);
    assert r == Capture(moved, cell, c);
    forall c', j | 0 <= c' < PlayerCount && 0 <= j < PawnsPerPlayer
      ensures r[c'][j] == CapturePawn(moved[c'][j], c', cell, c) || IsSafe(cell)
    {
    }
  }

  /**
   * A homing pawn that the roll keeps within its home stretch advances by the
   * roll and finishes exactly when it lands on index 5; no capture is
   * resolved and nothing else in the store changes.
   */
  lemma HomingMove(s: Store, c: Color, i: int, roll: int)
    requires StoreOk(s) && 0 <= i < PawnsPerPlayer && 1 <= roll <= 6
    requires s[c][i].state == Homing && s[c][i].position + roll <= HomeLength - 1
    ensures var n := s[c][i].position + roll;
      AfterMove(s, c, i, roll) ==
        s[c := s[c][i := if n == HomeLength - 1 then Pawn(Finished, HomeLength - 1) else Pawn(Homing, n)]]
  {
  }

  /**
   * A pawn of a colour other than red that is active at or past its own
   * start cell, and that the roll lets move, stays on the ring within six
   * cells past that start cell: it never reaches its entry point.
   */
  lemma {:induction false} NonRedStaysNearStart(p: Pawn, c: Color, roll: int)
    requires c != Red && WellFormed(p, c) && p.state == Active && Start(c) <= p.position
    requires 1 <= roll <= 6 && Legal(p, c, roll)
    ensures var q := MovedPawn(p, c, roll);
      q.state == Active && Start(c) < q.position <= Start(c) + 6
  {
    StepsToEntryFirstHit(p.position, c);
  }

  /** AfterMove of an active pawn, given where its walk ends. */
  lemma AfterMoveByWalk(s: Store, c: Color, i: int, roll: int)
    requires StoreOk(s) && 0 <= i < PawnsPerPlayer && s[c][i].state == Active && 1 <= roll <= 6
    ensures RingWalk(s[c][i].position, c, roll).Landed? ==>
      var cell := RingWalk(s[c][i].position, c, roll).cell;
      AfterMove(s, c, i, roll) == Capture(s[c := s[c][i := Pawn(Active, cell)]], cell, c)
    ensures RingWalk(s[c][i].position, c, roll).EnteredHome? ==>
      var remaining := roll - RingWalk(s[c][i].position, c, roll).steps;
      AfterMove(s, c, i, roll) ==
        s[c := s[c][i := if remaining == 5 then Pawn(Finished, 5) else Pawn(Homing, remaining)]]
  {
    StepsToEntryFirstHit(s[c][i].position, c);
  }

  /** Every pawn of the row has finished. */
  predicate AllFinished(row: seq<Pawn>)
  {
    forall j :: 0 <= j < |row| ==> row[j].state == Finished
  }

  /**
   * A move can complete a colour only by finishing the moved pawn, and it
   * never changes which pawns of the other colours have finished.
   */
  lemma {:induction false} WinOnlyByFinishingMove(s: Store, c: Color, i: int, roll: int)
    requires StoreOk(s) && 0 <= i < PawnsPerPlayer && 1 <= roll <= 6
    requires Legal(s[c][i], c, roll)
    ensures var r := AfterMove(s, c, i, roll);
      Shaped(r) &&
      (AllFinished(r[c]) ==> s[c][i].state != Finished && r[c][i].state == Finished) &&
      (forall c' :: 0 <= c' < PlayerCount && c' != c ==> (AllFinished(r[c']) <==> AllFinished(s[c'])))
  {
    AfterMoveKeepsStore(s, c, i, roll);
    var r: Store := AfterMove(s, c, i, roll);
    forall c', j | 0 <= c' < PlayerCount && c' != c && 0 <= j < PawnsPerPlayer
      ensures r[c'][j].state == Finished <==> s[c'][j].state == Finished
    {
      var q := MovedPawn(s[c][i], c, roll);
      var moved := s[c := s[c][i := q]];
      if s[c][i].state == Active && q.state == Active && !IsSafe(q.position) {
        assert r[c'][j] == CapturePawn(moved[c'][j], c', q.position, c);
      }
    }
    forall c' | 0 <= c' < PlayerCount && c' != c
      ensures AllFinished(r[c']) <==> AllFinished(s[c'])
    {
      if AllFinished(r[c']) {
        assert forall j :: 0 <= j < PawnsPerPlayer ==> r[c'][j].state == Finished;
      }
      if AllFinished(s[c']) {
        assert forall j :: 0 <= j < PawnsPerPlayer ==> s[c'][j].state == Finished;
      }
    }
    if AllFinished(r[c]) {
      assert r[c][i].state == Finished;
    }
  }

  /**
   * While no colour has finished all its pawns, a move leaves some colour
   * with all pawns finished exactly when it leaves the mover's colour so.
   */
  lemma {:induction false} WinnerIsMover(s: Store, c: Color, i: int, roll: int)
    requires StoreOk(s) && 0 <= i < PawnsPerPlayer && 1 <= roll <= 6
    requires Legal(s[c][i], c, roll)
    requires forall c': Color :: !AllFinished(s[c'])
    ensures StoreOk(AfterMove(s, c, i, roll))
    ensures (exists c': Color :: AllFinished(AfterMove(s, c, i, roll)[c'])) <==> AllFinished(AfterMove(s, c, i, roll)[c])
  {
    AfterMoveKeepsStore(s, c, i, roll);
    WinOnlyByFinishingMove(s, c, i, roll);
  }
}
