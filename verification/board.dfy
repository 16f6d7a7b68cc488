/**
 * Static board topology of the four-player race game: a shared ring of 52
 * cells, a private home stretch of 6 cells per colour, one start cell per
 * colour spaced evenly around the ring, and the safe cells on which no
 * capture happens. Only the lengths of the coordinate tables matter here.
 */
module Board {

  /** Number of cells of the shared ring (the length of mainPath). */
  const RingLength: int := 52

  /** Number of cells of each colour's private home stretch. */
  const HomeLength: int := 6

  /** Number of players, and of pawns per player. */
  const PlayerCount: int := 4
  const PawnsPerPlayer: int := 4

  /** A player, by its index in the turn order red, green, yellow, blue. */
  type Color = c: int | 0 <= c < 4

  const Red: Color := 0
  const Green: Color := 1
  const Yellow: Color := 2
  const Blue: Color := 3

  /** The ring cell on which a colour's pawns enter play. */
  function Start(c: Color): (s: int)
    ensures s == c * (RingLength / PlayerCount)
    ensures 0 <= s < RingLength
  {
    if c == Red then 0
    else if c == Green then 13
    else if c == Yellow then 26
    else 39
  }

  /** The ring cell at which a colour's pawns leave the ring for their home stretch. */
  function EntryPoint(c: Color): (e: int)
    ensures 0 <= e < RingLength
    ensures (e + 1) % RingLength == Start(c)
    ensures e != Start(c)
  {
    (Start(c) + 51) % 52
  }

  /** The ring indices on which a landing pawn captures nothing. */
  const SafeSpots: seq<int> := [0, 8, 13, 21, 26, 34, 39, 47]

  predicate IsSafe(cell: int)
  {
    cell in SafeSpots
  }

  /**
   * The safe cells are exactly each colour's start cell and the cell
   * eight steps after it.
   */
  lemma SafeSpotsAreStartsAndEightBeyond(cell: int)
    ensures IsSafe(cell) <==> exists c: Color :: cell == Start(c) || cell == Start(c) + 8
  {
    if IsSafe(cell) {
      var c: Color := if cell < 13 then Red else if cell < 26 then Green else if cell < 39 then Yellow else Blue;
      assert cell == Start(c) || cell == Start(c) + 8;
    }
  }
}
