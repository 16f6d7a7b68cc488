# Ludo rules engine, modelled in Dafny

This project models the rules engine of a browser Ludo game for four players
(red, green, yellow, blue, in turn order). The model covers the rules only,
with rendering left out. Each player has four pawns. A pawn is in one of four
states:

- `home`: in its base, position −1.
- `active`: on the shared ring of 52 cells, at an absolute ring index.
- `homing`: on its colour's private home stretch of 6 cells.
- `finished`: at home-stretch index 5.

A turn is a roll of the die followed by a move. After the roll, the engine
records which of the current player's pawns may move (the game highlights them
as `movable`). The player then clicks one of those pawns. The engine:

- moves the pawn;
- resolves any capture;
- checks whether the mover has won;
- gives the same player another roll after a six, or passes the turn.

Three modules:

- `Board` (`board.dfy`): the constants. Ring length 52, home-stretch length 6,
  start cells 0/13/26/39, safe cells `[0, 8, 13, 21, 26, 34, 39, 47]`. A
  colour's entry point is `(start + 51) % 52`, the cell just before its start.
- `Rules` (`rules.dfy`): the rules on values. It defines the pawn record, the
  pawn store (four rows of four records), and legality as `getMovablePawns`
  computes it. It also has the ring walk of `movePawn`, a method that steps
  one cell at a time and stops at the entry point. The functions `MovedPawn`,
  `Capture` and `AfterMove` give the store after a move. Lemmas state what a
  move does and prove that it keeps every record well formed.
- `Engine` (`game.dfy`): the class `Game`. It holds the pawn store
  `pawnStates`, `currentPlayerIndex`, `diceValue`, `diceRolled`, the `won`
  flag and the `movable` set. Its methods follow the script's functions one
  for one. The invariant `Valid()` says:
  - every pawn record is well formed. A home pawn is at −1. An active pawn is
    on the ring and never on its own entry point. A homing pawn is at index
    0..4. A finished pawn is at 5.
  - `won` holds exactly when some colour has all four pawns finished.
  - after a roll, `movable` is exactly the current player's legal set, and it
    is not empty.
  - with no roll pending, `movable` is empty.

  The constructor establishes `Valid()`. The two commands, `RollDice` and
  `MovePawn`, keep it, and `PostMove` and `SwitchTurn` restore it from the
  weaker `Consistent()` (everything but the highlight clauses). So the
  invariant holds in every state the game can reach between commands. The
  helpers `UpdatePawnPosition`, `ApplyMove`, `HandleCapture` and
  `CheckWinCondition` neither require nor ensure `Valid()`; they are only
  proved against the `Rules` functions. In particular, `ApplyMove` passes
  through the record `homing` at index 5 on its way to `finished`, which is
  not a well-formed record.

The model follows the code as written, including where it departs from the
usual rules of Ludo:

- Only a six grants another roll. A capture does not, although the comment
  next to the test mentions capturing.
- An active pawn may move only if `stepsToHome + 6 >= roll`. When the pawn
  stands at or past its start cell, `stepsToHome` is `entryPoint - pos + 1`.
  For red this is `52 - pos`, so every active red pawn may always move. For the
  other colours this value is zero or negative. Such a pawn stops being movable
  once it is more than `6 - roll` cells past its start cell, and a pawn six or
  more cells past its start can never move again (`Rules.StrandedPawn`).
- A pawn that reaches its entry point with `r` steps left goes to home-stretch
  index `r`. It finishes when `r` is 5. A homing pawn finishes when it lands
  exactly on index 5. Legality excludes any roll that would take it past 5.

## Model

| member | source | states |
|---|---|---|
| `Board.Start` | script.js:44-49 | The four start cells are evenly spaced: colour `c` starts at `13 * c`, on the ring. |
| `Board.EntryPoint` | script.js:170 | The entry point is on the ring and is the cell immediately before the colour's start cell. |
| `Board.SafeSpotsAreStartsAndEightBeyond` | script.js:51 | The safe cells are exactly the four start cells and the cells eight steps after them. |
| `Board.IsSafe` | script.js:51 | Definition with no contract of its own: a cell is safe when it is one of the listed safe indices (`safeSpots.includes`). `SafeSpotsAreStartsAndEightBeyond` characterises it. |
| `Rules.InitialStore` | script.js:85-90 | The starting store has four rows of four pawns, all at home with position −1, so every record is well formed. |
| `Rules.StepsToHome` | script.js:170-177 | Definition with no contract of its own: the two-branch distance formula of the legality test. `LegalityRules`, `StrandedPawn` and `RedNeverStranded` describe its effect. |
| `Rules.Legal` | script.js:164-187 | Definition with no contract of its own: the per-pawn legality branches (finished never, home on a six, active by the distance formula, homing within index 5). `LegalityRules` gives its closed form. |
| `Rules.MovablePawns` | script.js:160-190 | Definition with no contract of its own: the indices of the row's legal pawns. `OpeningNeedsSix` describes it for the opening, and `Engine.Game.RollDice` and `Game.Valid()` tie the highlights to it. |
| `Rules.OpeningNeedsSix` | script.js:164-168 | With every pawn at home, the legal set is all four pawns on a six and empty on any other roll. |
| `Rules.LegalityRules` | script.js:164-188 | A finished pawn is never legal. A home pawn is legal iff the roll is 6. A homing pawn is legal iff it stays within index 5. An active red pawn is always legal. An active pawn of another colour is legal iff it is behind its start cell or at most `6 - roll` cells past it. |
| `Rules.StrandedPawn` | script.js:172-181 | A non-red active pawn six or more cells past its start cell is illegal for every roll. |
| `Rules.RedNeverStranded` | script.js:172-186 | An active or homing red pawn can always move on a roll of 1. |
| `Rules.StepsToEntryFirstHit` | script.js:209-215 | `StepsToEntry` is the first step at which the stepping loop stands on the entry point: it is 1..52, it reaches the entry point, and no earlier step does. |
| `Rules.WalkRing` | script.js:212-227 | Stepping one cell at a time, the walk either stops on the entry point after `k <= roll` steps, or lands on `(pos + roll) % 52` without touching the entry point on the way. Either way the result equals the closed form `RingWalk`. |
| `Rules.AfterMoveByWalk` | script.js:212-229 | Given where the walk ends, the store after an active move is either the diverted pawn (homing at `roll - k`, or finished when that is 5) or a landing followed by capture. |
| `Rules.Capture` | script.js:244-253 | On a safe cell nothing changes. Otherwise each pawn keeps its record or, if it is an opposing pawn active on that cell, goes home to −1. Afterwards no opposing pawn is active on the cell. |
| `Rules.CapturePawn` | script.js:248-253 | Definition with no contract of its own: what a landing does to one pawn (an opposing active pawn on the cell goes home to −1). `Capture` and `HandleCapture` are stated in terms of it. |
| `Rules.MovedPawn` | script.js:205-238 | Definition with no contract of its own: the record a move produces, branch by branch. `MovedPawnWellFormed`, `EnterPlay`, `ActiveMoveIntoHome`, `ActiveMoveOnRing`, `HomingMove` and `NonRedStaysNearStart` describe it. |
| `Rules.AfterMove` | script.js:205-253 | Definition with no contract of its own: the store after a move, the moved record followed by a capture when an active pawn lands on the ring. `AfterMoveKeepsStore`, `EnterPlay`, `ActiveMoveIntoHome`, `ActiveMoveOnRing`, `HomingMove` and `WinOnlyByFinishingMove` describe it, and `Engine.Game.MovePawn` is proved equal to it. |
| `Rules.HomingMove` | script.js:231-238 | A homing pawn moved within its home stretch goes to `pos + roll`, finishes exactly when that is 5, resolves no capture, and leaves every other record unchanged. |
| `Rules.NonRedStaysNearStart` | script.js:170-228 | A green, yellow or blue pawn active at or past its start cell that may move lands active between one and six cells past its start, so it does not reach its entry point. Its next move starts from such a cell again, so a pawn of these colours that is at or past its start never reaches its home stretch. |
| `Rules.MovedPawnWellFormed` | script.js:205-238 | A legal move leaves the moved pawn's record well formed. |
| `Rules.AfterMoveKeepsStore` | script.js:205-253 | A legal move keeps every record of the store well formed, including the pawns sent home by a capture. |
| `Rules.EnterPlay` | script.js:206-207 | A home pawn moved on a six becomes active on its colour's start cell. No capture is resolved and nothing else changes. |
| `Rules.ActiveMoveIntoHome` | script.js:213-225 | An active pawn whose first arrival at its entry point is at step `k <= roll` becomes homing at `roll - k`, or finished at 5 when that is 5. Nothing else changes and no capture is checked. |
| `Rules.ActiveMoveOnRing` | script.js:228-253 | Otherwise the pawn lands active at `(pos + roll) % 52`. The mover's other pawns are untouched. Opposing pawns change only if they are active on that non-safe cell, and then they go home. |
| `Rules.WinOnlyByFinishingMove` | script.js:215-238 | A move completes the mover's colour only by finishing the moved pawn. It never changes which pawns of the other colours have finished. |
| `Rules.WinnerIsMover` | script.js:299-305 | While nobody has won, after a legal move some colour has all pawns finished iff the mover's colour does. This is why checking only the mover's colour suffices. |
| `Engine.Game.constructor` | script.js:84-90 | A new game starts with every pawn at home, red to roll, no die pending, not won, and `Valid()`. |
| `Engine.Game.UpdatePawnPosition` | script.js:108-114 | Rewrites exactly one pawn record with the given position and state. |
| `Engine.Game.RollDice` | script.js:136-158 | Refused with no change once won or while a die is pending. Otherwise it stores the die and highlights exactly the current player's legal pawns. With no legal pawn it passes the turn to the next player immediately. |
| `Engine.Game.MovePawn` | script.js:192-242 | Refused with no change unless the game is not won, it is that colour's turn, a die is pending, and the pawn is highlighted. Otherwise the store becomes `AfterMove` of the old one and `won` records whether the mover's colour is now all finished. A six keeps the player and any other die passes the turn by exactly one. |
| `Engine.Game.ApplyMove` | script.js:203-239 | Dispatches on the pawn's state (enter, walk the ring, advance on the home stretch) and calls the win check when a pawn finishes. The result is exactly `AfterMove`. |
| `Engine.Game.HandleCapture` | script.js:244-269 | The nested loop over colours and pawns leaves the store equal to `Capture` of the old one. |
| `Engine.Game.PostMove` | script.js:271-282 | Clears the highlights and the pending die. On a six it keeps the same player, otherwise it switches the turn. The store is unchanged. |
| `Engine.Game.SwitchTurn` | script.js:284-291 | Advances `currentPlayerIndex` by one modulo 4 and clears the die and the highlights. |
| `Engine.Game.CheckWinCondition` | script.js:299-306 | Sets `won` when every pawn of the given colour has finished, and otherwise leaves it unchanged. |
| `Engine.OpeningSix` | script.js:192-207 | In a fresh game, red rolls a six and moves pawn 0. That pawn is active on cell 0, nothing else changed, and red is to roll again. |
| `Engine.OpeningWithoutSix` | script.js:146-151 | In a fresh game, any roll other than six leaves red without a move, and green is to roll. |

## Left out

- Rendering is left out: the board cells, the pixel and grid placement of pawns, the visual home-slot search during a capture, the text messages and the turn indicator. The coordinate tables matter only for their lengths, 52 and 6.
- Pawn identity uses a (colour, index) pair instead of the id string `color-pawn-n`. The lookup `find(p => p.id === pawnId)` therefore always succeeds, and the branch `if (!pawnState) return` in `updatePawnPosition` is not modelled.
- The `movable` CSS class is modelled as the set `movable` of the current player's pawn indices.
- The die value is a parameter of `RollDice` with `1 <= d <= 6` in place of `Math.random`.
- When no pawn can move, the turn switches immediately instead of after the one-second `setTimeout`. During that second the real game has a pending die and nothing highlighted, so every roll and click is refused; the model skips that window.
- Disabling the roll button and removing the click listeners on a win become the `won` flag. The event-listener wiring itself is not modelled.
- `sw.js` (service-worker asset caching) is not part of this model.
- The game has no structured error results, event notifications or state serialisation, so none are modelled. A refused command returns `false` and changes nothing. Every operation is deterministic once the die value is given.
