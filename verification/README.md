# Falling-block battle server: the game engine

This project models the server-side engine of a multiplayer falling-block game
(`server/gameLogic.js`). Each player has a falling piece (`itemBlockBody`), the piece
held next (`itemPreBody`), and settled blocks (`itemGroundBlock`) on a board of `W`
columns and `H` rows. Row 1 is the top row and row `H` the bottom one. Every operation is
copy-on-write over the player record:

- collision test;
- left and right moves and rotation about block 0;
- gravity with lock-and-promote, and hard drop;
- line clearing with compaction;
- garbage rows pushed up from the bottom;
- the integer formulas for attack, combo, experience, lucky events and level-up;
- the per-player tick that ties them together.

Modules follow the structure of the source:

- `Geometry`: cells, the configuration, collision, translation, rotation, row counts.
- `Progression`: the scoring and experience formulas.
- `Players`: the player record.
- `Board`: initial ground and the game-over test.
- `Movement`: moves, gravity and hard drop.
- `LineClear`: detection, removal and compaction of full rows.
- `RowSets`: row occupancy as sets of cells.
- `Garbage`: garbage rows.
- `Tick`: the per-player tick.
- `Play`: a player's game as a run of ticks and garbage arrivals.

The configuration module is not part of this model. Its constants are fields of a
`Config` value: `W`, `H`, `ACTION_INIT_TIME`, `COMBO_TIMEOUT`, `GARBAGE_HOLE_COUNT`,
`EXP_LEVEL_THRESHOLDS` and the three lucky thresholds. `Config.Valid()` requires
`W ≥ 1`, `H ≥ 1` and `1 ≤ GARBAGE_HOLE_COUNT ≤ W`.

Randomness, the clock and the piece generator are parameters:

- the piece handed out on a lock (`Piece`);
- the hole columns of each garbage row;
- the three draws behind each initial row (`HoleDraw`);
- the experience factor (a real in [0.5, 1.5), floored exactly);
- the lucky draw (a real);
- the two clock readings of a clearing tick (`TickInputs`).

Two ground invariants are used. `GroundOk` keeps every settled block on the board with no
cell twice. Garbage can push blocks above the top (see below), and the opening rows use
column 0, so `StackOk` is the weaker invariant: no block below row H and no cell twice,
whatever the columns. `InColumns` adds columns 1..W. The opening ground satisfies
`StackOk`. Clearing and garbage preserve it for any ground. Gravity and the tick preserve
it one step at a time, for a falling piece that is `Apart` from the ground: its cells are
distinct, not below row H and not settled already.

Nothing in the server keeps the falling piece apart from the ground across steps. Garbage
raises the settled blocks but not the piece, and a lock promotes the held piece without
testing it. So along a run of ticks and garbage a cell can be settled twice (see Findings).
`Play` gives the corrected run, in which garbage lifts the piece too and a tick ends the
game when its piece no longer fits. That run keeps `StackOk` for every sequence of events.

JavaScript's falsy `lastClearTime` becomes `Option<int>`: it is truthy iff it is present
and non-zero. The fields that a clearing tick adds to the player are grouped as
`report: Option<ClearReport>`. These are `clearedLineNumbers`, `attackPower`,
`linesCleared`, `gainedExp`, `luckyEvent` and `leveledUp`. Float multipliers are kept in
halves (1.0 = 2, 1.5 = 3, 2.0 = 4, 3.0 = 6), so `Math.floor(x * m)` is `x * halves / 2`
with Dafny's rounding-down division.

Where the code behaves differently from what its comments and names suggest, the model
follows the code:

- `isGameOver` looks only at row 1. A block pushed to row 0 or above is not detected
  (`Board.GameOverMissesBlocksAboveTop`, `Garbage.GarbageHidesBlockAboveTop`).
- The initial ground uses columns `0..W-1`, but every other operation uses `1..W`
  (`Board.InitialGroundUsesColumnZero`). This is logged under Findings, with a corrected
  definition.
- The tick never calls the game-over test, so its state never changes
  (`Tick.TickMissesGameOver`).
- Garbage raises the settled blocks but not the falling piece
  (`Play.GarbageThenTickRepeatsCell`), and a lock promotes the held piece untested
  (`Play.LockPromotesOverlappingPiece`). Either can settle a cell twice. Both are logged
  under Findings, with the corrected run of `Play`.
- A tick that clears nothing keeps the previous clear's report.
- Without a truthy `lastClearTime` the combo never resets.
- On a no-clear result `clearLines` leaves `clearedLineNumbers` undefined. The model
  gives `[]`.

## Model

| member | source | states |
|---|---|---|
| Geometry.OnGround | server/gameLogic.js:66-70 | the inner scan finds a match exactly when the block's cell is among the settled blocks |
| Geometry.Collides | server/gameLogic.js:58-73 | a piece collides iff one of its blocks is outside columns 1..W and rows 1..H or sits on a settled block; so an empty piece never collides |
| Geometry.TranslateShifts | server/gameLogic.js:81-84 | every block of the piece moves by the same offset and keeps its place in the piece |
| Geometry.FitsIsApart | server/gameLogic.js:58-73 | a piece that passes the collision test and has distinct cells is in columns 1..W, not below row H and off every settled block |
| Geometry.TranslateKeepsDistinct | server/gameLogic.js:81-84 | shifting a piece by a fixed offset keeps its blocks in distinct cells |
| Geometry.Rotate | server/gameLogic.js:159-170 | block 0 is the pivot and stays put; every other block keeps its distance from the pivot |
| Geometry.RotateKeepsPivot | server/gameLogic.js:159-170 | the quarter turn leaves block 0 where it is and keeps the piece's size |
| Geometry.RotateFourTimes | server/gameLogic.js:159-170 | four quarter turns about block 0 bring every block back to its cell |
| Geometry.RotateKeepsDistinct | server/gameLogic.js:159-170 | the quarter turn is injective, so a piece with distinct cells keeps them distinct |
| Geometry.RowWithHoles | server/gameLogic.js:296-303 | a row over columns lo..hi has at most hi-lo+1 blocks, and none when lo > hi |
| Geometry.RowWithHolesShape | server/gameLogic.js:296-303 | a cell is in the row iff it is in row y, in columns lo..hi and not a hole; the blocks come left to right |
| Movement.InsertBlockToGround | server/gameLogic.js:270-272 | the settled blocks come first and unchanged, then the piece; a cell is in the result iff it was in either |
| Movement.InsertKeepsGroundOk | server/gameLogic.js:270-272 | appending a non-colliding piece with distinct cells keeps the ground on the board with no repeated cell |
| Movement.InsertKeepsStackOk | server/gameLogic.js:270-272 | appending a piece apart from the ground keeps the ground not below row H with no repeated cell, whatever its columns and even above the top; a ground and piece in columns 1..W give a ground in them |
| Movement.Lock | server/gameLogic.js:89-100 | the piece joins the ground, the held piece falls next, the generator's piece is held, the countdown restarts, and no other field changes |
| Movement.MoveDown | server/gameLogic.js:80-107 | if the piece fits one row lower only the piece moves and the countdown restarts; otherwise the piece locks |
| Movement.MoveDownKeepsInvariant | server/gameLogic.js:80-107 | for a legal piece, gravity keeps the ground on the board with no repeated cell; when it does not lock, the piece stays legal |
| Movement.MoveDownKeepsStackOk | server/gameLogic.js:80-107 | gravity with a piece apart from the ground keeps the ground not below row H with no repeated cell, whatever its columns and even above the top; with a legal piece a ground in columns 1..W stays in them |
| Movement.MoveLeft | server/gameLogic.js:114-127 | only the piece can change; when the shifted piece fits, the player is the same with the piece one column left; when it does not fit, the player comes back unchanged; a legal piece stays legal |
| Movement.MoveRight | server/gameLogic.js:134-147 | the mirror image of the left move, one column right |
| Movement.LeftThenRightRestores | server/gameLogic.js:114-147 | a left move that succeeds is undone exactly by a right move |
| Movement.RotateBlock | server/gameLogic.js:154-180 | an empty piece or a colliding turn returns the player unchanged; a non-empty piece whose turn fits is replaced by the turned piece and nothing else changes; block 0 and legality are kept |
| Movement.DropDistance | server/gameLogic.js:237-260 | the piece fits at every depth up to the number of rows returned, and the next row would collide |
| Movement.HardDrop | server/gameLogic.js:233-262 | the piece drops as far as it fits and then locks as under gravity; the ground gains exactly the landed piece and stays valid |
| Movement.LockKeepsGroundOk | server/gameLogic.js:241-251 | locking a piece that fits at its landing depth keeps the ground on the board with no repeated cell |
| LineClear.FullRowsFromSpec | server/gameLogic.js:199-203 | scanning rows from a start row reports exactly the rows in range with W blocks, in ascending order |
| LineClear.FullRows | server/gameLogic.js:188-203 | a row is reported iff it lies in 0..H and holds exactly W settled blocks; reports ascend strictly |
| LineClear.CountRows | server/gameLogic.js:188-196 | the counting pass gives, for every row 0..H, the number of settled blocks in that row |
| LineClear.DetectFullRows | server/gameLogic.js:188-203 | the counting and scanning loops report exactly the full rows |
| LineClear.Survivors | server/gameLogic.js:212 | the filter keeps exactly the blocks whose row was not cleared and never grows the ground |
| LineClear.SurvivorsKeepDistinct | server/gameLogic.js:212 | removing rows keeps the remaining cells distinct |
| LineClear.SurvivorsSize | server/gameLogic.js:212 | removal drops exactly the blocks that lie in the cleared rows |
| LineClear.RowsCountOfFullRows | server/gameLogic.js:199-212 | the cleared rows together hold W blocks each |
| LineClear.Compact | server/gameLogic.js:215-219 | the compaction passes keep every block in its column and move it down by at most one row per cleared row |
| LineClear.CompactPerBlock | server/gameLogic.js:215-219 | the passes over the cleared rows move each block independently to its landing row |
| LineClear.LandingRowFormula | server/gameLogic.js:215-219 | for ascending cleared rows, a block outside them falls by the number of cleared rows below it |
| LineClear.LandingRowStrictlyIncreasing | server/gameLogic.js:215-219 | compaction keeps the vertical order of surviving rows strictly |
| LineClear.LandingRowOnBoard | server/gameLogic.js:215-219 | a surviving block on the board lands on the board |
| LineClear.LandingRowNotBelowBottom | server/gameLogic.js:215-219 | a surviving block at or above row H, including one above the top, lands no higher than it was and not below row H |
| LineClear.ClearLines | server/gameLogic.js:187-226 | with no full row the ground comes back as it was with 0 lines; otherwise the lines are the full rows and the ground shrinks by W per line |
| LineClear.ClearMovesSurvivors | server/gameLogic.js:212-225 | block i of the cleared ground is survivor i, in its column, moved down by the number of cleared rows below it; no block of a cleared row survives |
| LineClear.ClearKeepsGroundOk | server/gameLogic.js:187-226 | clearing keeps every block on the board and no cell twice |
| LineClear.ClearKeepsStackOk | server/gameLogic.js:187-226 | clearing keeps any ground not below row H with no cell twice, whatever its columns and even above the top; a ground in columns 1..W stays in them |
| RowSets.RowCountIsRowSetSize | server/gameLogic.js:192-196 | on a ground without repeated cells the count of a row equals the number of its distinct cells |
| LineClear.NoFullRows | server/gameLogic.js:199-203 | when no row of 0..H holds W blocks, no row is reported full |
| RowSets.FullRowIffEveryColumn | server/gameLogic.js:199-203 | on a ground with no cell twice and every block in columns 1..W, even one reaching above the top, a row holds W blocks iff every column 1..W of it is occupied |
| RowSets.RowWithGapStays | server/gameLogic.js:199-203 | on a ground with no cell twice and every block in columns 1..W, a row with an empty cell in 1..W is never cleared |
| Garbage.GarbagePlacement | server/gameLogic.js:296-303 | every garbage block lies in one of the rows startY down to startY-lineCount+1, in columns 1..W |
| Garbage.GarbageMembers | server/gameLogic.js:283-303 | a cell is garbage iff it is in one of the generated rows and its column is not a hole of that row |
| Garbage.GarbageRowCounts | server/gameLogic.js:283-303 | with GARBAGE_HOLE_COUNT distinct holes per row, each garbage row holds W minus that many blocks, and the whole has that many per line |
| Garbage.GarbageDistinct | server/gameLogic.js:283-303 | generated garbage has no cell twice |
| Garbage.GenerateGarbageLines | server/gameLogic.js:280-306 | a line count of zero or less gives no garbage |
| Garbage.GarbageSizeBound | server/gameLogic.js:280-306 | n lines of a W-wide board give at most n × W blocks |
| Garbage.AddGarbageLines | server/gameLogic.js:314-329 | a count of zero or less changes nothing; otherwise every settled block moves up by the count and the garbage rows follow, filling the bottom rows |
| Garbage.AddGarbageKeepsDistinct | server/gameLogic.js:314-329 | a ground with no cell twice and nothing below row H keeps both after garbage arrives, whatever its columns; a ground in columns 1..W stays in them |
| Garbage.GarbageHidesBlockAboveTop | server/gameLogic.js:314-329 | on a 2-wide, 3-high board two garbage rows lift a block from row 2 to row 0, off the board, yet the game-over test still says GAME |
| Progression.ComboBonusIsHalfCombo | server/gameLogic.js:345-349 | the combo part of the attack is half the combo, rounded down, capped at 4, and 0 below 2 |
| Progression.AttackPower | server/gameLogic.js:338-357 | the attack is non-negative for a non-negative level and at least lines - 1 + floor(level / 3) |
| Progression.AttackPowerMonotone | server/gameLogic.js:338-357 | the attack never drops when lines, level or combo grow |
| Progression.AttackPowerExample | server/gameLogic.js:338-357 | four lines at level 5 on combo 6 send 7 lines |
| Progression.UpdateCombo | server/gameLogic.js:365-377 | the combo drops to 1 iff a truthy last clear time is more than the timeout ago; otherwise it grows by one |
| Progression.ComboTimeoutBoundary | server/gameLogic.js:370 | exactly the timeout after the last clear the chain continues; one more tick breaks it |
| Progression.ComboNeverResetsWithoutClearTime | server/gameLogic.js:370 | with no truthy last clear time the chain never resets |
| Progression.ComboRun | server/gameLogic.js:500-535 | a run of clearing ticks, each updating the combo and then recording its own instant; afterwards the last clear time is the last instant of the run |
| Progression.SteadyRunExtendsCombo | server/gameLogic.js:365-377 | when no gap of a run exceeds the timeout, the combo grows by exactly one per clear |
| Progression.BrokenRunRestartsCombo | server/gameLogic.js:365-377 | after a gap longer than the timeout before clear k, and none after it, the combo equals the number of clears from k on |
| Progression.ScoreGain | server/gameLogic.js:518-520 | a clearing tick scores at least 100 a line, plus 50 for each combo step beyond the first |
| Progression.LuckyEventOf | server/gameLogic.js:383-403 | the draw falls into exactly one band: below the diamond threshold, then star, then gift, else nothing |
| Progression.LuckyEventOrdered | server/gameLogic.js:383-403 | with ascending thresholds a smaller draw never yields a more common event |
| Progression.BaseExp | server/gameLogic.js:413-419 | the base table and its fallback both give 100 experience a line |
| Progression.ComboHalves | server/gameLogic.js:426-428 | the combo multiplier lies between 1.0 and 2.0 |
| Progression.Scale | server/gameLogic.js:430 | the result is the exact product amount × halves / 2 rounded down: within one below it and never above; a non-negative amount scaled by a multiplier of at least 1.0 does not shrink |
| Progression.RandomExp | server/gameLogic.js:422-423 | the random step is the floor of base × factor |
| Progression.CalculateExp | server/gameLogic.js:411-443 | the reported event is the band of the draw, and the multipliers never lower a non-negative random step |
| Progression.RandomExpRange | server/gameLogic.js:422-423 | with the factor in [0.5, 1.5) the random step is between 50 and 150 per line |
| Progression.ExpBounds | server/gameLogic.js:411-443 | a clear of n lines earns between 50n and 900n experience |
| Progression.LevelFrom | server/gameLogic.js:455-459 | the loop only climbs, passes only thresholds the experience meets, and stops at the table's end or below the next threshold |
| Progression.CheckLevelUp | server/gameLogic.js:451-468 | the level never drops; leveledUp iff it rose; on exit the table is exhausted or the next threshold is above the experience; the next-level figure is that threshold or 999999 |
| Progression.CountAtMostPrefix | server/gameLogic.js:455-459 | in an ascending table, a met prefix of length k followed by an unmet threshold means exactly k thresholds are met |
| Progression.LevelUpCountsThresholds | server/gameLogic.js:451-468 | for an ascending table and a consistent starting level, the new level is the number of thresholds the experience meets |
| Board.IsGameOver | server/gameLogic.js:39-50 | the result is GAME or LOSE, and LOSE iff some settled block is in row 1 |
| Board.GameOverMissesBlocksAboveTop | server/gameLogic.js:43 | blocks in rows 0 and -1 alone do not lose the game |
| Board.InitialHoles | server/gameLogic.js:17-21 | each initial row has two hole draws, both in 0..W-1 |
| Board.InitialGroundMembers | server/gameLogic.js:14-32 | the initial ground is rows H and H-1, each filled in columns 0..W-1 except its holes |
| Board.RowShortByHole | server/gameLogic.js:22-25 | a row with a hole inside its column range misses at least one column |
| Board.InitialRowsNotFull | server/gameLogic.js:14-32 | no row of the initial ground holds W blocks |
| Board.InitialGroundUsesColumnZero | server/gameLogic.js:22-25 | unless a hole falls on column 0, the initial ground has a block outside the board's columns |
| Board.InitialGroundClearsWithGap | server/gameLogic.js:22-27 | with columns 0..W-1, a 3-wide bottom row whose column 1 is empty still reaches W blocks once a piece lands in column 3, so it would be cleared with a visible gap |
| Board.InitialGroundOnBoardMembers | server/gameLogic.js:14-32 | the corrected initial ground: rows H and H-1, each filled in columns 1..W except the columns its draws pick |
| Board.InitialGroundStackOk | server/gameLogic.js:14-32 | the initial ground as written, column 0 included, has no cell twice and nothing below row H |
| Board.InitialGroundOnBoardOk | server/gameLogic.js:22-27 | on a board of at least two rows the corrected initial ground stays on the board with no cell twice |
| Board.InitialGroundOnBoardNotFull | server/gameLogic.js:14-32 | no row of the corrected initial ground holds W blocks |
| Tick.ApplyClear | server/gameLogic.js:500-542 | a clear changes only the ground, combo, score, experience, level, next-level figure, last clear time and report; level and next-level figure are those of the level-up check on the new experience, and the level never drops |
| Tick.ProcessPlayerTick | server/gameLogic.js:475-543 | lost and eliminated players are unchanged; a running countdown only ticks down; otherwise gravity, then a clear; no clear returns the moved player with its old report; a clear keeps every other field of the moved player (name, side, held piece, kinds) and sets combo, score, experience, level and next-level figure from the level-up check, and a report whose attack uses the new level and combo; the state never changes |
| Tick.TickClearGains | server/gameLogic.js:500-520 | with the factor in range a clearing tick adds at least 100 points and 50 experience per line |
| Tick.TickKeepsGroundOk | server/gameLogic.js:475-543 | a tick on a valid ground with a legal piece leaves a valid ground |
| Tick.TickKeepsStackOk | server/gameLogic.js:475-543 | one tick with a piece apart from the ground keeps the ground not below row H with no cell twice, whatever its columns and even above the top; with a legal piece a ground in columns 1..W stays in them |
| Tick.TickMissesGameOver | server/gameLogic.js:475-498 | a lock into row 1 leaves the player in GAME although the game-over test would say LOSE |
| Play.ReceiveGarbage | server/gameLogic.js:314-329 | garbage as `addGarbageLines` computes it changes only the settled blocks: the falling piece, the held piece and every other field stay |
| Play.StepAsWritten | server/gameLogic.js:475-543 | neither a tick as `processPlayerTick` computes it nor garbage as `addGarbageLines` computes it changes the player's state |
| Play.RunAsWritten | server/gameLogic.js:475-543 | a run of ticks and garbage as `processPlayerTick` and `addGarbageLines` compute them, with no game-over test between them, never changes the player's state |
| Play.GarbageClosesOnPiece | server/gameLogic.js:314-329 | on a 3-by-3 board one garbage row with its hole in column 2 lifts a block at (1, 3) to (1, 2) |
| Play.TickLocksOverlap | server/gameLogic.js:87-99 | a piece at (1, 2) over a ground holding (1, 2) locks, and the ground then holds (1, 2) twice |
| Play.OneBlockStartLegal | server/gameLogic.js:58-73 | a one-cell piece in the board over a one-block ground in the board at another cell is a legal start: nothing collides, no cell is settled twice, every column is on the board |
| Play.GarbageRunAsWritten | server/gameLogic.js:314-329 | in the garbage counterexample, the garbage row leaves the ground [(1,2), (1,3), (3,3)] and the tick after it [(1,2), (1,3), (3,3), (1,2)] |
| Play.GarbageThenTickRepeatsCell | server/gameLogic.js:314-329 | from a legal piece and a ground with no cell twice, one garbage row and one tick as written settle a cell twice |
| Play.RowOneEmptyIsGame | server/gameLogic.js:39-50 | a ground with no block in row 1 passes the game-over test |
| Play.GarbageRunStaysInGame | server/gameLogic.js:39-50 | along the garbage counterexample every ground passes the game-over test, so a caller testing after each step would not stop it |
| Play.TickLocksOnBottom | server/gameLogic.js:87-99 | on a 4-by-3 board a piece at (3, 3) locks beside (1, 3) and the held piece becomes the falling one, unchecked |
| Play.TickLocksOntoBlock | server/gameLogic.js:87-99 | a piece at (1, 3) resting on a ground that already holds (1, 3) locks there, and the ground holds (1, 3) twice |
| Play.LockRunAsWritten | server/gameLogic.js:87-99 | two ticks as written, from a piece at (3, 3) and a held piece at (1, 3) over a block at (1, 3), leave the ground [(1,3), (3,3), (1,3)] |
| Play.LockPromotesOverlappingPiece | server/gameLogic.js:87-99 | from a legal piece and a ground with no cell twice, two ticks as written settle a cell twice because the promoted piece overlaps the ground, and every ground along the way passes the game-over test |
| Play.LiftWithGarbage | server/gameLogic.js:314-329 | corrected garbage: the ground rises as in the server and the falling piece rises by the same count, every cell keeping its column; nothing else changes |
| Play.CheckedTick | server/gameLogic.js:475-543 | corrected tick: the server's tick, except that a player left with a piece that collides loses; from GAME the player stays in GAME exactly when the resulting piece fits the resulting ground; the state changes only from GAME to LOSE |
| Play.Step | server/gameLogic.js:475-543 | a corrected event is a checked tick or garbage that lifts the piece |
| Play.Run | server/gameLogic.js:475-543 | in a corrected run a player out of play stays so, and the only state change is to LOSE |
| Play.SpawnTestKeepsInv | server/gameLogic.js:58-73 | after the spawn test the falling piece is apart from the ground or the player has lost |
| Play.CheckedTickKeepsInv | server/gameLogic.js:475-543 | a checked tick keeps the settled blocks with no cell twice and not below row H, the held piece with distinct cells, and a playing piece apart from the ground |
| Play.LiftKeepsApart | server/gameLogic.js:314-329 | a piece lifted with the ground stays apart from the raised blocks and the new garbage rows |
| Play.LiftKeepsInv | server/gameLogic.js:314-329 | garbage that lifts the piece keeps the run invariant |
| Play.RunKeepsInv | server/gameLogic.js:475-543 | every corrected run of ticks and garbage keeps the run invariant, so the settled blocks never hold a cell twice |
| Play.RunFromStartNeverRepeats | server/gameLogic.js:14-32 | from the initial ground, no corrected run ever settles a cell twice |
| Play.SpawnTestStopsLockExample | server/gameLogic.js:87-99 | with the spawn test, the first tick of the lock counterexample ends the game and the ground keeps no cell twice |
## Findings

| source | as written | input that shows it | evidently intended | confidence | as-written member | corrected member |
|---|---|---|---|---|---|---|
| server/gameLogic.js:22-27 | the initial rows are emitted in columns `0..W-1`, while collision, garbage and the settled-block invariant use `1..W` | `W = 3`, `H = 3`; bottom-row draws give holes `[1, 1]`, so row 3 holds columns 0 and 2. A piece locked at `(3, 3)` brings row 3 to 3 blocks, and the row clears although cell `(1, 3)` is empty | columns `1..W`, with draw `h` leaving column `h + 1` empty | medium, not executed | Board.InitialGroundClearsWithGap | Board.InitialGroundOnBoardOk |
| server/gameLogic.js:314-329 | `addGarbageLines` raises only the settled blocks; the falling piece stays put, so a raised block can land in its cell | `W = H = 3`; piece at `(1, 2)`, ground `[(1, 3)]`. One garbage row with its hole in column 2 gives `[(1, 2), (1, 3), (3, 3)]`. The next tick locks `(1, 2)` a second time | the falling piece rises with the stack (or the overlap ends the game) | low: the caller may move the piece itself; its game-over test would not stop this run, whose row 1 stays empty; not executed | Play.GarbageThenTickRepeatsCell | Play.RunKeepsInv |
| server/gameLogic.js:87-99 | the lock promotes the held piece without testing it against the ground | `W = 4`, `H = 3`; piece at `(3, 3)`, held piece at `(1, 3)`, ground `[(1, 3)]`. The first tick promotes the held piece onto `(1, 3)`; the second tick locks it there a second time | a promoted piece that does not fit ends the game | low: the caller may test it; its game-over test would not stop this run, whose row 1 stays empty; not executed | Play.LockPromotesOverlappingPiece | Play.RunKeepsInv |

## Left out

- `public/js/ui.js`: rendering and a sort comparator; no engine logic.
- `console.log` calls: side effects only.
- Distributions of `Math.random` and `Date.now() * Math.random()`, and the hole-redrawing loop of `generateGarbageLines`. The drawn values are inputs instead: `HolesOk` states what the loop guarantees, which is `GARBAGE_HOLE_COUNT` distinct holes in 1..W.
- `gameState.getRandomDomino` and the `config` module are not part of this model; the next piece and the constants are parameters.
- Floating point: the factor, the multipliers and the lucky thresholds are exact reals or integer halves, so float rounding of `baseExp * randomFactor` is not modelled.
- The unused `level` parameter of `getInitialGroundBlocks`.
- Cross-player garbage fan-out and elimination: done by a room manager that is not part of this model. A run in `Play` is any sequence of ticks and garbage arrivals.
- The caller's `isGameOver` test after each tick and each garbage arrival: it belongs to the room manager, so `Play.RunAsWritten` does not apply it. The counterexamples keep row 1 empty throughout (`Play.GarbageRunStaysInGame`, `Play.LockPromotesOverlappingPiece`), so that test would not end them.
- Tick.TickKeepsStackOk: holds for one tick at a time, for a falling piece apart from the ground. Garbage and the lock's promotion can break that condition, so the server's run keeps no such invariant; only the corrected run of `Play` does.
- Movement.HardDrop: requires a non-empty piece, because the source loops forever on an empty one.
- Movement.DropDistance: requires a non-empty piece, for the same reason.
- Garbage.AddGarbageLines: takes the hole columns as a list with one entry per generated row, and requires at least `count` entries.
- LineClear.FullRows: rows outside 0..H are never reported. In the source such rows create non-numeric array entries, which never equal W.
- Tick.ProcessPlayerTick: `exp || 0`, `score || 0` and `combo || 0` are plain integers, because the record always carries numbers.
- Progression.ComboRun: one instant per clear is both the time the combo is checked at and the time recorded; the tick reads the clock twice (`comboNow`, `clearNow` of `TickInputs`), a few milliseconds apart.
