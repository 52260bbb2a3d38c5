# js-tetris: the board and the falling piece, in Dafny

This project models the game engine of `tetris.js`. The board is `space`, one integer per line
with bit `c` set when column `COL - 1 - c` is filled (COL = 10). The falling piece `t` is a
`Tetromino`. It keeps its shape (`tetromino`, the rows of its own square box) and its mask
(`mino`, the shape shifted to column `x` and row `y`, spread over the board's full height).

The model covers these steps:

- placing a shape (`_put`);
- the legality tests for a move left, right or down (`_canLeft`, `_canRight`, `_canDown`,
  `collided`);
- the moves themselves, and the quarter turn with its top-row normalisation (`rotate`);
- `stick`: the piece is merged into the board, full lines are emptied, the rest compacts to
  the bottom, and the next piece appears;
- the game-over rule: a piece that sticks while still on the top row ends the game;
- the session: `reset`, `tick` and the keydown handler.

The files:

- `wrappers.dfy`: `Option` and `Result`.
- `bits.dfy` (module `Bits`): 32-bit rows, the constants `full_line` and the two wall bits, and
  JavaScript's `> 0` on a 32-bit value.
- `shapes.dfy` (module `Shapes`): the piece catalogue, the quarter turn and its normalisation,
  and what they do to the cells of a shape.
- `compaction.dfy` (module `Compaction`): what `stick` does to the rows, as functions.
- `tetris.dfy` (module `Tetris`): `_put` and the move tests as functions; the board (`Field`),
  the piece (`Tetromino`) and the session (`Game`) as classes whose methods change them in
  place; the loops of `collided`, `stick` and `rotate` as methods with loop invariants.
- `scenarios.dfy` (module `Scenarios`): concrete play on a board of four lines.

The board's height (`line_count`, derived from the canvas) is the parameter `height` (at least
4, so every piece fits where it appears). The random catalogue index of `newTetromino` is the
parameter `kind`.

Behaviours of `tetris.js` worth knowing:

- `moveLeft` decrements `x` and `moveRight` increments it (tetris.js:101, 111). The mask is
  shifted left by `COL - x`, so a smaller `x` is further left.
- An O piece on an empty board of four lines is on the floor (y = 2) after two `down()` calls,
  and the third call sticks it (`Scenarios.DropOToFloor`).
- Two turns of the I piece from its spawn shape leave it lying on the top row of its box, one
  line higher than it spawned. From then on the I piece alternates between two shapes
  (`Shapes.RotationOfI`).
- Four turns of the J piece give a shape that differs from the catalogue's J: each
  normalisation lifts the box's empty top rows but never shifts its columns
  (`Shapes.RotationOfJ`).

## Model

| member | source | states |
|---|---|---|
| Bits.FitPositive | tetris.js:41 | a row that stays inside the COL columns is `> 0` exactly when it is not zero |
| Bits.Positive | tetris.js:41 | JavaScript's `e > 0` on a 32-bit bitwise result, which reads bit 31 as the sign: nonzero with bit 31 clear |
| Bits.FullLine | tetris.js:34 | `full_line`, `(1 << COL) - 1`: the line with all ten columns occupied, `0x3FF` |
| Bits.MaskAt | tetris.js:25 | line i of the mask, or 0 past its end, as JavaScript reads `undefined` under `&` and `\|` |
| Bits.HitsAt | tetris.js:25 | line i of the board and of the mask share a bit, with a missing mask line read as 0 and the intersection tested with `> 0` |
| Bits.Overlaps | tetris.js:23-30 | some line of the board hits the mask: the answer `collided` gives |
| Bits.TouchesLeft | tetris.js:63 | some line of the mask occupies bit `COL - 1`, the leftmost column |
| Bits.TouchesRight | tetris.js:74 | some line of the mask occupies bit 0, the rightmost column |
| Bits.ShiftLeft | tetris.js:66 | every line of the mask shifted left by one, `e << 1`; the mask keeps its height |
| Bits.ShiftRight | tetris.js:77 | every line of the mask shifted right by one, `e >> 1`; the mask keeps its height |
| Bits.ShiftDown | tetris.js:88 | an empty line in at the top and the bottom line dropped; the mask keeps its height |
| Shapes.Tetrominos | tetris.js:12-20 | the seven shapes O, T, S, Z, L, J and I, in the source's order and with the source's bit patterns |
| Shapes.CatalogueShapes | tetris.js:12-20 | every catalogue entry is a shape: a square box of at most 4 rows, with every row inside the box and at least one occupied cell |
| Shapes.TurnRow | tetris.js:130-136 | row j of the turned box after the outer loop has read rows 0..i-1 of the shape: `(b << i) \| t[j]` accumulated over those rows |
| Shapes.CellBit | tetris.js:133 | `(e >> (size - j - 1)) & 1` for the four columns a box can have |
| Shapes.CellBitValue | tetris.js:133 | `(e >> k) & 1` is 1 exactly when cell k of the row is occupied, and 0 otherwise |
| Shapes.Shl | tetris.js:134 | `b << i` for the four columns a box can have |
| Shapes.ShlValue | tetris.js:134 | a cell value 0 or 1 shifted by i is 0, or the single bit of column i |
| Shapes.Turn | tetris.js:129-136 | the box `t` the nested loops leave: every row j taken after all `size` rows are read; as many rows as the shape |
| Shapes.Lift | tetris.js:138 | one pass of the while loop: the top row leaves and an empty row enters at the bottom; the height is kept |
| Shapes.Normalize | tetris.js:137-139 | the while loop run until the top row is occupied; it ends because some row is occupied, and keeps the height |
| Shapes.Rotation | tetris.js:128-140 | the shape `rotate` stores: the turned box, normalised; as many rows as the shape |
| Shapes.TurnCell | tetris.js:130-136 | after the nested loops, bit i of row j of the box is bit `size - 1 - j` of row i of the shape, and every row stays inside the box |
| Shapes.TurnCells | tetris.js:128-136 | the quarter turn keeps the number of occupied cells: it is a bijection of the box onto itself |
| Shapes.NormalizeMovesLeadingZeros | tetris.js:137-139 | the while loop rotates the box's rows: the empty top rows go to the bottom in one block, the others keep their order, and the new top row is occupied |
| Shapes.NormalizeKeepsCells | tetris.js:137-139 | moving empty top rows to the bottom keeps the number of occupied cells |
| Shapes.NormalizeKeepsBound | tetris.js:137-139 | moving empty top rows to the bottom keeps every row inside the box |
| Shapes.RotationIsShape | tetris.js:127-140 | a rotated shape is again a shape of the same size, with the same number of cells and an occupied top row |
| Shapes.RotationKeepsO | tetris.js:13 | turning the O piece gives back the O piece, so any number of turns does |
| Shapes.RotationOfI | tetris.js:19 | the I piece turns from lying to standing (`[2,2,2,2]`), then lies on the top row (`[0xF,0,0,0]`), stands at the right (`[1,1,1,1]`), and from there alternates between those two shapes |
| Shapes.RotationOfJ | tetris.js:18 | the four turns of the J piece, and that the fourth does not give back the catalogue's J |
| Compaction.SurvivorsIdempotent | tetris.js:41 | filtering the positive rows a second time changes nothing |
| Compaction.ClearRow | tetris.js:37-39 | a full line is emptied and any other line is kept, so the result is never full |
| Compaction.Merged | tetris.js:36 | every line of the board OR-ed with the mask's line (0 where the mask has none); the board keeps its height |
| Compaction.Cleared | tetris.js:35-40 | every line emptied if it is full and kept otherwise; no line of the result is full |
| Compaction.Survivors | tetris.js:41 | `space.filter(e => e > 0)`: at most as many lines, every one positive |
| Compaction.Compact | tetris.js:42 | the survivors at the bottom and empty lines above them, with the board's height |
| Compaction.Settle | tetris.js:33-42 | the board `stick` leaves: merged, cleared and compacted, with the board's height |
| Compaction.SurvivorsNonzero | tetris.js:41 | on lines inside the walls, the filter `e > 0` keeps exactly the occupied lines, in order |
| Compaction.SettleNonzero | tetris.js:33-42 | for a board and a mask inside the walls, `stick` leaves the occupied lines of the merged and cleared board, in order, at the bottom, with empty lines above them |
| Compaction.CompactUnique | tetris.js:42 | the compacted board is the only arrangement of the same height with the same positive rows, in the same order, below empty rows |
| Compaction.CompactIdempotent | tetris.js:41-42 | compacting a compacted board changes nothing |
| Compaction.SurvivorsCleared | tetris.js:35-41 | the rows that survive clearing and filtering are exactly the positive rows that were not full, in order |
| Compaction.KeptCount | tetris.js:35-41 | each full line removes exactly one positive row |
| Compaction.SettleRows | tetris.js:33-42 | `stick` keeps the board's height and leaves the merged board's positive non-full rows, in order, at the bottom, with empty rows above them |
| Compaction.SettleClearsLines | tetris.js:33-42 | after `stick` no row is full, and the number of positive rows dropped by the number of full lines |
| Compaction.SettleFits | tetris.js:33-42 | a board and a mask inside the COL columns give a board inside the COL columns |
| Tetris.Put | tetris.js:54-60 | the mask is refused with RangeError exactly when the shape would reach below the floor; a mask that is given has the board's height and stays inside the COL columns |
| Tetris.Place | tetris.js:57 | `e << (COL - x)` for the shift counts 0..COL a placement on the board can have |
| Tetris.JsPlace | tetris.js:57 | `e << (COL - x)` as JavaScript evaluates it for any x: the count taken mod 32 and bits past bit 31 lost |
| Tetris.PutLayout | tetris.js:55-59 | a placed mask holds shape row k, shifted by `COL - x`, on line y + k, and zero on every other line |
| Tetris.SpawnPlaced | tetris.js:47-52 | every shape can be placed at the spawn column `floor(COL / 2) + 1` on the top row of a board of at least 4 lines |
| Tetris.PutAsWritten | tetris.js:54-60 | `_put` as written: its only error is the RangeError of a shape reaching below the floor, and its mask has the board's height |
| Tetris.AsWrittenLayout | tetris.js:55-59 | `_put` as written holds shape row k, shifted as JavaScript shifts (count mod 32, bits past 31 lost), on line y + k |
| Tetris.PutRefusesSpills | tetris.js:57 | `Put` accepts a placement exactly when `_put` as written accepts it, the column is in 0..COL, and every row stays inside the COL columns; when it accepts, both give the same mask |
| Tetris.CanLeft | tetris.js:62-71 | a move that is allowed gives a mask of the same height that hits nothing on the board |
| Tetris.CanRight | tetris.js:73-82 | a move that is allowed gives a mask of the same height that hits nothing on the board |
| Tetris.CanDown | tetris.js:84-93 | a move that is allowed gives a mask of the same height that hits nothing on the board |
| Tetris.LeftThenRight | tetris.js:62-82 | a move left keeps the mask inside the walls, and a move right from there is allowed and gives back the original mask |
| Tetris.RightThenLeft | tetris.js:62-82 | a move right keeps the mask inside the walls, and a move left from there is allowed and gives back the original mask |
| Tetris.DownKeepsRows | tetris.js:84-93 | a move down keeps every occupied row of the piece, in order, keeps the mask inside the walls, and brings an empty row in at the top |
| Tetris.NotPastLeftWall | tetris.js:57 | a shape that is placed on the board has `x >= 1` |
| Tetris.LeftMatchesPut | tetris.js:95-103 | the mask a move left commits is the shape placed by `_put` one column further left, at `x - 1` |
| Tetris.RightMatchesPut | tetris.js:105-113 | the mask a move right commits is the shape placed one column further right, at `x + 1`; from x = COL the new x has no placement on the board |
| Tetris.DownMatchesPut | tetris.js:115-125 | the mask a move down commits is the shape placed one row lower; otherwise `_put` at `y + 1` throws RangeError |
| Tetris.Field.constructor | tetris.js:11 | a board of `height` empty lines |
| Tetris.Field.Clear | tetris.js:252 | the board becomes `height` empty lines |
| Tetris.Field.Collided | tetris.js:23-30 | the answer is true exactly when some line of the board and of the mask share a bit, counted as `> 0` |
| Tetris.Field.Stick | tetris.js:33-44 | the new board is the merged, cleared and compacted old board, it stays inside the walls, and the next piece is a fresh piece of the chosen kind at its spawn position |
| Tetris.MergeAndClear | tetris.js:35-40 | after the loop every line holds the old line OR the mask's line, emptied if that is `full_line` |
| Tetris.Tetromino.constructor | tetris.js:47-52 | the piece is at `x = floor(COL / 2) + 1`, `y = 0`, with the given shape and the mask `_put` gives there |
| Tetris.Tetromino.MoveLeft | tetris.js:95-103 | when `_canLeft` allows it, the mask becomes the moved mask and x drops by one; otherwise nothing changes; y and the shape never change |
| Tetris.Tetromino.MoveRight | tetris.js:105-113 | when `_canRight` allows it, the mask becomes the moved mask and x grows by one; otherwise nothing changes; y and the shape never change |
| Tetris.Tetromino.Down | tetris.js:115-125 | when `_canDown` allows it, the piece moves one line down and the board is untouched; otherwise the board becomes the settled board, the game is over exactly when y was 0, and a fresh piece of the chosen kind is returned |
| Tetris.Tetromino.Rotate | tetris.js:127-143 | the shape becomes its rotation and the mask its placement at the same x and y; a RangeError keeps the old mask but not the old shape; a turn past a wall is refused |
| Tetris.Rotated | tetris.js:128-139 | the box built by the loops is the rotation of the shape, and it is a shape |
| Tetris.TurnBox | tetris.js:128-136 | the nested loops build the quarter turn of the box |
| Tetris.TurnInRow | tetris.js:132-135 | one pass of the inner loop adds row i's bits to every row of the turned box |
| Tetris.TurnCellInto | tetris.js:133-134 | the statement `t[j] = (b << i) \| t[j]` on the array: row j of the turned box advances from `TurnRow(s, j, i)` to `TurnRow(s, j, i + 1)`, and no other row changes |
| Tetris.RaiseBox | tetris.js:137-139 | the while loop ends, with the normalised box |
| Tetris.Spawn | tetris.js:146-149 | a fresh piece of catalogue entry `kind`, at its spawn position |
| Tetris.Spawned | tetris.js:47-52 | a piece as `new Tetromino(tetrominos[kind])` leaves it: x = `floor(COL / 2) + 1`, y = 0, the catalogue shape, and the mask `_put` gives there |
| Tetris.Game.constructor | tetris.js:250-256 | the session starts on an empty board, with a fresh piece and the game not over |
| Tetris.Game.Reset | tetris.js:250-254 | the game is not over, the board is empty, and a fresh piece of the chosen kind is in play |
| Tetris.Game.Drop | tetris.js:115-125 | the piece falls one line, keeping its column and shape, and the board and the flag do not change; or it sticks, the flag says whether that happened on the top row, the board is settled, and a fresh piece of the chosen kind takes over |
| Tetris.Game.Tick | tetris.js:242-246 | when the game is over nothing changes; otherwise the outcome is exactly the one `Drop` states, in both cases |
| Tetris.Game.KeyDown | tetris.js:218-240 | 'r' resets; while the game is over every other key changes nothing; otherwise the side arrows move the piece as `MoveLeft` and `MoveRight` state, the up arrow turns it with the three outcomes `Rotate` states, the down arrow drops it as `Drop` states, and only a turn can fail |
| Scenarios.SpawnO | tetris.js:47-52 | the O piece appears in the two top lines, in columns 4 and 5 from the right |
| Scenarios.DropOToFloor | tetris.js:115-125 | on an empty board of four lines an O piece falls twice, and the third drop sticks it to the floor without ending the game |
| Scenarios.SlideOToWall | tetris.js:95-103 | an O piece moved left six times from its spawn reaches the left wall at x = 2 after four moves and then stays there |
| Scenarios.TurnIAtLeftWall | tetris.js:127-143 | an I piece turned, moved four columns left and turned again: as written the mask would have cells past the left wall, so the model refuses the second turn |
| Scenarios.TurnAtLeftWallSpills | tetris.js:57 | `_put` as written places the lying I piece at x = 2 with bits beyond column COL - 1 |
| Scenarios.SpilledRowNeverClears | tetris.js:37-42 | a line holding such spilled bits and all ten board columns is not `full_line`, so `stick` keeps it |
| Scenarios.JPastRightWall | tetris.js:105-113 | a J piece placed at x = COL moves right once more, to x = COL + 1, where the shape has no placement on the board |
| Scenarios.TurnPastRightWall | tetris.js:57 | the J piece turned at x = COL + 1: `_put` as written shifts by 31 and puts a cell on the sign bit, which `> 0` never sees; the model refuses the placement |

## Left out

- Rendering, the canvas, DOM sizing, `requestAnimationFrame` and the timer (tetris.js:1-8,
  153-216, 248) are not modelled. `tick` and the keydown handler are methods the caller
  invokes; a key press is a `Key` value.
- `Math.random` in `newTetromino` is the parameter `kind`. `line_count` is the parameter
  `height`, at least 4. COL is the constant 10.
- Tetris.Put: when the source's shift count falls outside 0..COL, or a shape row lands past bit
  COL - 1, `_put` returns a mask with bits outside the board (or wrapped through JavaScript's
  count mod 32). The model returns `OffBoard` instead. `Tetris.PutAsWritten` models the source's
  behaviour, and `Tetris.PutRefusesSpills` relates the two.
- Tetris.Tetromino.Rotate: as written, `rotate` commits a turn whose cells land past a wall (see
  Findings). The model refuses that turn and leaves the piece unchanged.
- Tetris.Tetromino.Rotate: like the source, the model does not test a turned piece for collision
  with the board. A turn can therefore overlap filled cells.
- Tetris.Tetromino.Rotate: the RangeError thrown by `_put` is returned as a failure value rather
  than raised. As in the source, the shape has already changed when it is thrown.
- Tetris.Field.Stick: requires the mask to lie inside the walls. Every mask a valid piece holds
  does.
- Tetris.CanDown: requires a board of at least one line. The model's boards have at least four.
- The `undefined` entries of JavaScript arrays are modelled as 0 (`MaskAt`, and the padding of
  `new Array(n)` in `stick`). JavaScript treats them as 0 in `|`, `&` and `> 0`.
- JavaScript's `>>` is an arithmetic shift and the model's is logical. They differ only when bit
  31 is set, and no row inside the walls sets it.
- The piece's fields are not tied to its mask by a class invariant. The lemmas
  `Tetris.LeftMatchesPut`, `Tetris.RightMatchesPut` and `Tetris.DownMatchesPut` state instead
  that every move commits the mask `_put` would give at the new position.
- A new piece that overlaps the board on arrival is not detected. Neither does the source detect
  it: the game ends only when a piece sticks on the top row.

## Findings

| source | as written | input that shows it | evidently intended | confidence | as-written member | corrected member |
|---|---|---|---|---|---|---|
| tetris.js:127-143 | `rotate` stores the turned shape and places it with `e << (COL - x)`. Nothing checks that the rows stay inside the COL columns. | On an empty board of four lines, turn an I piece, move it left four times (to x = 2), and turn it again: the top line becomes `0xF00`, and bits 10 and 11 lie past the left wall. A line holding those bits and all ten board columns (`0xFFF`) is never equal to `full_line`, so it never clears. At the right wall, a J piece moved to x = 11 and turned gets a shift count of -1, read as 31, and a cell on the sign bit (`Scenarios.TurnPastRightWall`). | A turn never puts cells outside the board's ten columns. | not executed | Scenarios.TurnAtLeftWallSpills | Tetris.Tetromino.Rotate |
