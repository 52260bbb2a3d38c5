/**
 * Rows of the board and of a piece's occupancy mask.
 *
 * A row is a bit mask over the board's columns: bit 0 is the rightmost column and bit
 * `Columns - 1` the leftmost (tetris.js:6, 34). The source keeps rows in JavaScript numbers
 * and only ever combines them with 32-bit bitwise operators, so a row is a `bv32` here.
 */
module Bits {

  type Row = bv32

  /** Width of the board (the source's constant COL). */
  const Columns: nat := 10

  /** The row with every column occupied, `(1 << COL) - 1`. */
  const FullLine: Row := 0x3FF

  /** The leftmost column, `1 << (COL - 1)`. */
  const LeftWall: Row := 0x200

  /** The rightmost column. */
  const RightWall: Row := 0x1

  /** The source's `r > 0` on a row: JavaScript reads a 32-bit bitwise result as a signed
      number, so a row counts as positive when it is nonzero and its bit 31 is clear. */
  predicate Positive(r: Row) {
    0 < r < 0x8000_0000
  }

  /** On rows that fit the board, positive and nonzero are the same. */
  lemma FitPositive(r: Row)
    requires Fits(r)
    ensures Positive(r) <==> r != 0
  {
  }

  /** A row that uses no bit beyond the board's width. */
  predicate Fits(r: Row) {
    r <= FullLine
  }

  predicate AllFit(rows: seq<Row>) {
    forall i :: 0 <= i < |rows| ==> Fits(rows[i])
  }

  /** `a | b`: the cells of both rows (tetris.js:36, 134). */
  function Fuse(a: Row, b: Row): Row {
    a | b
  }

  /** `n` empty rows. */
  function Zeros(n: nat): (z: seq<Row>)
    ensures |z| == n && forall i :: 0 <= i < n ==> z[i] == 0
  {
    seq(n, _ => 0)
  }

  /** Row i of `mask`, or 0 past its end (JavaScript's `undefined` under a bitwise operator). */
  function MaskAt(mask: seq<Row>, i: int): Row {
    if 0 <= i < |mask| then mask[i] else 0
  }

  /** Some row of `space` and the same row of `mask` have a positive intersection
      (tetris.js:23-30). */
  predicate Overlaps(space: seq<Row>, mask: seq<Row>) {
    exists i :: 0 <= i < |space| && HitsAt(space, mask, i)
  }

  /** Row i of `space` and of `mask` have a positive intersection. */
  predicate HitsAt(space: seq<Row>, mask: seq<Row>, i: int)
    requires 0 <= i < |space|
  {
    Positive(space[i] & MaskAt(mask, i))
  }

  /** Some row of `mask` occupies the leftmost column (tetris.js:63). */
  predicate TouchesLeft(mask: seq<Row>) {
    exists i :: 0 <= i < |mask| && mask[i] & LeftWall != 0
  }

  /** Some row of `mask` occupies the rightmost column (tetris.js:74). */
  predicate TouchesRight(mask: seq<Row>) {
    exists i :: 0 <= i < |mask| && mask[i] & RightWall != 0
  }

  /** Every row moved one column to the left, `mino.map(e => e << 1)` (tetris.js:66). */
  function ShiftLeft(mask: seq<Row>): (r: seq<Row>)
    ensures |r| == |mask|
  {
    seq(|mask|, i requires 0 <= i < |mask| => Left1(mask[i]))
  }

  function Left1(r: Row): Row {
    r << 1
  }

  /** Every row moved one column to the right, `mino.map(e => e >> 1)` (tetris.js:77). */
  function ShiftRight(mask: seq<Row>): (r: seq<Row>)
    ensures |r| == |mask|
  {
    seq(|mask|, i requires 0 <= i < |mask| => Right1(mask[i]))
  }

  function Right1(r: Row): Row {
    r >> 1
  }

  /** The mask moved one row down: an empty row enters at the top and the bottom row leaves
      (`[0, ...mino.slice(0, line_count - 1)]`, tetris.js:88). */
  function ShiftDown(mask: seq<Row>): (r: seq<Row>)
    requires |mask| >= 1
    ensures |r| == |mask|
  {
    [0] + mask[..|mask| - 1]
  }
}
