/**
 * The board, the falling piece and the session of tetris.js.
 *
 * The source keeps three globals: the board `space`, the falling piece `t` and the flag
 * `gameOver`. Here the board is a `Field`, the piece a `Tetromino`, and the three together a
 * `Game`. The random choice of the next piece (tetris.js:146-149) is the parameter `kind`, an
 * index into the catalogue; the board's height (`line_count`, derived from the canvas at
 * tetris.js:8) is the parameter `height`.
 */
module Tetris {
  import opened Wrappers
  import opened Bits
  import opened Shapes
  import opened Compaction

  // ---------------------------------------------------------------------------------------
  // Placing a shape on the board (`_put`, tetris.js:54-60).

  /** Why a shape cannot be placed. `RangeError` is the exception `new Array(n)` throws when the
      shape would reach below the floor; `OffBoard` stands for the shift counts outside 0..COL
      and the rows reaching past the left edge, which JavaScript does not report. */
  datatype PutError = RangeError | OffBoard

  /** `e << (COL - x)`: a shape row moved to the piece's column, for the counts 0..COL a
      placement on the board can have, each spelled out with a constant count. */
  function Place(e: Row, d: nat): Row
    requires d <= Columns
  {
    if d == 0 then e else if d == 1 then e << 1 else if d == 2 then e << 2
    else if d == 3 then e << 3 else if d == 4 then e << 4 else if d == 5 then e << 5
    else if d == 6 then e << 6 else if d == 7 then e << 7 else if d == 8 then e << 8
    else if d == 9 then e << 9 else e << 10
  }

  /** For a row of a box, one column further left is one more in the count. */
  lemma PlaceLeft(e: Row, d: nat)
    requires d < Columns && e < 16
    ensures Left1(Place(e, d)) == Place(e, d + 1)
  {
    if d == 0 {} else if d == 1 {} else if d == 2 {} else if d == 3 {} else if d == 4 {}
    else if d == 5 {} else if d == 6 {} else if d == 7 {} else if d == 8 {} else {}
  }

  /** For a row of a box, one column to the right is one less in the count. */
  lemma PlaceRight(e: Row, d: nat)
    requires d < Columns && e < 16
    ensures Right1(Place(e, d + 1)) == Place(e, d)
  {
    if d == 0 {} else if d == 1 {} else if d == 2 {} else if d == 3 {} else if d == 4 {}
    else if d == 5 {} else if d == 6 {} else if d == 7 {} else if d == 8 {} else {}
  }

  /** The board-high mask of a shape whose box has its top-left corner at column x (counted so
      that the box's left edge is bit `COL - x + S - 1`) and row y. */
  function Put(shape: seq<Row>, x: int, y: nat, height: nat): (r: Result<seq<Row>, PutError>)
    ensures r == Err(RangeError) <==> y + |shape| > height
    ensures r.Ok? ==> |r.value| == height && AllFit(r.value)
  {
    if y + |shape| > height then Err(RangeError)
    else if x < 0 || x > Columns then Err(OffBoard)
    else if exists k :: 0 <= k < |shape| && !Fits(Place(shape[k], Columns - x)) then Err(OffBoard)
    else
      var placed := Zeros(y) + seq(|shape|, k requires 0 <= k < |shape| => Place(shape[k], Columns - x))
        + Zeros(height - |shape| - y);
      assert forall i :: 0 <= i < |placed| ==> Fits(placed[i]) by {
        forall i | 0 <= i < |placed| ensures Fits(placed[i]) {
          if y <= i < y + |shape| {
            assert placed[i] == Place(shape[i - y], Columns - x);
          }
        }
      }
      Ok(placed)
  }

  /** A placed mask holds shape row k, shifted by `COL - x`, at row y + k and nothing on any other
      row (tetris.js:55-59). */
  lemma PutLayout(shape: seq<Row>, x: int, y: nat, height: nat)
    requires Put(shape, x, y, height).Ok?
    ensures var m := Put(shape, x, y, height).value;
      0 <= x <= Columns && y + |shape| <= height &&
      forall i :: 0 <= i < height ==>
        m[i] == if y <= i < y + |shape| then Place(shape[i - y], Columns - x) else 0
  {
    var m := Put(shape, x, y, height).value;
    var rows := seq(|shape|, k requires 0 <= k < |shape| => Place(shape[k], Columns - x));
    assert m == Zeros(y) + rows + Zeros(height - |shape| - y);
    forall i | 0 <= i < height
      ensures m[i] == if y <= i < y + |shape| then Place(shape[i - y], Columns - x) else 0
    {
      if i < y {
        assert m[i] == Zeros(y)[i];
      } else if i < y + |shape| {
        assert m[i] == rows[i - y];
      } else {
        assert m[i] == Zeros(height - |shape| - y)[i - y - |shape|];
      }
    }
  }

  /** A row of a 4-wide box, moved to the spawn column, stays on the board. */
  lemma SpawnRowFits(e: Row)
    requires Below(e, Span(4))
    ensures Fits(Place(e, Columns - (Columns / 2 + 1)))
  {
  }

  /** Every shape can be placed where a new piece appears, at the top of the board. */
  lemma SpawnPlaced(shape: seq<Row>, height: nat)
    requires IsShape(shape) && 4 <= height
    ensures Put(shape, Columns / 2 + 1, 0, height).Ok?
  {
    forall k | 0 <= k < |shape| ensures Fits(Place(shape[k], Columns - (Columns / 2 + 1))) {
      assert Below(shape[k], Span(|shape|));
      SpawnRowFits(shape[k]);
    }
  }

  /** `e << (COL - x)` as JavaScript evaluates it: the count is taken modulo 32 and bits pushed
      past bit 31 are lost. Nothing keeps the row within the board's COL columns. */
  function JsPlace(e: Row, x: int): Row {
    var count := (Columns - x) % 32;
    if count <= Columns then Place(e, count) else e << count
  }

  /** `_put` as written (tetris.js:54-60): the only error is the RangeError of a negative array
      length; rows reaching past the left wall, or a shift count outside 0..COL, go unnoticed. */
  function PutAsWritten(shape: seq<Row>, x: int, y: nat, height: nat): (r: Result<seq<Row>, PutError>)
    ensures r.Err? <==> y + |shape| > height
    ensures r.Err? ==> r.error == RangeError
    ensures r.Ok? ==> |r.value| == height
  {
    if y + |shape| > height then Err(RangeError)
    else
      Ok(Zeros(y) + seq(|shape|, k requires 0 <= k < |shape| => JsPlace(shape[k], x))
        + Zeros(height - |shape| - y))
  }

  /** The source's mask holds shape row k, shifted as JavaScript does, at row y + k, and nothing
      on any other row. */
  lemma AsWrittenLayout(shape: seq<Row>, x: int, y: nat, height: nat)
    requires y + |shape| <= height
    ensures var w := PutAsWritten(shape, x, y, height).value;
      forall i :: 0 <= i < height ==>
        w[i] == if y <= i < y + |shape| then JsPlace(shape[i - y], x) else 0
  {
    var w := PutAsWritten(shape, x, y, height).value;
    var rows := seq(|shape|, k requires 0 <= k < |shape| => JsPlace(shape[k], x));
    assert w == Zeros(y) + rows + Zeros(height - |shape| - y);
    forall i | 0 <= i < height
      ensures w[i] == if y <= i < y + |shape| then JsPlace(shape[i - y], x) else 0
    {
      if i < y {
        assert w[i] == Zeros(y)[i];
      } else if i < y + |shape| {
        assert w[i] == rows[i - y];
      } else {
        assert w[i] == Zeros(height - |shape| - y)[i - y - |shape|];
      }
    }
  }

  /** Where the source's `_put` gives a mask that stays on the board, the model's `Put` gives the
      same mask; it refuses exactly the placements the source gets wrong: a shift count outside
      0..COL or a row reaching past the left wall. */
  lemma PutRefusesSpills(shape: seq<Row>, x: int, y: nat, height: nat)
    ensures Put(shape, x, y, height).Ok? <==>
      PutAsWritten(shape, x, y, height).Ok? && 0 <= x <= Columns &&
      AllFit(PutAsWritten(shape, x, y, height).value)
    ensures Put(shape, x, y, height).Ok? ==> PutAsWritten(shape, x, y, height) == Put(shape, x, y, height)
  {
    if y + |shape| <= height && 0 <= x <= Columns {
      AsWrittenLayout(shape, x, y, height);
      var w := PutAsWritten(shape, x, y, height).value;
      if Put(shape, x, y, height).Ok? {
        PutAgrees(shape, x, y, height);
      } else {
        var k :| 0 <= k < |shape| && !Fits(Place(shape[k], Columns - x));
        JsPlaceAgrees(shape[k], x);
        assert !Fits(w[y + k]);
      }
    }
  }

  /** Inside 0..COL the source's shift is the model's. */
  lemma JsPlaceAgrees(e: Row, x: int)
    requires 0 <= x <= Columns
    ensures JsPlace(e, x) == Place(e, Columns - x)
  {
    assert (Columns - x) % 32 == Columns - x;
  }

  lemma PutAgrees(shape: seq<Row>, x: int, y: nat, height: nat)
    requires Put(shape, x, y, height).Ok?
    ensures PutAsWritten(shape, x, y, height) == Put(shape, x, y, height)
  {
    PutLayout(shape, x, y, height);
    AsWrittenLayout(shape, x, y, height);
    var m := Put(shape, x, y, height).value;
    var w := PutAsWritten(shape, x, y, height).value;
    forall i | 0 <= i < height ensures w[i] == m[i] {
      if y <= i < y + |shape| {
        JsPlaceAgrees(shape[i - y], x);
      }
    }
    assert w == m;
  }

  // ---------------------------------------------------------------------------------------
  // The moves the piece tries (`_canLeft`, `_canRight`, `_canDown`, tetris.js:62-93).

  /** The mask one column to the left, unless it would cross the left wall or hit the board. */
  function CanLeft(space: seq<Row>, mino: seq<Row>): (r: Option<seq<Row>>)
    ensures r.Some? ==> |r.value| == |mino| && !Overlaps(space, r.value)
  {
    if TouchesLeft(mino) then None
    else
      var moved := ShiftLeft(mino);
      if Overlaps(space, moved) then None else Some(moved)
  }

  /** The mask one column to the right, unless it would cross the right wall or hit the board. */
  function CanRight(space: seq<Row>, mino: seq<Row>): (r: Option<seq<Row>>)
    ensures r.Some? ==> |r.value| == |mino| && !Overlaps(space, r.value)
  {
    if TouchesRight(mino) then None
    else
      var moved := ShiftRight(mino);
      if Overlaps(space, moved) then None else Some(moved)
  }

  /** The mask one row lower, unless its bottom row is on the floor or it would hit the board. */
  function CanDown(space: seq<Row>, mino: seq<Row>): (r: Option<seq<Row>>)
    requires |mino| >= 1
    ensures r.Some? ==> |r.value| == |mino| && !Overlaps(space, r.value)
  {
    if Positive(mino[|mino| - 1]) then None
    else
      var moved := ShiftDown(mino);
      if Overlaps(space, moved) then None else Some(moved)
  }

  /** One row moved left and back right is the row itself, and both stay on the board. */
  lemma LeftRow(e: Row)
    requires Fits(e) && e & LeftWall == 0
    ensures Fits(Left1(e)) && Left1(e) & RightWall == 0 && Right1(Left1(e)) == e
  {
  }

  /** One row moved right and back left is the row itself, and both stay on the board. */
  lemma RightRow(e: Row)
    requires Fits(e) && e & RightWall == 0
    ensures Fits(Right1(e)) && Right1(e) & LeftWall == 0 && Left1(Right1(e)) == e
  {
  }

  /** Moving a mask that fits and does not touch the left wall one column to the left keeps it
      on the board, off the right wall, and a move back to the right restores it. */
  lemma ShiftLeftFacts(mino: seq<Row>)
    requires AllFit(mino) && !TouchesLeft(mino)
    ensures AllFit(ShiftLeft(mino)) && !TouchesRight(ShiftLeft(mino))
    ensures ShiftRight(ShiftLeft(mino)) == mino
  {
    var moved := ShiftLeft(mino);
    forall i | 0 <= i < |mino|
      ensures Fits(moved[i]) && moved[i] & RightWall == 0 && Right1(moved[i]) == mino[i]
    {
      assert Fits(mino[i]);
      assert mino[i] & LeftWall == 0;
      LeftRow(mino[i]);
    }
    assert !TouchesRight(moved);
    assert ShiftRight(moved) == mino;
  }

  /** Moving a mask that fits and does not touch the right wall one column to the right keeps it
      on the board, off the left wall, and a move back to the left restores it. */
  lemma ShiftRightFacts(mino: seq<Row>)
    requires AllFit(mino) && !TouchesRight(mino)
    ensures AllFit(ShiftRight(mino)) && !TouchesLeft(ShiftRight(mino))
    ensures ShiftLeft(ShiftRight(mino)) == mino
  {
    var moved := ShiftRight(mino);
    forall i | 0 <= i < |mino|
      ensures Fits(moved[i]) && moved[i] & LeftWall == 0 && Left1(moved[i]) == mino[i]
    {
      assert Fits(mino[i]);
      assert mino[i] & RightWall == 0;
      RightRow(mino[i]);
    }
    assert !TouchesLeft(moved);
    assert ShiftLeft(moved) == mino;
  }

  /** A move to the left keeps the mask on the board, and from a free position a move back to the
      right undoes it. */
  lemma LeftThenRight(space: seq<Row>, mino: seq<Row>)
    requires AllFit(mino) && !Overlaps(space, mino) && CanLeft(space, mino).Some?
    ensures AllFit(CanLeft(space, mino).value)
    ensures CanRight(space, CanLeft(space, mino).value) == Some(mino)
  {
    ShiftLeftFacts(mino);
  }

  /** A move to the right keeps the mask on the board, and from a free position a move back to the
      left undoes it. */
  lemma RightThenLeft(space: seq<Row>, mino: seq<Row>)
    requires AllFit(mino) && !Overlaps(space, mino) && CanRight(space, mino).Some?
    ensures AllFit(CanRight(space, mino).value)
    ensures CanLeft(space, CanRight(space, mino).value) == Some(mino)
  {
    ShiftRightFacts(mino);
  }

  /** A move down keeps every row of the piece, in order, and an empty row enters at the top. */
  lemma DownKeepsRows(space: seq<Row>, mino: seq<Row>)
    requires |mino| >= 1 && CanDown(space, mino).Some?
    ensures var moved := CanDown(space, mino).value;
      moved[0] == 0 && Survivors(moved) == Survivors(mino) && (AllFit(mino) ==> AllFit(moved))
  {
    ShiftDownKeepsRows(mino);
    if AllFit(mino) {
      ShiftDownFits(mino);
    }
  }

  lemma ShiftDownKeepsRows(mino: seq<Row>)
    requires |mino| >= 1 && !Positive(mino[|mino| - 1])
    ensures Survivors(ShiftDown(mino)) == Survivors(mino)
  {
    var n := |mino|;
    assert mino == mino[..n - 1] + [mino[n - 1]];
    SurvivorsAppend(mino[..n - 1], [mino[n - 1]]);
    SurvivorsAppend([0], mino[..n - 1]);
    assert Survivors([mino[n - 1]]) == [];
    assert Survivors([0 as Row]) == [];
  }

  lemma ShiftDownFits(mino: seq<Row>)
    requires |mino| >= 1 && AllFit(mino)
    ensures AllFit(ShiftDown(mino))
  {
    var moved := ShiftDown(mino);
    forall i | 0 <= i < |mino| ensures Fits(moved[i]) {
      if i > 0 { assert moved[i] == mino[i - 1]; }
    }
  }

  /** The rows of a shape are below 16, and a shape has an occupied row. */
  lemma ShapeRows(shape: seq<Row>)
    requires IsShape(shape)
    ensures forall k :: 0 <= k < |shape| ==> shape[k] < 16
    ensures HasNonzero(shape)
  {
    CellsNonzero(shape);
    assert Span(|shape|) <= 16;
  }

  /** A shape placed at the left wall's far side (x = 0) does not fit: its occupied row would
      reach past the wall. */
  lemma NotPastLeftWall(shape: seq<Row>, x: int, y: nat, height: nat)
    requires IsShape(shape) && Put(shape, x, y, height).Ok?
    ensures 1 <= x
  {
    PutLayout(shape, x, y, height);
    ShapeRows(shape);
    var r :| 0 <= r < |shape| && shape[r] != 0;
  }

  /** A mask that fits the board and is laid out as `_put` lays out a shape is what `Put`
      gives. */
  lemma PutFrom(shape: seq<Row>, x: int, y: nat, height: nat, m: seq<Row>)
    requires y + |shape| <= height && 0 <= x <= Columns && |m| == height && AllFit(m)
    requires forall i :: 0 <= i < height ==>
      m[i] == if y <= i < y + |shape| then Place(shape[i - y], Columns - x) else 0
    ensures Put(shape, x, y, height) == Ok(m)
  {
    forall k | 0 <= k < |shape| ensures Fits(Place(shape[k], Columns - x)) {
      assert Fits(m[y + k]);
    }
    assert Put(shape, x, y, height).Ok?;
    PutLayout(shape, x, y, height);
    var p := Put(shape, x, y, height).value;
    assert forall i :: 0 <= i < height ==> p[i] == m[i];
    assert p == m;
  }

  /** The mask a move to the left commits is the shape placed one column further left: the move
      decrements x (tetris.js:100-101), so x and the mask keep describing the same position. */
  lemma LeftMatchesPut(space: seq<Row>, shape: seq<Row>, x: int, y: nat, height: nat)
    requires IsShape(shape) && Put(shape, x, y, height).Ok?
    requires CanLeft(space, Put(shape, x, y, height).value).Some?
    ensures Put(shape, x - 1, y, height) == Ok(CanLeft(space, Put(shape, x, y, height).value).value)
  {
    var m := Put(shape, x, y, height).value;
    var moved := ShiftLeft(m);
    PutLayout(shape, x, y, height);
    NotPastLeftWall(shape, x, y, height);
    ShapeRows(shape);
    ShiftLeftFacts(m);
    ShiftedLeftLayout(shape, x, y, height);
    PutFrom(shape, x - 1, y, height, moved);
  }

  lemma ShiftedLeftLayout(shape: seq<Row>, x: int, y: nat, height: nat)
    requires IsShape(shape) && Put(shape, x, y, height).Ok? && 1 <= x
    ensures var moved := ShiftLeft(Put(shape, x, y, height).value);
      forall i :: 0 <= i < height ==>
        moved[i] == if y <= i < y + |shape| then Place(shape[i - y], Columns - (x - 1)) else 0
  {
    var moved := ShiftLeft(Put(shape, x, y, height).value);
    PutLayout(shape, x, y, height);
    ShapeRows(shape);
    forall i | 0 <= i < height
      ensures moved[i] == if y <= i < y + |shape| then Place(shape[i - y], Columns - (x - 1)) else 0
    {
      if y <= i < y + |shape| {
        PlaceLeft(shape[i - y], Columns - x);
      }
    }
  }

  lemma ShiftedRightLayout(shape: seq<Row>, x: int, y: nat, height: nat)
    requires IsShape(shape) && Put(shape, x, y, height).Ok? && x < Columns
    ensures var moved := ShiftRight(Put(shape, x, y, height).value);
      forall i :: 0 <= i < height ==>
        moved[i] == if y <= i < y + |shape| then Place(shape[i - y], Columns - (x + 1)) else 0
  {
    var moved := ShiftRight(Put(shape, x, y, height).value);
    PutLayout(shape, x, y, height);
    ShapeRows(shape);
    forall i | 0 <= i < height
      ensures moved[i] == if y <= i < y + |shape| then Place(shape[i - y], Columns - (x + 1)) else 0
    {
      if y <= i < y + |shape| {
        PlaceRight(shape[i - y], Columns - x - 1);
      }
    }
  }

  /** The mask a move to the right commits is the shape placed one column further right: the
      move increments x (tetris.js:110-111). From x = COL a box whose right columns are empty can
      still move right, to where no placement on the board describes it. */
  lemma RightMatchesPut(space: seq<Row>, shape: seq<Row>, x: int, y: nat, height: nat)
    requires IsShape(shape) && Put(shape, x, y, height).Ok?
    requires CanRight(space, Put(shape, x, y, height).value).Some?
    ensures x < Columns ==>
      Put(shape, x + 1, y, height) == Ok(CanRight(space, Put(shape, x, y, height).value).value)
    ensures x == Columns ==> Put(shape, x + 1, y, height) == Err(OffBoard)
  {
    if x < Columns {
      var m := Put(shape, x, y, height).value;
      var moved := ShiftRight(m);
      PutLayout(shape, x, y, height);
      ShapeRows(shape);
      ShiftRightFacts(m);
      ShiftedRightLayout(shape, x, y, height);
      PutFrom(shape, x + 1, y, height, moved);
    }
  }

  /** The mask a move down commits is the shape placed one row lower (tetris.js:122-123), as long
      as the box still ends above the floor; a box whose bottom rows are empty can move below
      that, where `_put` would throw. */
  lemma DownMatchesPut(space: seq<Row>, shape: seq<Row>, x: int, y: nat, height: nat)
    requires Put(shape, x, y, height).Ok? && height >= 1
    requires CanDown(space, Put(shape, x, y, height).value).Some?
    ensures y + 1 + |shape| <= height ==>
      Put(shape, x, y + 1, height) == Ok(CanDown(space, Put(shape, x, y, height).value).value)
    ensures y + 1 + |shape| > height ==> Put(shape, x, y + 1, height) == Err(RangeError)
  {
    var m := Put(shape, x, y, height).value;
    var moved := ShiftDown(m);
    PutLayout(shape, x, y, height);
    if y + 1 + |shape| <= height {
      assert Put(shape, x, y + 1, height).Ok?;
      PutLayout(shape, x, y + 1, height);
      var p := Put(shape, x, y + 1, height).value;
      forall i | 0 <= i < height ensures p[i] == moved[i] {
        if i > 0 {
          assert moved[i] == m[i - 1];
        }
      }
      assert p == moved;
    }
  }

  // ---------------------------------------------------------------------------------------
  // The board.

  class Field {
    /** `line_count`. */
    const height: nat
    /** `space`: one row per line, top first. */
    var rows: array<Row>

    ghost predicate Valid()
      reads this, rows
    {
      4 <= height && rows.Length == height && AllFit(rows[..])
    }

    /** `new Array(line_count).fill(0)` (tetris.js:11). */
    constructor(height: nat)
      requires 4 <= height
      ensures Valid() && this.height == height && fresh(rows) && rows[..] == Zeros(height)
    {
      this.height := height;
      rows := new Row[height](_ => 0);
    }

    /** The board emptied by `reset` (tetris.js:252). */
    method Clear()
      requires Valid()
      modifies this
      ensures Valid() && fresh(rows) && rows[..] == Zeros(height)
    {
      rows := new Row[height](_ => 0);
    }

    /** `collided(mino)` (tetris.js:23-30): scans the board top down and stops at the first row
        whose intersection with the mask is positive. */
    method Collided(mino: seq<Row>) returns (hit: bool)
      ensures hit <==> Overlaps(rows[..], mino)
    {
      for i := 0 to rows.Length
        invariant forall k :: 0 <= k < i ==> !HitsAt(rows[..], mino, k)
      {
        if HitsAt(rows[..], mino, i) {
          return true;
        }
      }
      return false;
    }

    /** `stick(tetromino)` (tetris.js:33-44): ORs the mask into the board row by row, empties
        every row that became full, lets the remaining positive rows fall to the bottom into a new
        board, and spawns the next piece. */
    method Stick(mino: seq<Row>, kind: nat) returns (next: Tetromino)
      requires Valid() && AllFit(mino) && kind < |Tetrominos|
      modifies this, rows
      ensures Valid() && fresh(rows)
      ensures rows[..] == Settle(old(rows[..]), mino)
      ensures fresh(next) && next.Valid() && Spawned(next, kind, height)
    {
      ghost var before := rows[..];
      MergeAndClear(rows, mino);
      var kept := Survivors(rows[..]);
      var board := Zeros(height - |kept|) + kept;
      rows := new Row[height](i requires 0 <= i < height => board[i]);
      assert rows[..] == board;
      SettleFits(before, mino);
      next := Spawn(kind, height);
    }
  }

  /** The loop of tetris.js:35-40, in place on the board: each row gets the mask's row OR-ed in
      and is emptied if that made it full. */
  method MergeAndClear(space: array<Row>, mino: seq<Row>)
    modifies space
    ensures space[..] == Cleared(Merged(old(space[..]), mino))
  {
    ghost var before := space[..];
    for i := 0 to space.Length
      invariant forall k :: 0 <= k < i ==> space[k] == ClearRow(Fuse(before[k], MaskAt(mino, k)))
      invariant forall k :: i <= k < space.Length ==> space[k] == before[k]
    {
      space[i] := Fuse(space[i], MaskAt(mino, i));
      if space[i] == FullLine {
        space[i] := 0;
      }
    }
  }

  // ---------------------------------------------------------------------------------------
  // The falling piece.

  /** The outcome of `down()`: the piece moved one row, or it stuck to the board, in which case
      the game may be over and a new piece replaces it. */
  datatype Landing = Moved | Stuck(gameOver: bool, next: Tetromino)

  class Tetromino {
    /** `line_count`. */
    const height: nat
    /** Column offset: the shape's rows are shifted left by `COL - x`. */
    var x: int
    /** Row of the shape's top row. */
    var y: nat
    /** `tetromino`: the rows of the shape's box. */
    var shape: seq<Row>
    /** `mino`: the piece's rows over the whole height of the board. */
    var mino: seq<Row>

    ghost predicate Valid()
      reads this
    {
      4 <= height && IsShape(shape) && |mino| == height && AllFit(mino)
    }

    /** `new Tetromino(t)` (tetris.js:47-52): the shape at column `floor(COL / 2) + 1` and the top
        row, placed by `_put`. */
    constructor(shape: seq<Row>, height: nat)
      requires IsShape(shape) && 4 <= height
      ensures Valid() && this.height == height && this.shape == shape
      ensures x == Columns / 2 + 1 && y == 0 && Put(shape, x, y, height) == Ok(mino)
    {
      this.height := height;
      x := Columns / 2 + 1;
      y := 0;
      this.shape := shape;
      SpawnPlaced(shape, height);
      mino := Put(shape, Columns / 2 + 1, 0, height).value;
    }

    /** `moveLeft()` (tetris.js:95-103). The second collision test repeats the one `_canLeft`
        already made. */
    method MoveLeft(field: Field)
      requires Valid() && field.Valid() && field.height == height
      modifies this
      ensures Valid() && y == old(y) && shape == old(shape)
      ensures match CanLeft(field.rows[..], old(mino))
        case Some(moved) => mino == moved && x == old(x) - 1 && !Overlaps(field.rows[..], mino)
        case None => mino == old(mino) && x == old(x)
    {
      var moved := CanLeft(field.rows[..], mino);
      if moved.None? {
        return;
      }
      var hit := field.Collided(moved.value);
      if hit {
        return;
      }
      ShiftLeftFacts(mino);
      mino := moved.value;
      x := x - 1;
    }

    /** `moveRight()` (tetris.js:105-113). */
    method MoveRight(field: Field)
      requires Valid() && field.Valid() && field.height == height
      modifies this
      ensures Valid() && y == old(y) && shape == old(shape)
      ensures match CanRight(field.rows[..], old(mino))
        case Some(moved) => mino == moved && x == old(x) + 1 && !Overlaps(field.rows[..], mino)
        case None => mino == old(mino) && x == old(x)
    {
      var moved := CanRight(field.rows[..], mino);
      if moved.None? {
        return;
      }
      var hit := field.Collided(moved.value);
      if hit {
        return;
      }
      ShiftRightFacts(mino);
      mino := moved.value;
      x := x + 1;
    }

    /** `down()` (tetris.js:115-125): one row lower if the piece can go there; otherwise the game
        is over exactly when the piece never left the top row, and the piece sticks to the
        board. */
    method Down(field: Field, kind: nat) returns (landing: Landing)
      requires Valid() && field.Valid() && field.height == height && kind < |Tetrominos|
      modifies this, field, field.rows
      ensures field.Valid() && Valid()
      ensures x == old(x) && shape == old(shape)
      ensures match CanDown(old(field.rows[..]), old(mino))
        case Some(moved) =>
          landing == Moved && mino == moved && y == old(y) + 1 &&
          field.rows == old(field.rows) && field.rows[..] == old(field.rows[..]) &&
          !Overlaps(field.rows[..], mino)
        case None =>
          landing.Stuck? && landing.gameOver == (old(y) == 0) &&
          mino == old(mino) && y == old(y) &&
          fresh(field.rows) && field.rows[..] == Settle(old(field.rows[..]), old(mino)) &&
          fresh(landing.next) && landing.next.Valid() && Spawned(landing.next, kind, height)
    {
      var moved := CanDown(field.rows[..], mino);
      if moved.None? {
        var over := y == 0;
        var next := field.Stick(mino, kind);
        return Stuck(over, next);
      }
      DownKeepsRows(field.rows[..], mino);
      mino := moved.value;
      y := y + 1;
      return Moved;
    }

    /** `rotate()` (tetris.js:127-143): the box turned a quarter, its empty top rows moved to the
        bottom, and the mask placed again at the same x and y, with no collision test. When the
        turned box would reach below the floor, `_put` throws after the new shape is stored, so
        the shape changes and the mask does not. A turn that would put cells past a wall is
        refused and leaves the piece as it was (see `PutAsWritten` for what the source does). */
    method Rotate() returns (failure: Option<PutError>)
      requires Valid()
      modifies this
      ensures Valid() && x == old(x) && y == old(y)
      ensures match Put(Rotation(old(shape)), x, y, height)
        case Ok(placed) => failure == None && shape == Rotation(old(shape)) && mino == placed
        case Err(RangeError) =>
          failure == Some(RangeError) && shape == Rotation(old(shape)) && mino == old(mino)
        case Err(OffBoard) => failure == Some(OffBoard) && shape == old(shape) && mino == old(mino)
    {
      var turned := Rotated(shape);
      var placed := Put(turned, x, y, height);
      match placed {
        case Ok(m) =>
          shape, mino := turned, m;
          failure := None;
        case Err(RangeError) =>
          shape := turned;
          failure := Some(RangeError);
        case Err(OffBoard) =>
          failure := Some(OffBoard);
      }
    }
  }

  /** The shape `rotate()` builds in `t` (tetris.js:128-139): the box turned, then its empty top
      rows moved to the bottom. */
  method Rotated(s: seq<Row>) returns (r: seq<Row>)
    requires IsShape(s)
    ensures r == Rotation(s) && IsShape(r)
  {
    var turned := TurnBox(s);
    TurnCells(s);
    CellsNonzero(turned);
    r := RaiseBox(turned);
    RotationIsShape(s);
  }

  /** The two nested loops of tetris.js:128-136: a new box whose row j gets, in bit i, bit
      `size - j - 1` of row i of the shape. */
  method TurnBox(s: seq<Row>) returns (turned: seq<Row>)
    requires |s| <= 4
    ensures turned == Turn(s)
  {
    var size := |s|;
    var t := new Row[size](_ => 0);
    for i := 0 to size
      invariant forall j :: 0 <= j < size ==> t[j] == TurnRow(s, j, i)
    {
      TurnInRow(t, s, i);
    }
    turned := t[..];
  }

  /** The inner loop of tetris.js:132-135: row i of the shape is spread over the turned box. */
  method TurnInRow(t: array<Row>, s: seq<Row>, i: nat)
    requires t.Length == |s| <= 4 && i < |s|
    requires forall j :: 0 <= j < |s| ==> t[j] == TurnRow(s, j, i)
    modifies t
    ensures forall j :: 0 <= j < |s| ==> t[j] == TurnRow(s, j, i + 1)
  {
    for j := 0 to |s|
      invariant forall k :: 0 <= k < j ==> t[k] == TurnRow(s, k, i + 1)
      invariant forall k :: j <= k < |s| ==> t[k] == TurnRow(s, k, i)
    {
      TurnCellInto(t, s, i, j);
    }
  }

  /** One step of that loop (tetris.js:133-134): bit `size - j - 1` of row i goes to bit i of
      row j. */
  method TurnCellInto(t: array<Row>, s: seq<Row>, i: nat, j: nat)
    requires t.Length == |s| <= 4 && i < |s| && j < |s|
    requires t[j] == TurnRow(s, j, i)
    modifies t
    ensures t[j] == TurnRow(s, j, i + 1)
    ensures forall k :: 0 <= k < t.Length && k != j ==> t[k] == old(t[k])
  {
    var b := CellBit(s[i], |s| - j - 1);
    TurnRowStep(s, j, i);
    t[j] := Fuse(Shl(b, i), t[j]);
  }

  /** The loop of tetris.js:137-139: while the top row is empty, it goes to the bottom. */
  method RaiseBox(t: seq<Row>) returns (raised: seq<Row>)
    requires HasNonzero(t)
    ensures raised == Normalize(t)
  {
    raised := t;
    while raised[0] == 0
      invariant HasNonzero(raised) && Normalize(raised) == Normalize(t)
      decreases LeadingZeros(raised)
    {
      LiftProgress(raised);
      raised := raised[1..] + [0];
    }
  }

  /** A fresh piece of catalogue entry `kind`, as `new Tetromino(...)` leaves it. */
  ghost predicate Spawned(p: Tetromino, kind: nat, height: nat)
    requires kind < |Tetrominos|
    reads p
  {
    p.height == height && p.x == Columns / 2 + 1 && p.y == 0 && p.shape == Tetrominos[kind] &&
    Put(p.shape, p.x, p.y, height) == Ok(p.mino)
  }

  /** `newTetromino()` (tetris.js:146-149) with the random index given as `kind`. */
  method Spawn(kind: nat, height: nat) returns (p: Tetromino)
    requires kind < |Tetrominos| && 4 <= height
    ensures fresh(p) && p.Valid() && Spawned(p, kind, height)
  {
    CatalogueShapes(kind);
    p := new Tetromino(Tetrominos[kind], height);
  }

  // ---------------------------------------------------------------------------------------
  // The session (tetris.js:9, 218-256).

  /** The keys the handler of tetris.js:218-240 tells apart; `ResetKey` is 'r' or 'R'. */
  datatype Key = ResetKey | ArrowDown | ArrowLeft | ArrowRight | ArrowUp | OtherKey

  class Game {
    const height: nat
    var field: Field
    var piece: Tetromino
    var gameOver: bool

    ghost predicate Valid()
      reads this, field, field.rows, piece
    {
      field.Valid() && piece.Valid() && field.height == height && piece.height == height
    }

    /** The state the script starts in, after its closing `reset()` (tetris.js:9-11, 151, 256). */
    constructor(height: nat, kind: nat)
      requires 4 <= height && kind < |Tetrominos|
      ensures Valid() && this.height == height && !gameOver
      ensures fresh(field) && fresh(field.rows) && fresh(piece)
      ensures field.rows[..] == Zeros(height) && Spawned(piece, kind, height)
    {
      this.height := height;
      var board := new Field(height);
      var first := Spawn(kind, height);
      field, piece := board, first;
      gameOver := false;
    }

    /** `reset()` (tetris.js:250-254): play resumes on an empty board with a new piece. */
    method Reset(kind: nat)
      requires Valid() && kind < |Tetrominos|
      modifies this, field
      ensures Valid() && !gameOver && field == old(field)
      ensures fresh(field.rows) && field.rows[..] == Zeros(height)
      ensures fresh(piece) && Spawned(piece, kind, height)
    {
      gameOver := false;
      field.Clear();
      piece := Spawn(kind, height);
    }

    /** `t.down()` as the handler and the timer call it: the piece falls one row, or it sticks,
        the flag records whether that happened on the top row, and the next piece takes over. */
    method Drop(kind: nat)
      requires Valid() && kind < |Tetrominos|
      modifies this, field, field.rows, piece
      ensures Valid() && field == old(field)
      ensures match CanDown(old(field.rows[..]), old(piece.mino))
        case Some(moved) =>
          piece == old(piece) && piece.mino == moved && piece.y == old(piece.y) + 1 &&
          piece.x == old(piece.x) && piece.shape == old(piece.shape) &&
          gameOver == old(gameOver) && field.rows == old(field.rows) &&
          field.rows[..] == old(field.rows[..])
        case None =>
          gameOver == (old(piece.y) == 0) &&
          fresh(field.rows) && field.rows[..] == Settle(old(field.rows[..]), old(piece.mino)) &&
          fresh(piece) && Spawned(piece, kind, height)
    {
      var landing := piece.Down(field, kind);
      if landing.Stuck? {
        gameOver := landing.gameOver;
        piece := landing.next;
      }
    }

    /** `tick()` (tetris.js:242-246): the timer drops the piece unless the game is over. */
    method Tick(kind: nat)
      requires Valid() && kind < |Tetrominos|
      modifies this, field, field.rows, piece
      ensures Valid()
      ensures old(gameOver) ==>
        (gameOver && field == old(field) && piece == old(piece) && field.rows == old(field.rows) && unchanged(field, field.rows, piece))
      ensures !old(gameOver) ==>
        (field == old(field) &&
         match CanDown(old(field.rows[..]), old(piece.mino))
         case Some(moved) =>
           piece == old(piece) && piece.mino == moved && piece.y == old(piece.y) + 1 &&
           piece.x == old(piece.x) && piece.shape == old(piece.shape) && !gameOver &&
           field.rows == old(field.rows) && field.rows[..] == old(field.rows[..])
         case None =>
           gameOver == (old(piece.y) == 0) &&
           fresh(field.rows) && field.rows[..] == Settle(old(field.rows[..]), old(piece.mino)) &&
           fresh(piece) && Spawned(piece, kind, height))
    {
      if !gameOver {
        Drop(kind);
      }
    }

    /** The keydown handler (tetris.js:218-240): 'r' and 'R' reset the game; while the game is
        over every other key is ignored; otherwise the arrows drop, shift and turn the piece.
        `failure` is the exception a turn can raise from `_put`. */
    method KeyDown(key: Key, kind: nat) returns (failure: Option<PutError>)
      requires Valid() && kind < |Tetrominos|
      modifies this, field, field.rows, piece
      ensures Valid() && field == old(field)
      ensures key == ResetKey ==>
        !gameOver && field.rows[..] == Zeros(height) && fresh(piece) && Spawned(piece, kind, height)
      ensures key != ResetKey && old(gameOver) ==>
        gameOver && piece == old(piece) && field.rows == old(field.rows) && unchanged(field, field.rows, piece)
      ensures key == OtherKey ==>
        gameOver == old(gameOver) && piece == old(piece) && field.rows == old(field.rows) && unchanged(field, field.rows, piece)
      ensures key in {ArrowLeft, ArrowRight, ArrowUp} ==>
        gameOver == old(gameOver) && piece == old(piece) && field.rows == old(field.rows) &&
        unchanged(field, field.rows) && piece.y == old(piece.y)
      ensures key in {ArrowLeft, ArrowRight} ==> piece.shape == old(piece.shape)
      ensures key == ArrowLeft && !old(gameOver) ==>
        match CanLeft(old(field.rows[..]), old(piece.mino))
        case Some(moved) => piece.mino == moved && piece.x == old(piece.x) - 1
        case None => piece.mino == old(piece.mino) && piece.x == old(piece.x)
      ensures key == ArrowRight && !old(gameOver) ==>
        match CanRight(old(field.rows[..]), old(piece.mino))
        case Some(moved) => piece.mino == moved && piece.x == old(piece.x) + 1
        case None => piece.mino == old(piece.mino) && piece.x == old(piece.x)
      ensures key == ArrowUp && !old(gameOver) ==>
        piece.x == old(piece.x) &&
        match Put(Rotation(old(piece.shape)), old(piece.x), old(piece.y), height)
        case Ok(placed) =>
          failure == None && piece.shape == Rotation(old(piece.shape)) && piece.mino == placed
        case Err(RangeError) =>
          failure == Some(RangeError) && piece.shape == Rotation(old(piece.shape)) &&
          piece.mino == old(piece.mino)
        case Err(OffBoard) =>
          failure == Some(OffBoard) && piece.shape == old(piece.shape) && piece.mino == old(piece.mino)
      ensures key == ArrowDown && !old(gameOver) ==>
        match CanDown(old(field.rows[..]), old(piece.mino))
        case Some(moved) =>
          piece == old(piece) && piece.mino == moved && piece.y == old(piece.y) + 1 &&
          piece.x == old(piece.x) && piece.shape == old(piece.shape) && !gameOver &&
          field.rows == old(field.rows) && field.rows[..] == old(field.rows[..])
        case None =>
          gameOver == (old(piece.y) == 0) &&
          fresh(field.rows) && field.rows[..] == Settle(old(field.rows[..]), old(piece.mino)) &&
          fresh(piece) && Spawned(piece, kind, height)
      ensures failure.Some? ==> key == ArrowUp && !old(gameOver)
    {
      failure := None;
      if key == ResetKey {
        Reset(kind);
      }
      if gameOver {
        return;
      }
      match key {
        case ArrowDown => Drop(kind);
        case ArrowLeft => piece.MoveLeft(field);
        case ArrowRight => piece.MoveRight(field);
        case ArrowUp => failure := piece.Rotate();
        case _ =>
      }
    }
  }
}
