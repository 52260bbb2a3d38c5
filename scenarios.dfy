/**
 * Worked runs of the session on a small board, proved from the contracts of the model.
 */
module Scenarios {
  import opened Wrappers
  import opened Bits
  import opened Shapes
  import opened Compaction
  import opened Tetris

  /** The O piece appears in the two top lines, in columns 4 and 5 counted from the right. */
  lemma SpawnO()
    ensures Put(Tetrominos[0], Columns / 2 + 1, 0, 4) == Ok([0x30, 0x30, 0, 0])
  {
    PutLayout(Tetrominos[0], Columns / 2 + 1, 0, 4);
    SpawnPlaced(Tetrominos[0], 4) by { CatalogueShapes(0); }
    var m := Put(Tetrominos[0], Columns / 2 + 1, 0, 4).value;
    assert Place(3, 4) == 0x30;
    assert |m| == 4 && m[0] == 0x30 && m[1] == 0x30 && m[2] == 0 && m[3] == 0;
    assert m == [0x30, 0x30, 0, 0];
  }

  /** On an empty board nothing is hit. */
  lemma EmptyHitsNothing(mino: seq<Row>)
    ensures !Overlaps(Zeros(4), mino)
  {
    forall i | 0 <= i < 4 ensures !HitsAt(Zeros(4), mino, i) {
      assert Zeros(4)[i] == 0;
    }
  }

  /** The O piece falls from the top lines to the middle lines, then to the bottom lines. */
  lemma FallO()
    ensures CanDown(Zeros(4), [0x30, 0x30, 0, 0]) == Some([0, 0x30, 0x30, 0])
    ensures CanDown(Zeros(4), [0, 0x30, 0x30, 0]) == Some([0, 0, 0x30, 0x30])
  {
    EmptyHitsNothing([0, 0x30, 0x30, 0]);
    EmptyHitsNothing([0, 0, 0x30, 0x30]);
    assert ShiftDown([0x30, 0x30, 0, 0]) == [0, 0x30, 0x30, 0];
    assert ShiftDown([0, 0x30, 0x30, 0]) == [0, 0, 0x30, 0x30];
  }

  /** On the bottom lines the O piece cannot fall; it sticks, and as no line is full the board
      keeps it where it is. */
  lemma LandO()
    ensures CanDown(Zeros(4), [0, 0, 0x30, 0x30]) == None
    ensures Settle(Zeros(4), [0, 0, 0x30, 0x30]) == [0, 0, 0x30, 0x30]
  {
    var m := Merged(Zeros(4), [0, 0, 0x30, 0x30]);
    assert m == [0, 0, 0x30, 0x30];
    var c := Cleared(m);
    assert c == [0, 0, 0x30, 0x30];
    assert c[1..] == [0, 0x30, 0x30] && c[2..] == [0x30, 0x30];
    assert c[3..] == [0x30] && c[4..] == [];
    assert Survivors(c) == [0x30, 0x30];
  }

  /** On an empty board of four lines, an O piece falls twice, to y = 2, and the third drop
      sticks it without ending the game: the two bottom lines then hold it. */
  method DropOToFloor() returns (fell: nat, over: bool, board: seq<Row>)
    ensures fell == 2 && !over && board == [0, 0, 0x30, 0x30]
  {
    var game := new Game(4, 0);
    SpawnO();
    FallO();
    LandO();
    game.Drop(0);
    game.Drop(0);
    fell := game.piece.y;
    game.Drop(0);
    over := game.gameOver;
    board := game.field.rows[..];
  }

  /** One column to the left on an empty board, for an O piece in the two top lines. */
  lemma SlideStep(e: Row)
    requires Fits(e) && e & LeftWall == 0
    ensures CanLeft(Zeros(4), [e, e, 0, 0]) == Some([Left1(e), Left1(e), 0, 0])
  {
    assert !TouchesLeft([e, e, 0, 0]);
    assert ShiftLeft([e, e, 0, 0]) == [Left1(e), Left1(e), 0, 0];
    EmptyHitsNothing([Left1(e), Left1(e), 0, 0]);
  }

  /** The O piece slides left from its spawn column until it touches the left wall, at the
      fourth move. */
  lemma SlideO(i: nat)
    ensures CanLeft(Zeros(4), Slid(i)) == if i < 4 then Some(Slid(i + 1)) else None
  {
    if i == 0 {
      SlideStep(0x30);
    } else if i == 1 {
      SlideStep(0x60);
    } else if i == 2 {
      SlideStep(0xC0);
    } else if i == 3 {
      SlideStep(0x180);
    } else {
      assert Slid(i)[0] & LeftWall != 0;
    }
  }

  /** Moving an O piece left six times after it appears: four moves take it to the left wall at
      x = 2, and the two after that leave it where it is. */
  method SlideOToWall() returns (xs: seq<int>)
    ensures xs == [6, 5, 4, 3, 2, 2, 2]
  {
    var game := new Game(4, 0);
    SpawnO();
    xs := [game.piece.x];
    for i := 0 to 6
      invariant game.Valid() && game.height == 4 && fresh(game.piece)
      invariant game.field.rows[..] == Zeros(4)
      invariant game.piece.x == SlidX(i) && game.piece.mino == Slid(i)
      invariant xs == SlidXs(i)
    {
      SlideOnce(game, i);
      xs := xs + [game.piece.x];
    }
    SlidSix();
  }

  /** The six columns after the six moves. */
  lemma SlidSix()
    ensures SlidXs(6) == [6, 5, 4, 3, 2, 2, 2]
  {
    assert SlidXs(1) == [6, 5];
    assert SlidXs(3) == [6, 5, 4, 3];
    assert SlidXs(5) == [6, 5, 4, 3, 2, 2];
  }

  /** The columns the O piece has been in after i moves to the left. */
  function SlidXs(i: nat): seq<int> {
    if i == 0 then [6] else SlidXs(i - 1) + [SlidX(i)]
  }

  /** One move to the left of the O piece on the empty board. */
  method SlideOnce(game: Game, i: nat)
    requires game.Valid() && game.height == 4 && game.field.rows[..] == Zeros(4)
    requires game.piece.x == SlidX(i) && game.piece.mino == Slid(i)
    modifies game.piece
    ensures game.Valid() && game.field.rows[..] == Zeros(4)
    ensures game.piece.x == SlidX(i + 1) && game.piece.mino == Slid(i + 1)
  {
    SlideO(i);
    game.piece.MoveLeft(game.field);
  }

  /** The O piece's column after i moves to the left from its spawn column. */
  function SlidX(i: nat): int {
    if i < 4 then 6 - i else 2
  }

  /** The O piece's rows after i moves to the left from its spawn column. */
  function Slid(i: nat): seq<Row> {
    if i == 0 then [0x30, 0x30, 0, 0]
    else if i == 1 then [0x60, 0x60, 0, 0]
    else if i == 2 then [0xC0, 0xC0, 0, 0]
    else if i == 3 then [0x180, 0x180, 0, 0]
    else [0x300, 0x300, 0, 0]
  }

  // ---------------------------------------------------------------------------------------
  // A turn at the left wall.

  /** A standing I piece against the left wall (x = 2) turned to lie flat: as written, `_put`
      gives a top row whose two leftmost cells are past the wall, on columns the board does not
      have; the model refuses the turn. */
  lemma TurnAtLeftWallSpills()
    ensures PutAsWritten([0xF, 0, 0, 0], 2, 0, 4) == Ok([0xF00, 0, 0, 0]) && !Fits(0xF00)
    ensures Put([0xF, 0, 0, 0], 2, 0, 4) == Err(OffBoard)
  {
    AsWrittenLayout([0xF, 0, 0, 0], 2, 0, 4);
    var w := PutAsWritten([0xF, 0, 0, 0], 2, 0, 4).value;
    assert JsPlace(0xF, 2) == 0xF00;
    assert JsPlace(0, 2) == 0;
    assert w[0] == 0xF00 && w[1] == 0 && w[2] == 0 && w[3] == 0;
    assert w == [0xF00, 0, 0, 0];
    PutRefusesSpills([0xF, 0, 0, 0], 2, 0, 4);
  }

  /** A row with a spilled cell is never cleared: once that top row has fallen onto a bottom
      line whose other eight columns are occupied, all ten columns are occupied, yet the row is
      not `full_line`, so `stick` keeps it. */
  lemma SpilledRowNeverClears()
    ensures Settle([0, 0, 0, 0xFF], [0, 0, 0, 0xF00]) == [0, 0, 0, 0xFFF]
    ensures 0xFFF & FullLine == FullLine
  {
    var m := Merged([0, 0, 0, 0xFF], [0, 0, 0, 0xF00]);
    assert m == [0, 0, 0, 0xFFF];
    var c := Cleared(m);
    assert c == [0, 0, 0, 0xFFF];
    assert c[1..] == [0, 0, 0xFFF] && c[2..] == [0, 0xFFF];
    assert c[3..] == [0xFFF] && c[4..] == [];
    assert Survivors(c) == [0xFFF];
  }

  // ---------------------------------------------------------------------------------------
  // A turn past the right wall.

  /** A J piece at x = COL has an empty right column in its box, so it moves right once more, to
      x = COL + 1, where the shape has no placement on the board. */
  lemma JPastRightWall()
    ensures Put(Tetrominos[5], Columns, 0, 4) == Ok([2, 2, 6, 0])
    ensures CanRight(Zeros(4), [2, 2, 6, 0]) == Some([1, 1, 3, 0])
    ensures Put(Tetrominos[5], Columns + 1, 0, 4) == Err(OffBoard)
  {
    PutFrom(Tetrominos[5], Columns, 0, 4, [2, 2, 6, 0]);
    assert !TouchesRight([2, 2, 6, 0]);
    EmptyHitsNothing([1, 1, 3, 0]);
    assert ShiftRight([2, 2, 6, 0]) == [1, 1, 3, 0];
  }

  /** The J piece turned at x = COL + 1: `_put` as written shifts by `COL - x = -1`, which
      JavaScript takes as 31, so one cell lands on bit 31, the sign bit, where `> 0` never sees
      it, and the others are lost. The model refuses the turn. */
  lemma TurnPastRightWall()
    ensures PutAsWritten([4, 7, 0], Columns + 1, 0, 4) == Ok([0, 0x8000_0000, 0, 0])
    ensures !Positive(0x8000_0000)
    ensures Put([4, 7, 0], Columns + 1, 0, 4) == Err(OffBoard)
  {
    AsWrittenLayout([4, 7, 0], Columns + 1, 0, 4);
    var w := PutAsWritten([4, 7, 0], Columns + 1, 0, 4).value;
    assert JsPlace(4, Columns + 1) == 0;
    assert JsPlace(7, Columns + 1) == 0x8000_0000;
    assert JsPlace(0, Columns + 1) == 0;
    assert w[0] == 0 && w[1] == 0x8000_0000 && w[2] == 0 && w[3] == 0;
    assert w == [0, 0x8000_0000, 0, 0];
  }

  /** The rows of a standing I piece i columns left of where the first turn leaves it. */
  function Standing(i: nat): seq<Row> {
    if i == 0 then [0x20, 0x20, 0x20, 0x20]
    else if i == 1 then [0x40, 0x40, 0x40, 0x40]
    else if i == 2 then [0x80, 0x80, 0x80, 0x80]
    else if i == 3 then [0x100, 0x100, 0x100, 0x100]
    else [0x200, 0x200, 0x200, 0x200]
  }

  /** The I piece appears lying in the second line. */
  lemma SpawnI()
    ensures Put(Tetrominos[6], Columns / 2 + 1, 0, 4) == Ok([0, 0xF0, 0, 0])
  {
    CatalogueShapes(6);
    SpawnPlaced(Tetrominos[6], 4);
    PutLayout(Tetrominos[6], Columns / 2 + 1, 0, 4);
    var m := Put(Tetrominos[6], Columns / 2 + 1, 0, 4).value;
    assert Place(0xF, 4) == 0xF0;
    assert Place(0, 4) == 0;
    assert m[0] == 0 && m[1] == 0xF0 && m[2] == 0 && m[3] == 0;
    assert m == [0, 0xF0, 0, 0];
  }

  /** The first turn stands the I piece up in the column left of the middle. */
  lemma StandI()
    ensures Put([2, 2, 2, 2], Columns / 2 + 1, 0, 4) == Ok(Standing(0))
  {
    ILiesOnTop();
    SpawnPlaced([2, 2, 2, 2], 4);
    PutLayout([2, 2, 2, 2], Columns / 2 + 1, 0, 4);
    var n := Put([2, 2, 2, 2], Columns / 2 + 1, 0, 4).value;
    assert Place(2, 4) == 0x20;
    assert n[0] == 0x20 && n[1] == 0x20 && n[2] == 0x20 && n[3] == 0x20;
    assert n == Standing(0);
  }

  /** One column to the left on an empty board, for a standing I piece. */
  lemma StandStep(e: Row)
    requires Fits(e) && e & LeftWall == 0
    ensures CanLeft(Zeros(4), [e, e, e, e]) == Some([Left1(e), Left1(e), Left1(e), Left1(e)])
  {
    assert !TouchesLeft([e, e, e, e]);
    assert ShiftLeft([e, e, e, e]) == [Left1(e), Left1(e), Left1(e), Left1(e)];
    EmptyHitsNothing([Left1(e), Left1(e), Left1(e), Left1(e)]);
  }

  lemma SlideStanding(i: nat)
    requires i < 4
    ensures CanLeft(Zeros(4), Standing(i)) == Some(Standing(i + 1))
  {
    if i == 0 {
      StandStep(0x20);
    } else if i == 1 {
      StandStep(0x40);
    } else if i == 2 {
      StandStep(0x80);
    } else {
      StandStep(0x100);
    }
  }

  /** On an empty board of four lines, an I piece is turned, pushed four columns to the left
      against the wall, and turned again: the second turn is refused, where the source would
      have put part of the piece past the wall. */
  method TurnIAtLeftWall() returns (x: int, shape: seq<Row>, failure: Option<PutError>)
    ensures x == 2 && shape == [2, 2, 2, 2] && failure == Some(OffBoard)
    ensures IsShape(shape) && PutAsWritten(Rotation(shape), x, 0, 4) == Ok([0xF00, 0, 0, 0])
  {
    var game := new Game(4, 6);
    SpawnI();
    StandI();
    IStands();
    var f := game.piece.Rotate();
    assert game.piece.shape == [2, 2, 2, 2];
    var i := 0;
    while i < 4
      invariant 0 <= i <= 4
      invariant game.Valid() && game.height == 4 && !game.gameOver
      invariant fresh(game.field) && fresh(game.field.rows) && fresh(game.piece)
      invariant game.field.rows[..] == Zeros(4)
      invariant game.piece.x == 6 - i && game.piece.y == 0 && game.piece.shape == [2, 2, 2, 2]
      invariant game.piece.mino == Standing(i)
    {
      SlideStanding(i);
      game.piece.MoveLeft(game.field);
      i := i + 1;
    }
    TurnAtLeftWallSpills();
    ILiesOnTop();
    failure := game.piece.Rotate();
    x, shape := game.piece.x, game.piece.shape;
  }
}
