/**
 * Piece shapes and the rotation of tetris.js:127-143.
 *
 * A shape is the list of rows of the piece's own S x S box (S = 2 for O, 3 for T, S, Z, L, J
 * and 4 for I); bit c of row r is cell (r, c) of the box, counted from the right.
 */
module Shapes {
  import opened Bits

  /** The catalogue of tetris.js:12-20, in the source's order. */
  const Tetrominos: seq<seq<Row>> := [
    [0x3, 0x3],            // O
    [0x7, 0x2, 0x0],       // T
    [0x3, 0x6, 0x0],       // S
    [0x6, 0x3, 0x0],       // Z
    [0x2, 0x2, 0x3],       // L
    [0x2, 0x2, 0x6],       // J
    [0x0, 0xF, 0x0, 0x0]   // I
  ]

  /** 2^n for the box widths the catalogue uses. */
  function Span(n: nat): Row
    requires n <= 4
  {
    if n == 0 then 1 else if n == 1 then 2 else if n == 2 then 4 else if n == 3 then 8 else 16
  }

  /** The occupied cells (row, column) of a shape's box. */
  ghost function Cells(s: seq<Row>): set<(int, int)>
    requires |s| <= 4
  {
    set r, c | 0 <= r < |s| && 0 <= c < |s| && Bit(s[r], c) :: (r, c)
  }

  /** A well-formed shape: a box of 1 to 4 rows, no row using a column outside the box, and
      at least one occupied cell. */
  ghost predicate IsShape(s: seq<Row>) {
    1 <= |s| <= 4 && (forall r :: 0 <= r < |s| ==> Below(s[r], Span(|s|))) && Cells(s) != {}
  }

  predicate HasNonzero(t: seq<Row>) {
    exists r :: 0 <= r < |t| && t[r] != 0
  }

  // ---------------------------------------------------------------------------------------
  // Bit facts for the small shift amounts of a box (at most 4 columns).

  /** Cell k (counted from the right) of row e is occupied. */
  predicate Bit(e: Row, k: nat)
    requires k < 4
  {
    e & Span(k) != 0
  }

  /** `(e >> k) & 1`, the value of cell k of row e (tetris.js:133), spelled out for the four
      columns a box can have. */
  function CellBit(e: Row, k: nat): Row
    requires k < 4
  {
    if k == 0 then e & 1 else if k == 1 then (e >> 1) & 1 else if k == 2 then (e >> 2) & 1
    else (e >> 3) & 1
  }

  lemma CellBitValue(e: Row, k: nat)
    requires k < 4
    ensures CellBit(e, k) == if Bit(e, k) then 1 else 0
  {
    if k == 0 {} else if k == 1 {} else if k == 2 {} else {}
  }

  /** `b << i`, a cell value moved to column i (tetris.js:134), spelled out for the four columns
      a box can have. */
  function Shl(b: Row, i: nat): Row
    requires i < 4
  {
    if i == 0 then b else if i == 1 then b << 1 else if i == 2 then b << 2 else b << 3
  }

  lemma ShlValue(b: Row, i: nat)
    requires b <= 1 && i < 4
    ensures Shl(b, i) == if b == 1 then Span(i) else 0
  {
    if i == 0 {} else if i == 1 {} else if i == 2 {} else {}
  }

  /** A row inside a box of width n that has an occupied cell. */
  lemma NonzeroHasCell(e: Row, n: nat)
    requires 1 <= n <= 4 && e < Span(n) && e != 0
    ensures exists c :: 0 <= c < n && Bit(e, c)
  {
    if n == 1 {
      assert Bit(e, 0);
    } else if n == 2 {
      assert Bit(e, 0) || Bit(e, 1);
    } else if n == 3 {
      assert Bit(e, 0) || Bit(e, 1) || Bit(e, 2);
    } else {
      assert Bit(e, 0) || Bit(e, 1) || Bit(e, 2) || Bit(e, 3);
    }
  }

  /** Two rows of a box of width n with the same cells are the same row. */
  lemma SameCells(a: Row, b: Row, n: nat)
    requires 1 <= n <= 4 && a < Span(n) && b < Span(n)
    requires forall c :: 0 <= c < n ==> (Bit(a, c) <==> Bit(b, c))
    ensures a == b
  {
    assert Bit(a, 0) <==> Bit(b, 0);
    if n >= 2 { assert Bit(a, 1) <==> Bit(b, 1); }
    if n >= 3 { assert Bit(a, 2) <==> Bit(b, 2); }
    if n >= 4 { assert Bit(a, 3) <==> Bit(b, 3); }
  }

  /** Two finite sets in one-to-one correspondence have the same size. */
  lemma {:induction false} CardBijection<T, U>(s: set<T>, image: set<U>, f: T -> U, g: U -> T)
    requires forall a :: a in s ==> f(a) in image && g(f(a)) == a
    requires forall b :: b in image ==> g(b) in s && f(g(b)) == b
    ensures |image| == |s|
  {
    if s == {} {
      assert image == {};
    } else {
      var a :| a in s;
      CardBijection(s - {a}, image - {f(a)}, f, g);
    }
  }

  // ---------------------------------------------------------------------------------------
  // The turn: new row j, cell i is old row i, cell S-1-j.

  /** Row j of the turned box once the outer loop of tetris.js:130-136 has read rows 0..i-1. */
  function TurnRow(s: seq<Row>, j: nat, i: nat): Row
    requires j < |s| <= 4 && i <= |s|
  {
    if i == 0 then 0 else Fuse(Shl(CellBit(s[i - 1], |s| - 1 - j), i - 1), TurnRow(s, j, i - 1))
  }

  /** One more row of the shape read into row j of the turned box. */
  lemma TurnRowStep(s: seq<Row>, j: nat, i: nat)
    requires j < |s| <= 4 && i < |s|
    ensures TurnRow(s, j, i + 1) == Fuse(Shl(CellBit(s[i], |s| - 1 - j), i), TurnRow(s, j, i))
  {
  }

  /** The box turned a quarter: what the two nested loops of tetris.js:129-136 leave in `t`. */
  function Turn(s: seq<Row>): (t: seq<Row>)
    requires |s| <= 4
    ensures |t| == |s|
  {
    seq(|s|, j requires 0 <= j < |s| => TurnRow(s, j, |s|))
  }

  lemma {:induction false} TurnRowBit(s: seq<Row>, j: nat, i: nat, k: nat)
    requires j < |s| <= 4 && i <= |s| && k < 4
    ensures Bit(TurnRow(s, j, i), k) <==> k < i && Bit(s[k], |s| - 1 - j)
    ensures TurnRow(s, j, i) < Span(i)
  {
    if i > 0 {
      TurnRowBit(s, j, i - 1, k);
      CellBitValue(s[i - 1], |s| - 1 - j);
      ShlValue(CellBit(s[i - 1], |s| - 1 - j), i - 1);
    }
  }

  /** Cell i of row j of the turned box is cell S-1-j of row i of the original, and the turned
      box uses no column outside the box. */
  lemma TurnCell(s: seq<Row>, j: nat, i: nat)
    requires j < |s| <= 4 && i < |s|
    ensures Bit(Turn(s)[j], i) <==> Bit(s[i], |s| - 1 - j)
    ensures Below(Turn(s)[j], Span(|s|))
  {
    TurnRowBit(s, j, |s|, i);
  }

  function Quarter(n: int, p: (int, int)): (int, int) {
    (n - 1 - p.1, p.0)
  }

  function Unquarter(n: int, q: (int, int)): (int, int) {
    (q.1, n - 1 - q.0)
  }

  lemma TurnCellsSub(s: seq<Row>)
    requires |s| <= 4
    ensures forall q :: q in Cells(Turn(s)) ==> q in set p | p in Cells(s) :: Quarter(|s|, p)
  {
    var n := |s|;
    var t := Turn(s);
    forall q | q in Cells(t) ensures q in set p | p in Cells(s) :: Quarter(n, p) {
      var r, c := q.0, q.1;
      assert 0 <= r < n && 0 <= c < n && Bit(t[r], c);
      TurnCell(s, r, c);
      var p := (c, n - 1 - r);
      assert p in Cells(s);
      assert Quarter(n, p) == q;
    }
  }
  lemma TurnCellsSup(s: seq<Row>)
    requires |s| <= 4
    ensures forall p :: p in Cells(s) ==> Quarter(|s|, p) in Cells(Turn(s))
  {
    var n := |s|;
    var t := Turn(s);
    forall p | p in Cells(s) ensures Quarter(n, p) in Cells(t) {
      var r, c := p.0, p.1;
      assert 0 <= r < n && 0 <= c < n && Bit(s[r], c);
      TurnCell(s, n - 1 - c, r);
      assert Bit(t[n - 1 - c], r);
    }
  }

  /** The turn keeps the number of occupied cells. */
  lemma TurnCells(s: seq<Row>)
    requires |s| <= 4
    ensures |Cells(Turn(s))| == |Cells(s)|
  {
    var n := |s|;
    TurnCellsSub(s);
    TurnCellsSup(s);
    CardBijection(Cells(s), Cells(Turn(s)), p => Quarter(n, p), q => Unquarter(n, q));
  }

  // ---------------------------------------------------------------------------------------
  // Moving empty top rows to the bottom (tetris.js:137-139).

  /** Number of empty rows above the first occupied one. */
  function LeadingZeros(t: seq<Row>): (k: nat)
    ensures k <= |t|
  {
    if t == [] || t[0] != 0 then 0 else 1 + LeadingZeros(t[1..])
  }

  lemma {:induction false} LeadingZerosAt(t: seq<Row>)
    requires HasNonzero(t)
    ensures LeadingZeros(t) < |t| && t[LeadingZeros(t)] != 0
    ensures forall i :: 0 <= i < LeadingZeros(t) ==> t[i] == 0
  {
    if t[0] == 0 {
      var r :| 0 <= r < |t| && t[r] != 0;
      assert t[1..][r - 1] != 0;
      LeadingZerosAt(t[1..]);
    }
  }

  lemma {:induction false} LeadingZerosAppend(u: seq<Row>, z: Row)
    requires HasNonzero(u)
    ensures LeadingZeros(u + [z]) == LeadingZeros(u)
  {
    if u[0] == 0 {
      var r :| 0 <= r < |u| && u[r] != 0;
      assert u[1..][r - 1] != 0;
      assert (u + [z])[1..] == u[1..] + [z];
      LeadingZerosAppend(u[1..], z);
    }
  }

  /** One pass of `t = [...t.slice(1, t.length), 0]`: the top row goes, an empty row comes in at
      the bottom. */
  function Lift(t: seq<Row>): (u: seq<Row>)
    requires |t| >= 1
    ensures |u| == |t|
  {
    t[1..] + [0]
  }

  function Raise(p: (int, int)): (int, int) {
    (p.0 - 1, p.1)
  }

  function Lower(q: (int, int)): (int, int) {
    (q.0 + 1, q.1)
  }

  lemma LiftProgress(t: seq<Row>)
    requires HasNonzero(t) && t[0] == 0
    ensures HasNonzero(Lift(t)) && LeadingZeros(Lift(t)) == LeadingZeros(t) - 1
  {
    var r :| 0 <= r < |t| && t[r] != 0;
    assert t[1..][r - 1] != 0;
    assert Lift(t)[r - 1] != 0;
    LeadingZerosAppend(t[1..], 0);
  }

  /** The `while (t[0] === 0)` loop of tetris.js:137-139, which ends because some row is
      occupied. */
  function Normalize(t: seq<Row>): (u: seq<Row>)
    requires HasNonzero(t)
    ensures |u| == |t|
    decreases LeadingZeros(t)
  {
    if t[0] == 0 then LiftProgress(t); Normalize(Lift(t)) else t
  }


  /** Normalizing rotates the row list so that its leading empty rows move, in a block, to the
      bottom; the first row of the result is occupied. */
  lemma NormalizeMovesLeadingZeros(t: seq<Row>)
    requires HasNonzero(t)
    ensures var k := LeadingZeros(t);
      Normalize(t) == t[k..] + t[..k] && t[..k] == Zeros(k) && Normalize(t)[0] != 0
  {
    var k := LeadingZeros(t);
    NormalizeRotates(t);
    LeadingZerosAt(t);
    assert t[..k] == Zeros(k);
    assert Normalize(t)[0] == t[k];
  }

  lemma {:induction false} NormalizeRotates(t: seq<Row>)
    requires HasNonzero(t)
    ensures var k := LeadingZeros(t); Normalize(t) == t[k..] + t[..k]
    decreases LeadingZeros(t)
  {
    if t[0] != 0 {
      assert t[..0] == [] && t[0..] == t;
    } else {
      LiftProgress(t);
      NormalizeRotates(Lift(t));
      LiftRotates(t, LeadingZeros(t));
    }
  }

  /** Rotating the lifted rows by one row fewer is rotating the rows themselves. */
  lemma LiftRotates(t: seq<Row>, k: nat)
    requires 1 <= k <= |t| && t[0] == 0
    ensures var u := Lift(t); u[k - 1..] + u[..k - 1] == t[k..] + t[..k]
  {
    var u := Lift(t);
    assert u[k - 1..] == t[k..] + [0];
    assert u[..k - 1] == t[1..k];
    assert t[..k] == [0] + t[1..k];
  }

  /** Lifting a box whose top row is empty keeps the number of occupied cells. */
  lemma LiftCells(t: seq<Row>)
    requires 1 <= |t| <= 4 && t[0] == 0
    ensures |Cells(Lift(t))| == |Cells(t)|
  {
    var u := Lift(t);
    var n := |t|;
    forall q | q in Cells(u) ensures (q.0 + 1, q.1) in Cells(t) {
      var r, c := q.0, q.1;
      assert 0 <= r < n && 0 <= c < n && Bit(u[r], c);
      assert u[n - 1] == 0;
      assert r + 1 < n;
      assert u[r] == t[r + 1];
    }
    forall p | p in Cells(t) ensures Raise(p) in Cells(u) {
      var r, c := p.0, p.1;
      assert 0 <= r < n && 0 <= c < n && Bit(t[r], c);
      assert r != 0;
      assert u[r - 1] == t[r];
    }
    CardBijection(Cells(t), Cells(u), Raise, Lower);
  }
  /** Row e is below the bound w. */
  predicate Below(e: Row, w: Row) {
    e < w
  }

  /** Lifting keeps every row below the bound w. */
  lemma LiftKeepsBound(t: seq<Row>, w: Row)
    requires 1 <= |t| && w != 0
    requires forall r :: 0 <= r < |t| ==> Below(t[r], w)
    ensures forall r :: 0 <= r < |t| ==> Below(Lift(t)[r], w)
  {
    var u := Lift(t);
    forall r | 0 <= r < |t| ensures Below(u[r], w) {
      if r == |t| - 1 { assert u[r] == 0; } else { assert u[r] == t[r + 1]; }
    }
  }

  /** Normalizing keeps every row below the bound w (in particular inside the box). */
  lemma {:induction false} NormalizeKeepsBound(t: seq<Row>, w: Row)
    requires HasNonzero(t) && w != 0
    requires forall r :: 0 <= r < |t| ==> Below(t[r], w)
    ensures forall r :: 0 <= r < |t| ==> Below(Normalize(t)[r], w)
    decreases LeadingZeros(t)
  {
    if t[0] == 0 {
      LiftProgress(t);
      LiftKeepsBound(t, w);
      NormalizeKeepsBound(Lift(t), w);
      assert Normalize(t) == Normalize(Lift(t));
    }
  }

  /** Normalizing keeps the number of occupied cells. */
  lemma {:induction false} NormalizeKeepsCells(t: seq<Row>)
    requires HasNonzero(t) && 1 <= |t| <= 4
    ensures |Cells(Normalize(t))| == |Cells(t)|
    decreases LeadingZeros(t)
  {
    if t[0] == 0 {
      LiftProgress(t);
      LiftCells(t);
      NormalizeKeepsCells(Lift(t));
    }
  }

  lemma CellsNonzero(s: seq<Row>)
    requires 1 <= |s| <= 4 && Cells(s) != {}
    ensures HasNonzero(s)
  {
    var p :| p in Cells(s);
    assert s[p.0] != 0;
  }

  /** The shape `rotate()` stores in `tetromino` (tetris.js:128-140). */
  function Rotation(s: seq<Row>): (r: seq<Row>)
    requires IsShape(s)
    ensures |r| == |s|
  {
    TurnCells(s);
    CellsNonzero(Turn(s));
    Normalize(Turn(s))
  }

  /** Every row of the rotated shape stays inside the box. */
  lemma RotationInBox(s: seq<Row>)
    requires IsShape(s)
    ensures forall r :: 0 <= r < |s| ==> Below(Rotation(s)[r], Span(|s|))
  {
    var t := Turn(s);
    var w := Span(|s|);
    TurnCells(s);
    CellsNonzero(t);
    forall j | 0 <= j < |s| ensures Below(t[j], w) {
      TurnCell(s, j, 0);
    }
    NormalizeKeepsBound(t, w);
    assert Rotation(s) == Normalize(t);
  }

  /** The rotated shape has as many occupied cells as the shape. */
  lemma RotationCells(s: seq<Row>)
    requires IsShape(s)
    ensures |Cells(Rotation(s))| == |Cells(s)|
  {
    var t := Turn(s);
    TurnCells(s);
    CellsNonzero(t);
    NormalizeKeepsCells(t);
  }

  /** The rotated shape's top row is occupied. */
  lemma RotationTop(s: seq<Row>)
    requires IsShape(s)
    ensures Rotation(s)[0] != 0
  {
    var t := Turn(s);
    TurnCells(s);
    CellsNonzero(t);
    NormalizeMovesLeadingZeros(t);
  }

  /** Rotating a shape gives a shape with the same box, the same number of occupied cells, and
      an occupied top row. */
  lemma RotationIsShape(s: seq<Row>)
    requires IsShape(s)
    ensures IsShape(Rotation(s)) && |Rotation(s)| == |s|
    ensures |Cells(Rotation(s))| == |Cells(s)|
    ensures Rotation(s)[0] != 0
  {
    RotationInBox(s);
    RotationCells(s);
    RotationTop(s);
    assert Cells(Rotation(s)) != {};
  }

  // ---------------------------------------------------------------------------------------
  // The catalogue.

  /** Every catalogue entry is a well-formed shape whose rows fit in four columns. */
  lemma CatalogueShapes(kind: nat)
    requires kind < |Tetrominos|
    ensures IsShape(Tetrominos[kind]) && |Tetrominos[kind]| <= 4
  {
    if kind == 0 {
      assert (0, 1) in Cells([0x3, 0x3]);
    } else if kind == 1 {
      assert (0, 1) in Cells([0x7, 0x2, 0x0]);
    } else if kind == 2 {
      assert (0, 1) in Cells([0x3, 0x6, 0x0]);
    } else if kind == 3 {
      assert (0, 1) in Cells([0x6, 0x3, 0x0]);
    } else if kind == 4 {
      assert (0, 1) in Cells([0x2, 0x2, 0x3]);
    } else if kind == 5 {
      assert (0, 1) in Cells([0x2, 0x2, 0x6]);
    } else {
      assert (1, 0) in Cells([0x0, 0xF, 0x0, 0x0]);
    }
  }

  /** The O piece is its own rotation. */
  lemma RotationKeepsO()
    ensures IsShape(Tetrominos[0]) && Rotation(Tetrominos[0]) == Tetrominos[0]
  {
    var o := Tetrominos[0];
    CatalogueShapes(0);
    var t := Turn(o);
    forall j | 0 <= j < 2 ensures t[j] == o[j] {
      TurnCell(o, j, 0);
      TurnCell(o, j, 1);
      SameCells(t[j], o[j], 2);
    }
    assert t == o;
  }

  /** The I piece stands up, then lies on the top row of its box, and from there every two
      turns bring it back: after the first turn, rotation has period two. */
  lemma RotationOfI()
    ensures IsShape(Tetrominos[6]) && Rotation(Tetrominos[6]) == [2, 2, 2, 2]
    ensures IsShape([2, 2, 2, 2]) && Rotation([2, 2, 2, 2]) == [0xF, 0, 0, 0]
    ensures IsShape([0xF, 0, 0, 0]) && Rotation([0xF, 0, 0, 0]) == [1, 1, 1, 1]
    ensures IsShape([1, 1, 1, 1]) && Rotation([1, 1, 1, 1]) == [0xF, 0, 0, 0]
  {
    IStands();
    ILiesOnTop();
    IStandsRight();
    ILiesOnTopAgain();
  }

  lemma IStands()
    ensures IsShape([0, 0xF, 0, 0]) && Rotation([0, 0xF, 0, 0]) == [2, 2, 2, 2]
  {
    CatalogueShapes(6);
    assert TurnRow([0, 0xF, 0, 0], 0, 4) == 2;
    assert TurnRow([0, 0xF, 0, 0], 1, 4) == 2;
    assert TurnRow([0, 0xF, 0, 0], 2, 4) == 2;
    assert TurnRow([0, 0xF, 0, 0], 3, 4) == 2;
    assert Turn([0, 0xF, 0, 0]) == [2, 2, 2, 2];
  }

  lemma ILiesOnTop()
    ensures IsShape([2, 2, 2, 2]) && Rotation([2, 2, 2, 2]) == [0xF, 0, 0, 0]
  {
    assert (0, 1) in Cells([2, 2, 2, 2]);
    assert TurnRow([2, 2, 2, 2], 0, 4) == 0;
    assert TurnRow([2, 2, 2, 2], 1, 4) == 0;
    assert TurnRow([2, 2, 2, 2], 2, 4) == 0xF;
    assert TurnRow([2, 2, 2, 2], 3, 4) == 0;
    assert Turn([2, 2, 2, 2]) == [0, 0, 0xF, 0];
    assert Lift([0, 0, 0xF, 0]) == [0, 0xF, 0, 0];
    assert Lift([0, 0xF, 0, 0]) == [0xF, 0, 0, 0];
  }

  lemma IStandsRight()
    ensures IsShape([0xF, 0, 0, 0]) && Rotation([0xF, 0, 0, 0]) == [1, 1, 1, 1]
  {
    assert (0, 0) in Cells([0xF, 0, 0, 0]);
    assert TurnRow([0xF, 0, 0, 0], 0, 4) == 1;
    assert TurnRow([0xF, 0, 0, 0], 1, 4) == 1;
    assert TurnRow([0xF, 0, 0, 0], 2, 4) == 1;
    assert TurnRow([0xF, 0, 0, 0], 3, 4) == 1;
    assert Turn([0xF, 0, 0, 0]) == [1, 1, 1, 1];
  }

  lemma ILiesOnTopAgain()
    ensures IsShape([1, 1, 1, 1]) && Rotation([1, 1, 1, 1]) == [0xF, 0, 0, 0]
  {
    assert (0, 0) in Cells([1, 1, 1, 1]);
    assert TurnRow([1, 1, 1, 1], 0, 4) == 0;
    assert TurnRow([1, 1, 1, 1], 1, 4) == 0;
    assert TurnRow([1, 1, 1, 1], 2, 4) == 0;
    assert TurnRow([1, 1, 1, 1], 3, 4) == 0xF;
    assert Turn([1, 1, 1, 1]) == [0, 0, 0, 0xF];
    assert Lift([0, 0, 0, 0xF]) == [0, 0, 0xF, 0];
    assert Lift([0, 0, 0xF, 0]) == [0, 0xF, 0, 0];
    assert Lift([0, 0xF, 0, 0]) == [0xF, 0, 0, 0];
  }

  /** Four turns of the J piece do not bring it back: it comes back one column to the right
      inside its box, because the empty top rows a turn leaves are moved away and empty columns
      are not. */
  lemma RotationOfJ()
    ensures IsShape(Tetrominos[5]) && Rotation(Tetrominos[5]) == [4, 7, 0]
    ensures IsShape([4, 7, 0]) && Rotation([4, 7, 0]) == [3, 2, 2]
    ensures IsShape([3, 2, 2]) && Rotation([3, 2, 2]) == [7, 1, 0]
    ensures IsShape([7, 1, 0]) && Rotation([7, 1, 0]) == [1, 1, 3]
    ensures Tetrominos[5] != [1, 1, 3]
  {
    JTurn1();
    JTurn2();
    JTurn3();
    JTurn4();
  }

  lemma JTurn1()
    ensures IsShape([2, 2, 6]) && Rotation([2, 2, 6]) == [4, 7, 0]
  {
    CatalogueShapes(5);
    assert TurnRow([2, 2, 6], 0, 3) == 4;
    assert TurnRow([2, 2, 6], 1, 3) == 7;
    assert TurnRow([2, 2, 6], 2, 3) == 0;
    assert Turn([2, 2, 6]) == [4, 7, 0];
  }

  lemma JTurn2()
    ensures IsShape([4, 7, 0]) && Rotation([4, 7, 0]) == [3, 2, 2]
  {
    assert (0, 2) in Cells([4, 7, 0]);
    assert TurnRow([4, 7, 0], 0, 3) == 3;
    assert TurnRow([4, 7, 0], 1, 3) == 2;
    assert TurnRow([4, 7, 0], 2, 3) == 2;
    assert Turn([4, 7, 0]) == [3, 2, 2];
  }

  lemma JTurn3()
    ensures IsShape([3, 2, 2]) && Rotation([3, 2, 2]) == [7, 1, 0]
  {
    assert (0, 0) in Cells([3, 2, 2]);
    assert TurnRow([3, 2, 2], 0, 3) == 0;
    assert TurnRow([3, 2, 2], 1, 3) == 7;
    assert TurnRow([3, 2, 2], 2, 3) == 1;
    assert Turn([3, 2, 2]) == [0, 7, 1];
    assert Lift([0, 7, 1]) == [7, 1, 0];
  }

  lemma JTurn4()
    ensures IsShape([7, 1, 0]) && Rotation([7, 1, 0]) == [1, 1, 3]
  {
    assert (0, 0) in Cells([7, 1, 0]);
    assert TurnRow([7, 1, 0], 0, 3) == 1;
    assert TurnRow([7, 1, 0], 1, 3) == 1;
    assert TurnRow([7, 1, 0], 2, 3) == 3;
    assert Turn([7, 1, 0]) == [1, 1, 3];
  }
}
