/**
 * What `stick` (tetris.js:33-44) does to the rows of the board, as functions of the rows:
 * the piece's mask is OR-ed in, every full row is emptied, and the positive rows fall to the
 * bottom in their original order, with empty rows filling the top.
 */
module Compaction {
  import opened Bits

  /** A full row is emptied, any other is kept (tetris.js:37-39). */
  function ClearRow(r: Row): (c: Row)
    ensures c != FullLine && (c == r || c == 0)
  {
    if r == FullLine then 0 else r
  }

  /** The board with the mask OR-ed into every row. */
  function Merged(space: seq<Row>, mask: seq<Row>): (m: seq<Row>)
    ensures |m| == |space|
  {
    seq(|space|, i requires 0 <= i < |space| => Fuse(space[i], MaskAt(mask, i)))
  }

  /** The rows with every full row emptied. */
  function Cleared(s: seq<Row>): (c: seq<Row>)
    ensures |c| == |s|
    ensures forall i :: 0 <= i < |c| ==> c[i] != FullLine && (c[i] == s[i] || c[i] == 0)
  {
    seq(|s|, i requires 0 <= i < |s| => ClearRow(s[i]))
  }

  /** `space.filter(e => e > 0)` (tetris.js:41). */
  function Survivors(s: seq<Row>): (r: seq<Row>)
    ensures |r| <= |s|
    ensures forall i :: 0 <= i < |r| ==> Positive(r[i])
  {
    if s == [] then []
    else if Positive(s[0]) then [s[0]] + Survivors(s[1..])
    else Survivors(s[1..])
  }

  /** `[...new Array(line_count - r.length), ...r]` (tetris.js:42): the survivors at the bottom,
      empty rows above them. */
  function Compact(s: seq<Row>): (c: seq<Row>)
    ensures |c| == |s|
  {
    Zeros(|s| - |Survivors(s)|) + Survivors(s)
  }

  /** The board `stick` leaves behind, before the next piece is spawned. */
  function Settle(space: seq<Row>, mask: seq<Row>): (after: seq<Row>)
    ensures |after| == |space|
  {
    Compact(Cleared(Merged(space, mask)))
  }

  /** The rows of `s` that are positive and not full, in order: the rows that stay on the board. */
  function Kept(s: seq<Row>): seq<Row> {
    if s == [] then []
    else if Positive(s[0]) && s[0] != FullLine then [s[0]] + Kept(s[1..])
    else Kept(s[1..])
  }

  /** The number of full rows of `s`: the lines a `stick` clears. */
  function CountFull(s: seq<Row>): nat {
    if s == [] then 0 else (if s[0] == FullLine then 1 else 0) + CountFull(s[1..])
  }

  // ---------------------------------------------------------------------------------------
  // The filter.

  lemma {:induction false} SurvivorsAppend(a: seq<Row>, b: seq<Row>)
    ensures Survivors(a + b) == Survivors(a) + Survivors(b)
  {
    if a != [] {
      var ab := a + b;
      assert ab[0] == a[0] && ab[1..] == a[1..] + b;
      SurvivorsAppend(a[1..], b);
      if Positive(a[0]) {
        calc {
          Survivors(ab);
          [a[0]] + Survivors(a[1..] + b);
          [a[0]] + (Survivors(a[1..]) + Survivors(b));
          ([a[0]] + Survivors(a[1..])) + Survivors(b);
        }
      }
    } else {
      assert a + b == b;
    }
  }

  /** Rows that are not positive contribute nothing to the survivors. */
  lemma {:induction false} SurvivorsNone(s: seq<Row>)
    requires forall i :: 0 <= i < |s| ==> !Positive(s[i])
    ensures Survivors(s) == []
  {
    if s != [] {
      SurvivorsNone(s[1..]);
    }
  }

  /** Filtering rows that are all positive keeps them all. */
  lemma {:induction false} SurvivorsAll(s: seq<Row>)
    requires forall i :: 0 <= i < |s| ==> Positive(s[i])
    ensures Survivors(s) == s
  {
    if s != [] {
      SurvivorsAll(s[1..]);
    }
  }

  /** Filtering twice is filtering once. */
  lemma SurvivorsIdempotent(s: seq<Row>)
    ensures Survivors(Survivors(s)) == Survivors(s)
  {
    SurvivorsAll(Survivors(s));
  }

  // ---------------------------------------------------------------------------------------
  // Compaction.

  /** Compaction keeps the positive rows and their order. */
  lemma CompactKeepsSurvivors(s: seq<Row>)
    ensures Survivors(Compact(s)) == Survivors(s)
  {
    var k := |s| - |Survivors(s)|;
    SurvivorsAppend(Zeros(k), Survivors(s));
    SurvivorsNone(Zeros(k));
    SurvivorsIdempotent(s);
  }

  /** The rows above row k are empty and the rows from k down are positive. */
  predicate Settled(t: seq<Row>, k: nat) {
    k <= |t| && (forall i :: 0 <= i < k ==> t[i] == 0) && (forall i :: k <= i < |t| ==> Positive(t[i]))
  }

  /** After compaction the empty rows all sit at the top, above the positive ones. */
  lemma CompactSettled(s: seq<Row>)
    ensures |Compact(s)| == |s| && Settled(Compact(s), |s| - |Survivors(s)|)
  {
    var c := Compact(s);
    var k := |s| - |Survivors(s)|;
    forall i | k <= i < |c| ensures Positive(c[i]) {
      assert c[i] == Survivors(s)[i - k];
    }
  }

  /** Compaction is the only arrangement of the same height with the same positive rows in the
      same order and empty rows above them. */
  lemma CompactUnique(s: seq<Row>, t: seq<Row>, k: nat)
    requires |t| == |s| && Survivors(t) == Survivors(s) && Settled(t, k)
    ensures t == Compact(s)
  {
    SettledSplit(t, k);
    assert k == |s| - |Survivors(s)|;
  }

  /** A settled arrangement is its empty top followed by its survivors. */
  lemma SettledSplit(t: seq<Row>, k: nat)
    requires Settled(t, k)
    ensures t == Zeros(k) + Survivors(t) && |Survivors(t)| == |t| - k
  {
    var top, bottom := t[..k], t[k..];
    assert top == Zeros(k);
    forall i | 0 <= i < |bottom| ensures Positive(bottom[i]) {
      assert bottom[i] == t[k + i];
    }
    assert t == top + bottom;
    SurvivorsAppend(top, bottom);
    SurvivorsNone(top);
    SurvivorsAll(bottom);
  }

  /** Compacting a compacted board changes nothing. */
  lemma CompactIdempotent(s: seq<Row>)
    ensures Compact(Compact(s)) == Compact(s)
  {
    var c := Compact(s);
    CompactKeepsSurvivors(s);
    CompactSettled(s);
    CompactKeepsSurvivors(c);
    CompactSettled(c);
    CompactUnique(c, c, |c| - |Survivors(c)|);
  }

  // ---------------------------------------------------------------------------------------
  // Clearing full rows.

  /** The positive rows that survive the clearing are exactly the positive rows that were not
      full. */
  lemma {:induction false} SurvivorsCleared(s: seq<Row>)
    ensures Survivors(Cleared(s)) == Kept(s)
  {
    if s != [] {
      assert Cleared(s)[1..] == Cleared(s[1..]);
      SurvivorsCleared(s[1..]);
    }
  }

  /** Each cleared line removes one positive row. */
  lemma {:induction false} KeptCount(s: seq<Row>)
    ensures |Kept(s)| + CountFull(s) == |Survivors(s)|
  {
    if s != [] {
      KeptCount(s[1..]);
    }
  }

  // ---------------------------------------------------------------------------------------
  // The board after `stick`.

  /** `stick` keeps the height of the board, and the rows it leaves are the positive rows of the
      merged board that were not full, in their original order, at the bottom, with empty rows
      above them. */
  lemma SettleRows(space: seq<Row>, mask: seq<Row>)
    ensures var after := Settle(space, mask);
      |after| == |space| &&
      Survivors(after) == Kept(Merged(space, mask)) &&
      Settled(after, |space| - |Kept(Merged(space, mask))|)
  {
    var c := Cleared(Merged(space, mask));
    CompactKeepsSurvivors(c);
    CompactSettled(c);
    SurvivorsCleared(Merged(space, mask));
  }

  /** After `stick` no row is full, and the number of positive rows dropped by exactly the number
      of full rows that were cleared. */
  lemma SettleClearsLines(space: seq<Row>, mask: seq<Row>)
    ensures var after := Settle(space, mask);
      (forall i :: 0 <= i < |after| ==> after[i] != FullLine) &&
      |Survivors(after)| == |Survivors(Merged(space, mask))| - CountFull(Merged(space, mask))
  {
    var m := Merged(space, mask);
    var c := Cleared(m);
    var after := Settle(space, mask);
    var k := |c| - |Survivors(c)|;
    forall i | 0 <= i < |after| ensures after[i] != FullLine {
      if i >= k {
        SurvivorsFrom(c, i - k);
        var j :| 0 <= j < |c| && c[j] == Survivors(c)[i - k];
        assert after[i] == c[j];
      }
    }
    SettleRows(space, mask);
    KeptCount(m);
  }

  /** Merging rows that fit the board gives rows that fit the board. */
  lemma MergedFits(space: seq<Row>, mask: seq<Row>)
    requires AllFit(space) && AllFit(mask)
    ensures AllFit(Merged(space, mask))
  {
    var m := Merged(space, mask);
    forall i | 0 <= i < |m| ensures Fits(m[i]) {
      var a, b := space[i], MaskAt(mask, i);
      assert Fits(a) && Fits(b);
      assert m[i] == a | b;
    }
  }

  /** When the board and the mask fit the board's width, so does the board `stick` leaves. */
  lemma SettleFits(space: seq<Row>, mask: seq<Row>)
    requires AllFit(space) && AllFit(mask)
    ensures AllFit(Settle(space, mask))
  {
    var m := Merged(space, mask);
    MergedFits(space, mask);
    var c := Cleared(m);
    var after := Settle(space, mask);
    var k := |c| - |Survivors(c)|;
    forall i | 0 <= i < |after| ensures Fits(after[i]) {
      if i >= k {
        SurvivorsFrom(c, i - k);
        var j :| 0 <= j < |c| && c[j] == Survivors(c)[i - k];
        assert Fits(m[j]);
        assert after[i] == c[j];
      }
    }
  }

  /** Every survivor is a row of the filtered list. */
  lemma {:induction false} SurvivorsFrom(s: seq<Row>, n: nat)
    requires n < |Survivors(s)|
    ensures exists i :: 0 <= i < |s| && s[i] == Survivors(s)[n]
  {
    if Positive(s[0]) {
      if n > 0 {
        SurvivorsFrom(s[1..], n - 1);
        var i :| 0 <= i < |s[1..]| && s[1..][i] == Survivors(s[1..])[n - 1];
        assert s[i + 1] == Survivors(s)[n];
      } else {
        assert s[0] == Survivors(s)[0];
      }
    } else {
      SurvivorsFrom(s[1..], n);
      var i :| 0 <= i < |s[1..]| && s[1..][i] == Survivors(s[1..])[n];
      assert s[i + 1] == Survivors(s)[n];
    }
  }

  // ---------------------------------------------------------------------------------------
  // The same, in terms of occupied rows.

  /** The occupied rows of `s`, in order. */
  function NonzeroRows(s: seq<Row>): (r: seq<Row>)
    ensures |r| <= |s| && forall i :: 0 <= i < |r| ==> r[i] != 0
  {
    if s == [] then [] else (if s[0] != 0 then [s[0]] else []) + NonzeroRows(s[1..])
  }

  /** On rows inside the board's width the filter `e > 0` keeps exactly the occupied rows. */
  lemma {:induction false} SurvivorsNonzero(s: seq<Row>)
    requires AllFit(s)
    ensures Survivors(s) == NonzeroRows(s)
  {
    if s != [] {
      FitPositive(s[0]);
      SurvivorsNonzero(s[1..]);
    }
  }

  /** Clearing full rows keeps rows inside the board's width. */
  lemma ClearedFits(s: seq<Row>)
    requires AllFit(s)
    ensures AllFit(Cleared(s))
  {
    var c := Cleared(s);
    forall i | 0 <= i < |c| ensures Fits(c[i]) {
      assert Fits(s[i]);
    }
  }

  /** For a board and a mask inside the walls, `stick` leaves the occupied rows of the merged and
      cleared board, in order, at the bottom, with empty rows above them. */
  lemma SettleNonzero(space: seq<Row>, mask: seq<Row>)
    requires AllFit(space) && AllFit(mask)
    ensures var c := Cleared(Merged(space, mask));
      Settle(space, mask) == Zeros(|space| - |NonzeroRows(c)|) + NonzeroRows(c)
  {
    var m := Merged(space, mask);
    MergedFits(space, mask);
    ClearedFits(m);
    SurvivorsNonzero(Cleared(m));
  }
}
