/**
 * What DecreaseRowCo does to one column: every gem drops by the number of empty cells
 * below it, so the gems end up at the bottom, in their order, with the gaps on top.
 */
module Gravity {
  import opened Options
  import opened Pieces
  import opened Detection
  import opened Resolution

  type Column = seq<Option<Piece>>

  /** The gems of a column from the bottom up, gaps left out. */
  function Present(col: Column): seq<Piece> {
    if |col| == 0 then []
    else Present(col[..|col| - 1]) + (if col[|col| - 1].Some? then [col[|col| - 1].value] else [])
  }

  /** DecreaseRowCo's nullCounter after the cells of `col`. */
  function CountNone(col: Column): nat {
    if |col| == 0 then 0
    else CountNone(col[..|col| - 1]) + (if col[|col| - 1].None? then 1 else 0)
  }

  function Somes(ps: seq<Piece>): (r: Column)
    ensures |r| == |ps|
    ensures forall i :: 0 <= i < |ps| ==> r[i] == Some(ps[i])
  {
    if |ps| == 0 then [] else Somes(ps[..|ps| - 1]) + [Some(ps[|ps| - 1])]
  }

  function Nones(n: nat): (r: Column)
    ensures |r| == n
    ensures forall i :: 0 <= i < n ==> r[i].None?
  {
    if n == 0 then [] else Nones(n - 1) + [None]
  }

  /** The column after the drop: the gems packed at the bottom, then the gaps. */
  function Packed(col: Column): (r: Column)
    ensures |r| == |col|
  {
    PresentCount(col);
    Somes(Present(col)) + Nones(CountNone(col))
  }

  /** No gem sits above an empty cell. */
  predicate Settled(col: Column) {
    forall i, j :: 0 <= i < j < |col| && col[i].None? ==> col[j].None?
  }

  lemma {:induction false} PresentCount(col: Column)
    ensures |Present(col)| + CountNone(col) == |col|
  {
    if |col| > 0 {
      PresentCount(col[..|col| - 1]);
    }
  }

  /** After the drop no gem sits above an empty cell. */
  lemma PackedSettled(col: Column)
    ensures Settled(Packed(col))
  {
    PresentCount(col);
  }

  lemma {:induction false} PresentSomes(ps: seq<Piece>)
    ensures Present(Somes(ps)) == ps
  {
    if |ps| > 0 {
      var init := ps[..|ps| - 1];
      assert Somes(ps)[..|ps| - 1] == Somes(init);
      PresentSomes(init);
    }
  }

  lemma {:induction false} PresentAppendNones(col: Column, n: nat)
    ensures Present(col + Nones(n)) == Present(col)
    ensures CountNone(col + Nones(n)) == CountNone(col) + n
  {
    if n > 0 {
      assert (col + Nones(n))[..|col| + n - 1] == col + Nones(n - 1);
      PresentAppendNones(col, n - 1);
    } else {
      assert col + Nones(n) == col;
    }
  }

  lemma {:induction false} CountNoneSomes(ps: seq<Piece>)
    ensures CountNone(Somes(ps)) == 0
  {
    if |ps| > 0 {
      assert Somes(ps)[..|ps| - 1] == Somes(ps[..|ps| - 1]);
      CountNoneSomes(ps[..|ps| - 1]);
    }
  }

  /** The drop keeps the gems and their bottom-to-top order; dropping twice changes nothing more. */
  lemma PackedKeepsGems(col: Column)
    ensures Present(Packed(col)) == Present(col)
    ensures CountNone(Packed(col)) == CountNone(col)
    ensures Packed(Packed(col)) == Packed(col)
  {
    PresentAppendNones(Somes(Present(col)), CountNone(col));
    PresentSomes(Present(col));
    CountNoneSomes(Present(col));
  }

  lemma {:induction false} ColumnScoreAppend(a: Column, b: Column)
    ensures ColumnScore(a + b) == ColumnScore(a) + ColumnScore(b)
  {
    if |b| > 0 {
      assert (a + b)[..|a + b| - 1] == a + b[..|b| - 1];
      ColumnScoreAppend(a, b[..|b| - 1]);
    } else {
      assert a + b == a;
    }
  }

  lemma {:induction false} ColumnScorePresent(col: Column)
    ensures ColumnScore(Somes(Present(col))) == ColumnScore(col)
  {
    if |col| > 0 {
      var init, last := col[..|col| - 1], col[|col| - 1];
      ColumnScorePresent(init);
      if last.Some? {
        assert Present(col) == Present(init) + [last.value];
        assert Somes(Present(col))[..|Present(col)| - 1] == Somes(Present(init));
      } else {
        assert Present(col) == Present(init);
      }
    }
  }

  /** The drop neither creates nor destroys score value. */
  lemma PackedScore(col: Column)
    ensures ColumnScore(Packed(col)) == ColumnScore(col)
  {
    ColumnScoreAppend(Somes(Present(col)), Nones(CountNone(col)));
    EmptyColumnScore(Nones(CountNone(col)));
    ColumnScorePresent(col);
  }

  lemma {:induction false} NoGapsCount(col: Column)
    requires forall i :: 0 <= i < |col| ==> col[i].Some?
    ensures CountNone(col) == 0
  {
    if |col| > 0 {
      NoGapsCount(col[..|col| - 1]);
    }
  }

  /** A column that is already settled does not change. */
  lemma {:induction false} SettledIsPacked(col: Column)
    requires Settled(col)
    ensures Packed(col) == col
  {
    if |col| > 0 {
      var init, last := col[..|col| - 1], col[|col| - 1];
      assert col == init + [last];
      SettledIsPacked(init);
      if last.Some? {
        NoGapsCount(init);
        assert CountNone(col) == 0 && Nones(0) == [];
        assert Present(col) == Present(init) + [last.value];
        assert Somes(Present(col)) == Somes(Present(init)) + [last];
        assert Packed(init) == Somes(Present(init)) + [];
      } else {
        assert Present(col) == Present(init) && CountNone(col) == CountNone(init) + 1;
        assert Packed(col) == Somes(Present(init)) + (Nones(CountNone(init)) + [None]);
      }
    }
  }

  /** The column after DecreaseRowCo has visited its first `y` cells: those packed, the rest untouched. */
  function Shifted(col: Column, y: nat): (r: Column)
    requires y <= |col|
    ensures |r| == |col|
  {
    PresentCount(col[..y]);
    Somes(Present(col[..y])) + Nones(CountNone(col[..y])) + col[y..]
  }

  lemma ShiftedStart(col: Column)
    ensures Shifted(col, 0) == col && CountNone(col[..0]) == 0
  {
    assert col[..0] == [] && col[0..] == col;
  }

  lemma ShiftedEnd(col: Column)
    ensures Shifted(col, |col|) == Packed(col)
  {
    assert col[..|col|] == col && col[|col|..] == [];
  }

  /**
   * One cell of DecreaseRowCo's column loop: the cell still holds its original content, the
   * gaps seen so far sit just below it, and an empty cell adds one to nullCounter.
   */
  lemma ShiftCell(col: Column, y: nat)
    requires y < |col|
    ensures var n := CountNone(col[..y]);
      |Present(col[..y])| + n == y
      && Shifted(col, y)[y] == col[y]
      && CountNone(col[..y + 1]) == n + (if col[y].None? then 1 else 0)
      && (n > 0 ==> Shifted(col, y)[y - n].None?)
  {
    PresentCount(col[..y]);
    assert col[..y + 1][..y] == col[..y];
  }

  /** An empty cell, or a gem with no gap below it, leaves the column as it is. */
  lemma ShiftStays(col: Column, y: nat)
    requires y < |col| && (col[y].None? || CountNone(col[..y]) == 0)
    ensures Shifted(col, y + 1) == Shifted(col, y)
  {
    assert col[..y + 1][..y] == col[..y];
    assert col[y..] == [col[y]] + col[y + 1..];
    if col[y].None? {
      ShiftStaysGap(col, y);
    } else {
      ShiftStaysGem(col, y);
    }
  }

  lemma ShiftStaysGap(col: Column, y: nat)
    requires y < |col| && col[y].None?
    requires col[..y + 1][..y] == col[..y] && col[y..] == [col[y]] + col[y + 1..]
    ensures Shifted(col, y + 1) == Shifted(col, y)
  {
    var n := CountNone(col[..y]);
    var ps := Present(col[..y]);
    assert Present(col[..y + 1]) == ps;
    assert CountNone(col[..y + 1]) == n + 1;
    assert Shifted(col, y + 1) == Somes(ps) + (Nones(n) + [None]) + col[y + 1..];
  }

  lemma ShiftStaysGem(col: Column, y: nat)
    requires y < |col| && col[y].Some? && CountNone(col[..y]) == 0
    requires col[..y + 1][..y] == col[..y] && col[y..] == [col[y]] + col[y + 1..]
    ensures Shifted(col, y + 1) == Shifted(col, y)
  {
    var ps := Present(col[..y]);
    assert Present(col[..y + 1]) == ps + [col[y].value];
    assert CountNone(col[..y + 1]) == 0;
    assert Somes(ps + [col[y].value]) == Somes(ps) + [col[y]];
    assert Nones(0) == [];
  }

  /** A gem with n > 0 gaps below it moves down n cells, leaving a gap behind. */
  lemma ShiftMoves(col: Column, y: nat)
    requires y < |col| && col[y].Some? && CountNone(col[..y]) > 0
    ensures var n := CountNone(col[..y]);
      Shifted(col, y + 1) == Shifted(col, y)[y - n := col[y]][y := None]
  {
    var pre, n := col[..y], CountNone(col[..y]);
    var ps := Present(pre);
    PresentCount(pre);
    assert col[..y + 1][..y] == pre;
    assert Present(col[..y + 1]) == ps + [col[y].value];
    assert CountNone(col[..y + 1]) == n;
    hide Present, CountNone;
    assert Somes(ps + [col[y].value]) == Somes(ps) + [col[y]];
    assert col[y..] == [col[y]] + col[y + 1..];
    NonesFront(n);
    SpliceSwap(Somes(ps), Nones(n - 1), col[y + 1..], None, col[y]);
  }

  /** Moving `w` down over a gap `v` followed by the gaps `b`, in sequence terms. */
  lemma SpliceSwap<T>(a: seq<T>, b: seq<T>, c: seq<T>, v: T, w: T)
    ensures (a + ([v] + b) + ([w] + c))[|a| := w][|a| + 1 + |b| := v] == a + [w] + (b + [v]) + c
  {
  }

  lemma {:induction false} NonesFront(n: nat)
    requires n > 0
    ensures Nones(n) == [None] + Nones(n - 1)
  {
    if n > 1 {
      NonesFront(n - 1);
    }
  }

  /** The drop applied to every column. */
  function Fall(g: Grid): (r: Grid)
    requires WellFormed(g)
    ensures WellFormed(r)
  {
    seq(Width, x requires 0 <= x < Width => Packed(g[x]))
  }

  lemma {:induction false} FallColumnsScore(g: Grid, m: nat)
    requires WellFormed(g) && m <= Width
    ensures ColumnsScore(Fall(g), m) == ColumnsScore(g, m)
  {
    if m > 0 {
      FallColumnsScore(g, m - 1);
      PackedScore(g[m - 1]);
    }
  }

  /** The whole cascade step keeps the board's score value: gems only move. */
  lemma FallScore(g: Grid)
    requires WellFormed(g)
    ensures BoardScore(Fall(g)) == BoardScore(g)
  {
    FallColumnsScore(g, Width);
  }
}
