/**
 * The match detection of GameBoard, stated as pure functions over a snapshot of the
 * 7x7 board. `g[x][y]` is the gem in column x, row y (row 0 is the bottom row).
 * The imperative Board class (board.dfy) is proved to compute exactly these values.
 */
module Detection {
  import opened Options
  import opened Pieces

  const Width := 7
  const Height := 7

  type Grid = seq<seq<Option<Piece>>>

  predicate WellFormed(g: Grid) {
    |g| == Width && forall x :: 0 <= x < Width ==> |g[x]| == Height
  }

  predicate InBounds(x: int, y: int) {
    0 <= x < Width && 0 <= y < Height
  }

  /** gem.posIndex: an instance never set up still holds the default (0, 0). */
  function PosOf(posIndex: map<nat, Pos>, p: Piece): Pos {
    if p.id in posIndex then posIndex[p.id] else Pos(0, 0)
  }

  /** `p` sits in some cell of the board. */
  ghost predicate OnBoard(g: Grid, p: Piece)
    requires WellFormed(g)
  {
    exists x, y :: InBounds(x, y) && g[x][y] == Some(p)
  }

  predicate NoDup<T(==)>(s: seq<T>) {
    forall i, j :: 0 <= i < j < |s| ==> s[i] != s[j]
  }

  /** The identities of the gems in a list (their isMatch flags). */
  function Ids(s: seq<Piece>): set<nat> {
    set i | 0 <= i < |s| :: s[i].id
  }

  // ---------------------------------------------------------------------------
  // MatchesAt: would `c` complete a run with the two gems to its left or below?

  function MatchesAt(g: Grid, x: int, y: int, c: Option<Piece>): (r: bool)
    requires WellFormed(g) && InBounds(x, y)
    ensures c.None? ==> !r
    ensures x <= 1 && y <= 1 ==> !r
  {
    if c.None? then false
    else if x > 1 && g[x - 1][y].Some? && g[x - 2][y].Some?
            && AreInSameMatchGroup(c, g[x - 1][y]) && AreInSameMatchGroup(c, g[x - 2][y]) then true
    else if y <= 1 then false
    else (g[x][y - 1].Some? && g[x][y - 2].Some?
          && AreInSameMatchGroup(c, g[x][y - 1]) && AreInSameMatchGroup(c, g[x][y - 2]))
  }

  /** MatchesAt looks only at (x-1,y), (x-2,y), (x,y-1) and (x,y-2). */
  lemma MatchesAtReadsOnlyLeftAndBelow(g1: Grid, g2: Grid, x: int, y: int, c: Option<Piece>)
    requires WellFormed(g1) && WellFormed(g2) && InBounds(x, y)
    requires x > 1 ==> g1[x - 1][y] == g2[x - 1][y] && g1[x - 2][y] == g2[x - 2][y]
    requires y > 1 ==> g1[x][y - 1] == g2[x][y - 1] && g1[x][y - 2] == g2[x][y - 2]
    ensures MatchesAt(g1, x, y, c) == MatchesAt(g2, x, y, c)
  {
  }

  /** A regular candidate with two gems of its own type to its left is rejected. */
  lemma MatchesAtSeesRunToTheLeft(g: Grid, x: int, y: int, c: Piece)
    requires WellFormed(g) && InBounds(x, y) && x > 1
    requires c.kind.RegularGem?
    requires g[x - 1][y].Some? && g[x - 1][y].value.kind == c.kind
    requires g[x - 2][y].Some? && g[x - 2][y].value.kind == c.kind
    ensures MatchesAt(g, x, y, Some(c))
  {
  }

  // ---------------------------------------------------------------------------
  // The full-board scan (TryAddHorizontalMatch / TryAddVerticalMatch)

  /** What TryAddHorizontalMatch(x, y, c) adds, in order. */
  function HorizontalMarks(g: Grid, x: int, y: int, c: Piece): seq<Piece>
    requires WellFormed(g) && InBounds(x, y)
  {
    if x <= 0 || x >= Width - 1 then []
    else
      var left, right := g[x - 1][y], g[x + 1][y];
      if left.None? || right.None? then []
      else if CheckDoubleBombMatch(Some(c), right) then [c, right.value]
      else if CheckDoubleBombMatch(Some(c), left) then [c, left.value]
      else if !AreInSameMatchGroup(Some(c), left) || !AreInSameMatchGroup(Some(c), right) then []
      else [c, left.value, right.value]
  }

  /** What TryAddVerticalMatch(x, y, c) adds, in order (the y-1 gem is called "above"). */
  function VerticalMarks(g: Grid, x: int, y: int, c: Piece): seq<Piece>
    requires WellFormed(g) && InBounds(x, y)
  {
    if y <= 0 || y >= Height - 1 then []
    else
      var above, below := g[x][y - 1], g[x][y + 1];
      if above.None? || below.None? then []
      else if CheckDoubleBombMatch(Some(c), above) then [c, above.value]
      else if CheckDoubleBombMatch(Some(c), below) then [c, below.value]
      else if !AreInSameMatchGroup(Some(c), above) || !AreInSameMatchGroup(Some(c), below) then []
      else [c, below.value, above.value]
  }

  /** What the scan adds for cell (x, y): nothing for an empty cell. */
  function CellMarks(g: Grid, x: int, y: int): seq<Piece>
    requires WellFormed(g) && InBounds(x, y)
  {
    if g[x][y].None? then []
    else HorizontalMarks(g, x, y, g[x][y].value) + VerticalMarks(g, x, y, g[x][y].value)
  }

  /** What the scan adds for rows 0 .. n-1 of column x. */
  function ColumnMarks(g: Grid, x: int, n: int): seq<Piece>
    requires WellFormed(g) && 0 <= x < Width && 0 <= n <= Height
  {
    if n == 0 then [] else ColumnMarks(g, x, n - 1) + CellMarks(g, x, n - 1)
  }

  /** What the scan adds for columns 0 .. m-1 (x outer, y inner). */
  function ScanMarks(g: Grid, m: int): seq<Piece>
    requires WellFormed(g) && 0 <= m <= Width
  {
    if m == 0 then [] else ScanMarks(g, m - 1) + ColumnMarks(g, m - 1, |g[m - 1]|)
  }

  function RawMatches(g: Grid): seq<Piece>
    requires WellFormed(g)
  {
    ScanMarks(g, Width)
  }

  // ---------------------------------------------------------------------------
  // Distinct (LINQ Distinct: first occurrences, in order)

  function Distinct(s: seq<Piece>): (r: seq<Piece>)
    ensures NoDup(r)
    ensures forall e :: e in r <==> e in s
    ensures |r| <= |s|
  {
    if |s| == 0 then []
    else
      var d := Distinct(s[..|s| - 1]);
      assert forall e :: e in s <==> e in s[..|s| - 1] || e == s[|s| - 1];
      if s[|s| - 1] in d then d else d + [s[|s| - 1]]
  }

  /** The position of the first occurrence of `e` in `s`. */
  function FirstIndex(s: seq<Piece>, e: Piece): (i: nat)
    requires e in s
    ensures i < |s| && s[i] == e
    ensures forall k :: 0 <= k < i ==> s[k] != e
  {
    if s[0] == e then 0 else 1 + FirstIndex(s[1..], e)
  }

  /** Appending to a list does not move the first occurrence of a gem already in it. */
  lemma FirstIndexAppend(s: seq<Piece>, x: Piece, e: Piece)
    requires e in s
    ensures FirstIndex(s + [x], e) == FirstIndex(s, e)
  {
    var i, k := FirstIndex(s + [x], e), FirstIndex(s, e);
    assert (s + [x])[k] == e;
  }

  /**
   * Distinct keeps the order of first occurrences: of two gems in the result, the one
   * listed first is the one that occurs first in the input.
   */
  lemma {:induction false} DistinctKeepsOrder(s: seq<Piece>)
    ensures forall i, j :: 0 <= i < j < |Distinct(s)| ==>
      FirstIndex(s, Distinct(s)[i]) < FirstIndex(s, Distinct(s)[j])
  {
    if |s| > 0 {
      var s', x := s[..|s| - 1], s[|s| - 1];
      assert s == s' + [x];
      var d := Distinct(s');
      DistinctKeepsOrder(s');
      assert forall i, j :: 0 <= i < j < |d| ==> FirstIndex(s', d[i]) < FirstIndex(s', d[j]);
      forall e | e in s'
        ensures FirstIndex(s, e) == FirstIndex(s', e)
      {
        FirstIndexAppend(s', x, e);
      }
      if x !in d {
        var r := d + [x];
        assert Distinct(s) == r;
        assert FirstIndex(s, x) == |s| - 1 by {
          assert x !in s';
        }
        forall i, j | 0 <= i < j < |r|
          ensures FirstIndex(s, r[i]) < FirstIndex(s, r[j])
        {
          assert r[i] == d[i] && d[i] in s';
          assert FirstIndex(s, r[i]) == FirstIndex(s', d[i]) < |s'|;
          if j < |d| {
            assert r[j] == d[j] && d[j] in s';
            assert FirstIndex(s', d[i]) < FirstIndex(s', d[j]);
          } else {
            assert r[j] == x;
          }
        }
      } else {
        assert Distinct(s) == d;
        forall i, j | 0 <= i < j < |d|
          ensures FirstIndex(s, d[i]) < FirstIndex(s, d[j])
        {
          assert d[i] in s' && d[j] in s';
          assert FirstIndex(s', d[i]) < FirstIndex(s', d[j]);
        }
      }
    }
  }

  /** A list without duplicates is left as it is. */
  lemma {:induction false} DistinctOfNoDup(s: seq<Piece>)
    requires NoDup(s)
    ensures Distinct(s) == s
  {
    if |s| > 0 {
      DistinctOfNoDup(s[..|s| - 1]);
      assert s[|s| - 1] !in s[..|s| - 1];
      assert s[..|s| - 1] + [s[|s| - 1]] == s;
    }
  }

  lemma IdsDistinct(s: seq<Piece>)
    ensures Ids(Distinct(s)) == Ids(s)
  {
    forall i | i in Ids(s) ensures i in Ids(Distinct(s)) {
      var k :| 0 <= k < |s| && s[k].id == i;
      assert s[k] in Distinct(s);
    }
    forall i | i in Ids(Distinct(s)) ensures i in Ids(s) {
      var d := Distinct(s);
      var k :| 0 <= k < |d| && d[k].id == i;
      assert d[k] in s;
    }
  }

  lemma IdsConcat(a: seq<Piece>, b: seq<Piece>)
    ensures Ids(a + b) == Ids(a) + Ids(b)
  {
    forall i | i in Ids(a + b) ensures i in Ids(a) + Ids(b) {
      var k :| 0 <= k < |a + b| && (a + b)[k].id == i;
      if k >= |a| { assert b[k - |a|].id == i; }
    }
    forall i | i in Ids(a) ensures i in Ids(a + b) {
      var k :| 0 <= k < |a| && a[k].id == i;
      assert (a + b)[k] == a[k];
    }
    forall i | i in Ids(b) ensures i in Ids(a + b) {
      var k :| 0 <= k < |b| && b[k].id == i;
      assert (a + b)[|a| + k] == b[k];
    }
  }

  lemma IdsEmpty()
    ensures Ids([]) == {}
  {
  }

  lemma IdsSnoc(s: seq<Piece>, e: Piece)
    ensures Ids(s + [e]) == Ids(s) + {e.id}
  {
    IdsConcat(s, [e]);
    assert Ids([e]) == {e.id} by { assert [e][0] == e; }
  }

  // ---------------------------------------------------------------------------
  // Bomb propagation (CheckForBombs / MarkBombArea)

  /** left, right, down, up */
  const NeighborOffsets: seq<Pos> := [Pos(-1, 0), Pos(1, 0), Pos(0, -1), Pos(0, 1)]

  function Neighbor(p: Pos, k: nat): Pos
    requires k < 4
  {
    Pos(p.x + NeighborOffsets[k].x, p.y + NeighborOffsets[k].y)
  }

  /** The gem at `p`, if the cell is on the board and not empty. */
  function CellIfPresent(g: Grid, x: int, y: int): seq<Piece>
    requires WellFormed(g)
  {
    if InBounds(x, y) && g[x][y].Some? then [g[x][y].value] else []
  }

  /** The non-empty cells of column x, rows lo .. y-1. */
  function AreaColumn(g: Grid, x: int, lo: int, y: int): seq<Piece>
    requires WellFormed(g)
    decreases y - lo
  {
    if y <= lo then [] else AreaColumn(g, x, lo, y - 1) + CellIfPresent(g, x, y - 1)
  }

  /** The non-empty cells of columns lo .. x-1, each over rows ylo .. yhi inclusive. */
  function AreaColumns(g: Grid, lo: int, ylo: int, yhi: int, x: int): seq<Piece>
    requires WellFormed(g)
    decreases x - lo
  {
    if x <= lo then [] else AreaColumns(g, lo, ylo, yhi, x - 1) + AreaColumn(g, x - 1, ylo, yhi + 1)
  }

  /** What MarkBombArea appends: the square of side 2*blastSize+1 around `c`, clipped. */
  function BombArea(g: Grid, c: Pos, blastSize: int): seq<Piece>
    requires WellFormed(g)
  {
    AreaColumns(g, c.x - blastSize, c.y - blastSize, c.y + blastSize, c.x + blastSize + 1)
  }

  /** MarkBombArea on the list `cur`. */
  function MarkBombArea(g: Grid, cur: seq<Piece>, c: Pos, blastSize: int): seq<Piece>
    requires WellFormed(g)
  {
    var n := cur + BombArea(g, c, blastSize);
    if |n| > 0 then Distinct(n) else n
  }

  /** The neighbour `n` of a matched `gem` is a bomb that can interact with it. */
  predicate Triggers(g: Grid, n: Pos, gem: Piece)
    requires WellFormed(g)
  {
    InBounds(n.x, n.y) && g[n.x][n.y].Some? && g[n.x][n.y].value.kind.BombGem?
    && CanInteractWith(g[n.x][n.y].value, Some(gem))
  }

  function BlastAt(g: Grid, n: Pos): int
    requires WellFormed(g) && InBounds(n.x, n.y) && g[n.x][n.y].Some?
  {
    match g[n.x][n.y].value.kind
    case BombGem(_, b) => b
    case RegularGem(_) => 0
  }

  /** The list after the first k neighbours of `gem` (at `p`) have been inspected. */
  function TriggerNeighbors(g: Grid, p: Pos, gem: Piece, cur: seq<Piece>, k: nat): seq<Piece>
    requires WellFormed(g) && k <= 4
  {
    if k == 0 then cur
    else
      var prev := TriggerNeighbors(g, p, gem, cur, k - 1);
      var n := Neighbor(p, k - 1);
      if Triggers(g, n, gem) then MarkBombArea(g, prev, n, BlastAt(g, n)) else prev
  }

  /** The list after the first i gems of the snapshot have been inspected. */
  function Propagate(g: Grid, posIndex: map<nat, Pos>, snap: seq<Piece>, i: nat): seq<Piece>
    requires WellFormed(g) && i <= |snap|
  {
    if i == 0 then snap
    else
      var gem := snap[i - 1];
      TriggerNeighbors(g, PosOf(posIndex, gem), gem, Propagate(g, posIndex, snap, i - 1), 4)
  }

  /** CheckForBombs: one pass over a snapshot of the list. */
  function CheckForBombs(g: Grid, posIndex: map<nat, Pos>, cur: seq<Piece>): seq<Piece>
    requires WellFormed(g)
  {
    if |cur| == 0 then cur else Propagate(g, posIndex, cur, |cur|)
  }

  /** FindAllMatches: scan, de-duplicate, propagate bombs once. */
  function FindAllMatches(g: Grid, posIndex: map<nat, Pos>): seq<Piece>
    requires WellFormed(g)
  {
    var raw := RawMatches(g);
    var d := if |raw| > 0 then Distinct(raw) else raw;
    CheckForBombs(g, posIndex, d)
  }

  /** MarkBombArea adds exactly the identities of the blast square. */
  lemma MarkBombAreaIds(g: Grid, cur: seq<Piece>, c: Pos, blastSize: int)
    requires WellFormed(g)
    ensures Ids(MarkBombArea(g, cur, c, blastSize)) == Ids(cur) + Ids(BombArea(g, c, blastSize))
  {
    IdsConcat(cur, BombArea(g, c, blastSize));
    IdsDistinct(cur + BombArea(g, c, blastSize));
  }
}
