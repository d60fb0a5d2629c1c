/**
 * What the detection functions of module Detection guarantee: the match list has no
 * duplicates, holds only gems of the board, contains every 3-in-a-row of one colour,
 * and grows through bombs exactly once (gems added by a blast do not trigger further bombs).
 */
module DetectionProperties {
  import opened Options
  import opened Pieces
  import opened Detection

  // ---------------------------------------------------------------------------
  // The scan

  lemma {:induction false} ColumnMarksMembers(g: Grid, x: int, n: int, e: Piece)
    requires WellFormed(g) && 0 <= x < Width && 0 <= n <= Height
    ensures e in ColumnMarks(g, x, n) <==> exists y :: 0 <= y < n && e in CellMarks(g, x, y)
  {
    hide CellMarks;
    if n > 0 {
      ColumnMarksMembers(g, x, n - 1, e);
    }
  }

  lemma {:induction false} ScanMarksMembers(g: Grid, m: int, e: Piece)
    requires WellFormed(g) && 0 <= m <= Width
    ensures e in ScanMarks(g, m) <==> exists x :: 0 <= x < m && e in ColumnMarks(g, x, |g[x]|)
  {
    hide ColumnMarks, CellMarks;
    if m > 0 {
      ScanMarksMembers(g, m - 1, e);
    }
  }

  /** A gem is in the raw (pre-Distinct) list iff some cell's checks marked it. */
  lemma RawMatchesMembers(g: Grid, e: Piece)
    requires WellFormed(g)
    ensures e in RawMatches(g) <==> exists x, y :: InBounds(x, y) && e in CellMarks(g, x, y)
  {
    ScanMarksMembers(g, Width, e);
    if e in RawMatches(g) {
      var x :| 0 <= x < Width && e in ColumnMarks(g, x, |g[x]|);
      ColumnMarksMembers(g, x, |g[x]|, e);
      var y :| 0 <= y < Height && e in CellMarks(g, x, y);
      assert InBounds(x, y);
    }
    if exists x, y :: InBounds(x, y) && e in CellMarks(g, x, y) {
      var x, y :| InBounds(x, y) && e in CellMarks(g, x, y);
      ColumnMarksMembers(g, x, |g[x]|, e);
      assert e in ColumnMarks(g, x, |g[x]|);
    }
  }

  /** Everything a cell's checks mark is a gem of the board. */
  lemma CellMarksOnBoard(g: Grid, x: int, y: int, e: Piece)
    requires WellFormed(g) && InBounds(x, y)
    requires e in CellMarks(g, x, y)
    ensures OnBoard(g, e)
  {
    var c := g[x][y].value;
    if e in HorizontalMarks(g, x, y, c) {
      if e == c { assert g[x][y] == Some(e); }
      else if e == g[x - 1][y].value { assert g[x - 1][y] == Some(e); }
      else { assert g[x + 1][y] == Some(e); }
    } else {
      assert e in VerticalMarks(g, x, y, c);
      if e == c { assert g[x][y] == Some(e); }
      else if e == g[x][y - 1].value { assert g[x][y - 1] == Some(e); }
      else { assert g[x][y + 1] == Some(e); }
    }
  }

  // ---------------------------------------------------------------------------
  // Bomb areas

  lemma {:induction false} AreaColumnMembers(g: Grid, x: int, lo: int, y: int, e: Piece)
    requires WellFormed(g)
    ensures e in AreaColumn(g, x, lo, y) <==> exists r :: lo <= r < y && InBounds(x, r) && g[x][r] == Some(e)
    decreases y - lo
  {
    if y > lo {
      AreaColumnMembers(g, x, lo, y - 1, e);
    }
  }

  lemma {:induction false} AreaColumnsMembers(g: Grid, lo: int, ylo: int, yhi: int, x: int, e: Piece)
    requires WellFormed(g)
    ensures e in AreaColumns(g, lo, ylo, yhi, x)
        <==> exists c, r :: lo <= c < x && ylo <= r <= yhi && InBounds(c, r) && g[c][r] == Some(e)
    decreases x - lo
  {
    hide AreaColumn;
    if x > lo {
      AreaColumnsMembers(g, lo, ylo, yhi, x - 1, e);
      AreaColumnMembers(g, x - 1, ylo, yhi + 1, e);
    }
  }

  /** MarkBombArea adds exactly the gems within Chebyshev distance blastSize, clipped to the board. */
  lemma BombAreaMembers(g: Grid, c: Pos, blastSize: int, e: Piece)
    requires WellFormed(g)
    ensures e in BombArea(g, c, blastSize)
        <==> exists x, y :: InBounds(x, y) && c.x - blastSize <= x <= c.x + blastSize
                           && c.y - blastSize <= y <= c.y + blastSize && g[x][y] == Some(e)
  {
    hide AreaColumns, AreaColumn;
    var lo, ylo, yhi, hi := c.x - blastSize, c.y - blastSize, c.y + blastSize, c.x + blastSize + 1;
    assert BombArea(g, c, blastSize) == AreaColumns(g, lo, ylo, yhi, hi);
    AreaColumnsMembers(g, lo, ylo, yhi, hi, e);
    if e in BombArea(g, c, blastSize) {
      var x, y :| lo <= x < hi && ylo <= y <= yhi && InBounds(x, y) && g[x][y] == Some(e);
      assert c.x - blastSize <= x <= c.x + blastSize;
    }
    if exists x, y :: InBounds(x, y) && c.x - blastSize <= x <= c.x + blastSize
                      && c.y - blastSize <= y <= c.y + blastSize && g[x][y] == Some(e) {
      var x, y :| InBounds(x, y) && c.x - blastSize <= x <= c.x + blastSize
                  && c.y - blastSize <= y <= c.y + blastSize && g[x][y] == Some(e);
      assert lo <= x < hi && ylo <= y <= yhi;
    }
  }

  // ---------------------------------------------------------------------------
  // Propagation

  /** `e` is added by the k-th neighbour of `gem` (at `p`): a bomb that interacts with `gem`. */
  ghost predicate AddedBy(g: Grid, p: Pos, gem: Piece, k: nat, e: Piece)
    requires WellFormed(g)
  {
    k < 4 && Triggers(g, Neighbor(p, k), gem)
    && e in BombArea(g, Neighbor(p, k), BlastAt(g, Neighbor(p, k)))
  }

  /** `e` lies in the blast of a bomb next to one of the first i gems of the snapshot. */
  ghost predicate TriggeredBy(g: Grid, posIndex: map<nat, Pos>, snap: seq<Piece>, i: nat, e: Piece)
    requires WellFormed(g) && i <= |snap|
  {
    exists t, k :: 0 <= t < i && 0 <= k < 4 && AddedBy(g, PosOf(posIndex, snap[t]), snap[t], k, e)
  }

  lemma {:induction false} TriggerNeighborsMembers(g: Grid, p: Pos, gem: Piece, cur: seq<Piece>, k: nat, e: Piece)
    requires WellFormed(g) && k <= 4
    ensures e in TriggerNeighbors(g, p, gem, cur, k)
        <==> e in cur || exists j :: 0 <= j < k && AddedBy(g, p, gem, j, e)
  {
    if k > 0 {
      TriggerNeighborsMembers(g, p, gem, cur, k - 1, e);
      var prev := TriggerNeighbors(g, p, gem, cur, k - 1);
      var n := Neighbor(p, k - 1);
      if Triggers(g, n, gem) {
        var area := BombArea(g, n, BlastAt(g, n));
        assert e in prev + area <==> e in prev || e in area;
        assert AddedBy(g, p, gem, k - 1, e) <==> e in area;
      } else {
        assert !AddedBy(g, p, gem, k - 1, e);
      }
    }
  }

  lemma {:induction false} TriggerNeighborsNoDup(g: Grid, p: Pos, gem: Piece, cur: seq<Piece>, k: nat)
    requires WellFormed(g) && k <= 4 && NoDup(cur)
    ensures NoDup(TriggerNeighbors(g, p, gem, cur, k))
  {
    if k > 0 {
      TriggerNeighborsNoDup(g, p, gem, cur, k - 1);
    }
  }

  /** Membership after i gems: the snapshot plus the blasts they triggered, nothing more. */
  lemma {:induction false} PropagateMembers(g: Grid, posIndex: map<nat, Pos>, snap: seq<Piece>, i: nat, e: Piece)
    requires WellFormed(g) && i <= |snap|
    ensures e in Propagate(g, posIndex, snap, i) <==> e in snap || TriggeredBy(g, posIndex, snap, i, e)
  {
    if i > 0 {
      var gem := snap[i - 1];
      var p := PosOf(posIndex, gem);
      PropagateMembers(g, posIndex, snap, i - 1, e);
      TriggerNeighborsMembers(g, p, gem, Propagate(g, posIndex, snap, i - 1), 4, e);
      if TriggeredBy(g, posIndex, snap, i, e) && !TriggeredBy(g, posIndex, snap, i - 1, e) {
        var t, k :| 0 <= t < i && 0 <= k < 4 && AddedBy(g, PosOf(posIndex, snap[t]), snap[t], k, e);
        assert t == i - 1;
      }
    }
  }

  lemma {:induction false} PropagateNoDup(g: Grid, posIndex: map<nat, Pos>, snap: seq<Piece>, i: nat)
    requires WellFormed(g) && i <= |snap| && NoDup(snap)
    ensures NoDup(Propagate(g, posIndex, snap, i))
  {
    if i > 0 {
      var gem := snap[i - 1];
      PropagateNoDup(g, posIndex, snap, i - 1);
      TriggerNeighborsNoDup(g, PosOf(posIndex, gem), gem, Propagate(g, posIndex, snap, i - 1), 4);
    }
  }

  // ---------------------------------------------------------------------------
  // FindAllMatches

  /**
   * The match list: every gem some cell's check marked, plus every gem in the blast of a
   * bomb next to one of those gems -- and nothing else. A gem added by a blast does not
   * itself trigger the bombs next to it.
   */
  lemma FindAllMatchesMembers(g: Grid, posIndex: map<nat, Pos>, e: Piece)
    requires WellFormed(g)
    ensures var snap := Distinct(RawMatches(g));
      e in FindAllMatches(g, posIndex) <==> e in RawMatches(g) || TriggeredBy(g, posIndex, snap, |snap|, e)
  {
    var raw := RawMatches(g);
    var snap := Distinct(raw);
    if |raw| == 0 {
      assert raw == [] == snap;
    } else {
      PropagateMembers(g, posIndex, snap, |snap|, e);
    }
  }

  lemma FindAllMatchesNoDup(g: Grid, posIndex: map<nat, Pos>)
    requires WellFormed(g)
    ensures NoDup(FindAllMatches(g, posIndex))
  {
    var raw := RawMatches(g);
    if |raw| > 0 {
      PropagateNoDup(g, posIndex, Distinct(raw), |Distinct(raw)|);
    }
  }

  /** What DestroyMatches needs of a fresh match list: no repetitions, every gem on the board. */
  lemma FindAllMatchesResolvable(g: Grid, posIndex: map<nat, Pos>)
    requires WellFormed(g)
    ensures NoDup(FindAllMatches(g, posIndex))
    ensures forall j :: 0 <= j < |FindAllMatches(g, posIndex)| ==> OnBoard(g, FindAllMatches(g, posIndex)[j])
  {
    FindAllMatchesNoDup(g, posIndex);
    var ms := FindAllMatches(g, posIndex);
    forall j | 0 <= j < |ms|
      ensures OnBoard(g, ms[j])
    {
      FindAllMatchesOnBoard(g, posIndex, ms[j]);
    }
  }

  /** Every gem of the match list sits on the board. */
  lemma FindAllMatchesOnBoard(g: Grid, posIndex: map<nat, Pos>, e: Piece)
    requires WellFormed(g)
    requires e in FindAllMatches(g, posIndex)
    ensures OnBoard(g, e)
  {
    FindAllMatchesMembers(g, posIndex, e);
    var snap := Distinct(RawMatches(g));
    if e in RawMatches(g) {
      RawMatchesMembers(g, e);
      var x, y :| InBounds(x, y) && e in CellMarks(g, x, y);
      CellMarksOnBoard(g, x, y, e);
    } else {
      var t, k :| 0 <= t < |snap| && 0 <= k < 4 && AddedBy(g, PosOf(posIndex, snap[t]), snap[t], k, e);
      var n := Neighbor(PosOf(posIndex, snap[t]), k);
      BombAreaMembers(g, n, BlastAt(g, n), e);
    }
  }

  /** Three regular gems of one type side by side all end up in the match list. */
  lemma HorizontalRunMatched(g: Grid, posIndex: map<nat, Pos>, x: int, y: int)
    requires WellFormed(g) && 1 <= x < Width - 1 && 0 <= y < Height
    requires g[x - 1][y].Some? && g[x][y].Some? && g[x + 1][y].Some?
    requires g[x][y].value.kind.RegularGem?
    requires g[x - 1][y].value.kind == g[x][y].value.kind == g[x + 1][y].value.kind
    ensures g[x - 1][y].value in FindAllMatches(g, posIndex)
    ensures g[x][y].value in FindAllMatches(g, posIndex)
    ensures g[x + 1][y].value in FindAllMatches(g, posIndex)
  {
    var c := g[x][y].value;
    assert HorizontalMarks(g, x, y, c) == [c, g[x - 1][y].value, g[x + 1][y].value];
    forall e | e in HorizontalMarks(g, x, y, c) ensures e in FindAllMatches(g, posIndex) {
      assert e in CellMarks(g, x, y);
      RawMatchesMembers(g, e);
      FindAllMatchesMembers(g, posIndex, e);
    }
  }

  /** Three regular gems of one type stacked in a column all end up in the match list. */
  lemma VerticalRunMatched(g: Grid, posIndex: map<nat, Pos>, x: int, y: int)
    requires WellFormed(g) && 0 <= x < Width && 1 <= y < Height - 1
    requires g[x][y - 1].Some? && g[x][y].Some? && g[x][y + 1].Some?
    requires g[x][y].value.kind.RegularGem?
    requires g[x][y - 1].value.kind == g[x][y].value.kind == g[x][y + 1].value.kind
    ensures g[x][y - 1].value in FindAllMatches(g, posIndex)
    ensures g[x][y].value in FindAllMatches(g, posIndex)
    ensures g[x][y + 1].value in FindAllMatches(g, posIndex)
  {
    var c := g[x][y].value;
    assert VerticalMarks(g, x, y, c) == [c, g[x][y + 1].value, g[x][y - 1].value];
    forall e | e in VerticalMarks(g, x, y, c) ensures e in FindAllMatches(g, posIndex) {
      assert e in CellMarks(g, x, y);
      RawMatchesMembers(g, e);
      FindAllMatchesMembers(g, posIndex, e);
    }
  }

  /**
   * Two adjacent bombs: the centre and its right-hand bomb are marked as a pair, whatever
   * their colours, and the 3-in-a-row test is skipped.
   */
  lemma HorizontalBombPair(g: Grid, x: int, y: int)
    requires WellFormed(g) && 1 <= x < Width - 1 && 0 <= y < Height
    requires g[x - 1][y].Some? && IsBombPiece(g[x][y]) && IsBombPiece(g[x + 1][y])
    ensures HorizontalMarks(g, x, y, g[x][y].value) == [g[x][y].value, g[x + 1][y].value]
  {
  }

  /** The left-hand bomb is paired only when the right-hand neighbour is not a bomb. */
  lemma HorizontalLeftBombPair(g: Grid, x: int, y: int)
    requires WellFormed(g) && 1 <= x < Width - 1 && 0 <= y < Height
    requires g[x + 1][y].Some? && !IsBombPiece(g[x + 1][y])
    requires IsBombPiece(g[x][y]) && IsBombPiece(g[x - 1][y])
    ensures HorizontalMarks(g, x, y, g[x][y].value) == [g[x][y].value, g[x - 1][y].value]
  {
  }

  /** Vertically the y-1 bomb is paired first, then the y+1 bomb. */
  lemma VerticalBombPair(g: Grid, x: int, y: int)
    requires WellFormed(g) && 0 <= x < Width && 1 <= y < Height - 1
    requires g[x][y + 1].Some? && IsBombPiece(g[x][y]) && IsBombPiece(g[x][y - 1])
    ensures VerticalMarks(g, x, y, g[x][y].value) == [g[x][y].value, g[x][y - 1].value]
  {
  }

  /** Border cells, and cells with an empty neighbour on the axis, mark nothing on that axis. */
  lemma MarksOnlyInterior(g: Grid, x: int, y: int, c: Piece)
    requires WellFormed(g) && InBounds(x, y)
    ensures (x == 0 || x == Width - 1 || g[x - 1][y].None? || g[x + 1][y].None?)
            ==> HorizontalMarks(g, x, y, c) == []
    ensures (y == 0 || y == Height - 1 || g[x][y - 1].None? || g[x][y + 1].None?)
            ==> VerticalMarks(g, x, y, c) == []
  {
  }

  /** Propagation only adds: every gem listed before CheckForBombs is listed after it. */
  lemma CheckForBombsKeeps(g: Grid, posIndex: map<nat, Pos>, cur: seq<Piece>)
    requires WellFormed(g)
    ensures Ids(cur) <= Ids(CheckForBombs(g, posIndex, cur))
  {
    if |cur| > 0 {
      forall i | i in Ids(cur) ensures i in Ids(CheckForBombs(g, posIndex, cur)) {
        var t :| 0 <= t < |cur| && cur[t].id == i;
        PropagateMembers(g, posIndex, cur, |cur|, cur[t]);
        var r := Propagate(g, posIndex, cur, |cur|);
        var j :| 0 <= j < |r| && r[j] == cur[t];
      }
    }
  }
}
