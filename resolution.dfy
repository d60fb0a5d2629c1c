/**
 * Value-level specification of how ScGameLogicManager resolves a match: which cells are
 * emptied, what the score gains, and the bookkeeping every gem on the board keeps
 * (its posIndex, its pool activity, its membership of the bomb set).
 */
module Resolution {
  import opened Options
  import opened Pieces
  import opened Detection

  /** The board with cell (x, y) replaced by `v`. */
  function Put(g: Grid, x: int, y: int, v: Option<Piece>): (r: Grid)
    requires WellFormed(g) && InBounds(x, y)
    ensures WellFormed(r)
    ensures r[x][y] == v
    ensures forall i, j :: InBounds(i, j) && (i != x || j != y) ==> r[i][j] == g[i][j]
  {
    g[x := g[x][y := v]]
  }

  /** Writing back what a cell already holds changes nothing. */
  lemma PutSame(g: Grid, x: int, y: int)
    requires WellFormed(g) && InBounds(x, y)
    ensures Put(g, x, y, g[x][y]) == g
  {
    GridExt(Put(g, x, y, g[x][y]), g);
  }

  /** Only the last of two writes to the same cell remains. */
  lemma PutTwice(g: Grid, x: int, y: int, a: Option<Piece>, b: Option<Piece>)
    requires WellFormed(g) && InBounds(x, y)
    ensures Put(Put(g, x, y, a), x, y, b) == Put(g, x, y, b)
  {
    GridExt(Put(Put(g, x, y, a), x, y, b), Put(g, x, y, b));
  }

  /** Two writes into column x are two updates of that column. */
  lemma PutColumn(g: Grid, x: int, col: seq<Option<Piece>>, a: int, b: int, v: Option<Piece>, w: Option<Piece>)
    requires WellFormed(g) && |col| == Height && InBounds(x, a) && InBounds(x, b)
    ensures Put(Put(g[x := col], x, a, v), x, b, w) == g[x := col[a := v][b := w]]
  {
  }

  /** Two boards that agree on every cell are the same board. */
  lemma GridExt(a: Grid, b: Grid)
    requires WellFormed(a) && WellFormed(b)
    requires forall x, y :: InBounds(x, y) ==> a[x][y] == b[x][y]
    ensures a == b
  {
    forall x | 0 <= x < Width
      ensures a[x] == b[x]
    {
      forall y | 0 <= y < Height
        ensures a[x][y] == b[x][y]
      {
        assert InBounds(x, y);
      }
    }
  }

  // ---------------------------------------------------------------- score

  /** What ScoreCheck adds for the gem in a cell (nothing for an empty cell). */
  function CellValue(c: Option<Piece>): int {
    if c.Some? then c.value.scoreValue else 0
  }

  function ColumnScore(col: seq<Option<Piece>>): int {
    if |col| == 0 then 0 else ColumnScore(col[..|col| - 1]) + CellValue(col[|col| - 1])
  }

  function ColumnsScore(g: Grid, m: nat): int
    requires m <= |g|
  {
    if m == 0 then 0 else ColumnsScore(g, m - 1) + ColumnScore(g[m - 1])
  }

  /** The summed score value of every gem on the board. */
  function BoardScore(g: Grid): int
    requires WellFormed(g)
  {
    ColumnsScore(g, Width)
  }

  lemma {:induction false} ColumnScorePut(col: seq<Option<Piece>>, y: int, v: Option<Piece>)
    requires 0 <= y < |col|
    ensures ColumnScore(col[y := v]) == ColumnScore(col) - CellValue(col[y]) + CellValue(v)
  {
    var n := |col|;
    if y == n - 1 {
      assert col[y := v][..n - 1] == col[..n - 1];
    } else {
      assert col[y := v][..n - 1] == col[..n - 1][y := v];
      ColumnScorePut(col[..n - 1], y, v);
    }
  }

  lemma {:induction false} ColumnsScoreSet(g: Grid, m: nat, x: int, col: seq<Option<Piece>>)
    requires m <= |g| && 0 <= x < |g|
    ensures ColumnsScore(g[x := col], m)
      == ColumnsScore(g, m) + (if x < m then ColumnScore(col) - ColumnScore(g[x]) else 0)
  {
    if m > 0 {
      ColumnsScoreSet(g, m - 1, x, col);
    }
  }

  /** Replacing one cell changes the board's value by exactly the difference of the two cells. */
  lemma PutScore(g: Grid, x: int, y: int, v: Option<Piece>)
    requires WellFormed(g) && InBounds(x, y)
    ensures BoardScore(Put(g, x, y, v)) == BoardScore(g) - CellValue(g[x][y]) + CellValue(v)
  {
    ColumnScorePut(g[x], y, v);
    ColumnsScoreSet(g, Width, x, g[x][y := v]);
  }

  lemma {:induction false} EmptyColumnScore(col: seq<Option<Piece>>)
    requires forall y :: 0 <= y < |col| ==> col[y].None?
    ensures ColumnScore(col) == 0
  {
    if |col| > 0 {
      EmptyColumnScore(col[..|col| - 1]);
    }
  }

  lemma {:induction false} EmptyColumnsScore(g: Grid, m: nat)
    requires m <= |g|
    requires forall x, y :: 0 <= x < m && 0 <= y < |g[x]| ==> g[x][y].None?
    ensures ColumnsScore(g, m) == 0
  {
    if m > 0 {
      EmptyColumnsScore(g, m - 1);
      EmptyColumnScore(g[m - 1]);
    }
  }

  // ---------------------------------------------------------------- cleared cells

  /** `g` with every cell whose position is in `s` emptied. */
  function ClearSet(g: Grid, s: set<Pos>): (r: Grid)
    requires WellFormed(g)
    ensures WellFormed(r)
    ensures forall x, y :: InBounds(x, y) ==> r[x][y] == if Pos(x, y) in s then None else g[x][y]
  {
    seq(Width, x requires 0 <= x < Width =>
      seq(Height, y requires 0 <= y < Height => if Pos(x, y) in s then None else g[x][y]))
  }

  /** Every cell of the board. */
  function AllCells(): set<Pos> {
    set x, y | 0 <= x < Width && 0 <= y < Height :: Pos(x, y)
  }

  lemma ClearNothing(g: Grid)
    requires WellFormed(g)
    ensures ClearSet(g, {}) == g
  {
    GridExt(ClearSet(g, {}), g);
  }

  /** Clearing one more cell is emptying that cell of the already cleared board. */
  lemma ClearOneMore(g: Grid, s: set<Pos>, p: Pos)
    requires WellFormed(g) && InBounds(p.x, p.y)
    ensures ClearSet(g, s + {p}) == Put(ClearSet(g, s), p.x, p.y, None)
  {
    GridExt(ClearSet(g, s + {p}), Put(ClearSet(g, s), p.x, p.y, None));
  }

  /** The double-bomb sweep: with every cell cleared the board is empty and worth nothing. */
  lemma ClearEverything(g: Grid)
    requires WellFormed(g)
    ensures forall x, y :: InBounds(x, y) ==> ClearSet(g, AllCells())[x][y].None?
    ensures BoardScore(ClearSet(g, AllCells())) == 0
  {
    var e: Grid := ClearSet(g, AllCells());
    forall x: int, y: int | InBounds(x, y)
      ensures e[x][y].None?
    {
      assert Pos(x, y) in AllCells();
    }
    EmptyColumnsScore(e, Width);
  }

  // ---------------------------------------------------------------- bookkeeping

  /**
   * What the manager keeps true of the gem `p` in cell (x, y): its posIndex names that cell,
   * its pool instance is active, and it is in `_bombs` exactly when it is a bomb.
   */
  ghost predicate CellTracked(p: Piece, x: int, y: int, posIndex: map<nat, Pos>, bombs: set<nat>, active: set<nat>) {
    p.id in posIndex && posIndex[p.id] == Pos(x, y)
    && p.id in active
    && (p.id in bombs <==> p.kind.BombGem?)
  }

  /** Every gem on the board is tracked, and `_bombs` holds only active instances. */
  ghost predicate Tracked(g: Grid, posIndex: map<nat, Pos>, bombs: set<nat>, active: set<nat>)
    requires WellFormed(g)
  {
    bombs <= active
    && forall x, y :: InBounds(x, y) && g[x][y].Some? ==>
         CellTracked(g[x][y].value, x, y, posIndex, bombs, active)
  }

  /** A tracked gem's posIndex is its cell. */
  lemma TrackedPos(g: Grid, posIndex: map<nat, Pos>, bombs: set<nat>, active: set<nat>, x: int, y: int)
    requires WellFormed(g) && Tracked(g, posIndex, bombs, active)
    requires InBounds(x, y) && g[x][y].Some?
    ensures PosOf(posIndex, g[x][y].value) == Pos(x, y)
    ensures g[x][y].value.id in active
  {
  }

  /** Each instance occupies at most one cell, so equal identities mean the same cell. */
  lemma TrackedUnique(g: Grid, posIndex: map<nat, Pos>, bombs: set<nat>, active: set<nat>, x: int, y: int, i: int, j: int)
    requires WellFormed(g) && Tracked(g, posIndex, bombs, active)
    requires InBounds(x, y) && InBounds(i, j) && g[x][y].Some? && g[i][j].Some?
    requires g[x][y].value.id == g[i][j].value.id
    ensures x == i && y == j
  {
    assert CellTracked(g[x][y].value, x, y, posIndex, bombs, active);
    assert CellTracked(g[i][j].value, i, j, posIndex, bombs, active);
  }

  /** A listed gem that sits on the board sits in the cell its posIndex names. */
  lemma TrackedOnBoard(g: Grid, posIndex: map<nat, Pos>, bombs: set<nat>, active: set<nat>, p: Piece)
    requires WellFormed(g) && Tracked(g, posIndex, bombs, active) && OnBoard(g, p)
    ensures var c := PosOf(posIndex, p); InBounds(c.x, c.y) && g[c.x][c.y] == Some(p)
    ensures p.id in active && (p.id in bombs <==> p.kind.BombGem?)
  {
    var x, y :| InBounds(x, y) && g[x][y] == Some(p);
    assert CellTracked(g[x][y].value, x, y, posIndex, bombs, active);
  }

  /** DestroyMatchedGemsAt / CreateBombAt: returning the gem of a cell to the pool and emptying the cell. */
  lemma TrackedClear(g: Grid, posIndex: map<nat, Pos>, bombs: set<nat>, active: set<nat>, x: int, y: int)
    requires WellFormed(g) && Tracked(g, posIndex, bombs, active)
    requires InBounds(x, y) && g[x][y].Some?
    ensures var id := g[x][y].value.id;
      Tracked(Put(g, x, y, None), posIndex, bombs - {id}, active - {id})
  {
    var id := g[x][y].value.id;
    var g': Grid := Put(g, x, y, None);
    forall i: int, j: int | InBounds(i, j) && g'[i][j].Some?
      ensures CellTracked(g'[i][j].value, i, j, posIndex, bombs - {id}, active - {id})
    {
      if g[i][j].value.id == id {
        TrackedUnique(g, posIndex, bombs, active, x, y, i, j);
      }
      assert CellTracked(g[i][j].value, i, j, posIndex, bombs, active);
    }
  }

  /** SpawnGem: a gem whose instance was not active is placed in an empty cell and set up there. */
  lemma TrackedPlace(g: Grid, posIndex: map<nat, Pos>, bombs: set<nat>, active: set<nat>, x: int, y: int, p: Piece)
    requires WellFormed(g) && Tracked(g, posIndex, bombs, active)
    requires InBounds(x, y) && g[x][y].None? && p.id !in active
    ensures Tracked(Put(g, x, y, Some(p)), posIndex[p.id := Pos(x, y)],
                    if p.kind.BombGem? then bombs + {p.id} else bombs, active + {p.id})
  {
    var g': Grid := Put(g, x, y, Some(p));
    var bombs' := if p.kind.BombGem? then bombs + {p.id} else bombs;
    forall i: int, j: int | InBounds(i, j) && g'[i][j].Some?
      ensures CellTracked(g'[i][j].value, i, j, posIndex[p.id := Pos(x, y)], bombs', active + {p.id})
    {
      if i != x || j != y {
        assert CellTracked(g[i][j].value, i, j, posIndex, bombs, active);
      }
    }
  }

  /** DecreaseRowCo's step: a gem drops to an empty cell of its column, its posIndex following it. */
  lemma TrackedMove(g: Grid, posIndex: map<nat, Pos>, bombs: set<nat>, active: set<nat>, x: int, y: int, y2: int)
    requires WellFormed(g) && Tracked(g, posIndex, bombs, active)
    requires InBounds(x, y) && InBounds(x, y2) && g[x][y].Some? && g[x][y2].None?
    ensures var p := g[x][y].value;
      Tracked(Put(Put(g, x, y2, Some(p)), x, y, None), posIndex[p.id := Pos(x, y2)], bombs, active)
  {
    var p := g[x][y].value;
    var g': Grid := Put(Put(g, x, y2, Some(p)), x, y, None);
    forall i: int, j: int | InBounds(i, j) && g'[i][j].Some?
      ensures CellTracked(g'[i][j].value, i, j, posIndex[p.id := Pos(x, y2)], bombs, active)
    {
      if i != x || j != y2 {
        if g[i][j].value.id == p.id {
          TrackedUnique(g, posIndex, bombs, active, x, y, i, j);
        }
        assert CellTracked(g[i][j].value, i, j, posIndex, bombs, active);
      } else {
        assert CellTracked(g[x][y].value, x, y, posIndex, bombs, active);
      }
    }
  }

  /** MovePieces: two gems exchange cells and posIndex values. */
  lemma TrackedSwap(g: Grid, posIndex: map<nat, Pos>, bombs: set<nat>, active: set<nat>, a: Pos, b: Pos)
    requires WellFormed(g) && Tracked(g, posIndex, bombs, active)
    requires InBounds(a.x, a.y) && InBounds(b.x, b.y) && a != b
    requires g[a.x][a.y].Some? && g[b.x][b.y].Some?
    ensures var p, q := g[a.x][a.y].value, g[b.x][b.y].value;
      Tracked(Put(Put(g, b.x, b.y, Some(p)), a.x, a.y, Some(q)), posIndex[p.id := b][q.id := a], bombs, active)
  {
    var p, q := g[a.x][a.y].value, g[b.x][b.y].value;
    assert CellTracked(p, a.x, a.y, posIndex, bombs, active);
    assert CellTracked(q, b.x, b.y, posIndex, bombs, active);
    var g': Grid := Put(Put(g, b.x, b.y, Some(p)), a.x, a.y, Some(q));
    forall i: int, j: int | InBounds(i, j) && g'[i][j].Some?
      ensures CellTracked(g'[i][j].value, i, j, posIndex[p.id := b][q.id := a], bombs, active)
    {
      if Pos(i, j) != a && Pos(i, j) != b {
        if g[i][j].value.id == p.id {
          TrackedUnique(g, posIndex, bombs, active, a.x, a.y, i, j);
        }
        if g[i][j].value.id == q.id {
          TrackedUnique(g, posIndex, bombs, active, b.x, b.y, i, j);
        }
        assert CellTracked(g[i][j].value, i, j, posIndex, bombs, active);
      }
    }
  }

  /** SetBombColor on a bomb on the board: only its colour changes. */
  lemma TrackedRecolor(g: Grid, posIndex: map<nat, Pos>, bombs: set<nat>, active: set<nat>, x: int, y: int, c: GemType)
    requires WellFormed(g) && Tracked(g, posIndex, bombs, active)
    requires InBounds(x, y) && g[x][y].Some? && g[x][y].value.kind.BombGem?
    ensures var p := g[x][y].value;
      Tracked(Put(g, x, y, Some(p.(kind := BombGem(c, p.kind.blastSize)))), posIndex, bombs, active)
  {
    var p := g[x][y].value;
    var g': Grid := Put(g, x, y, Some(p.(kind := BombGem(c, p.kind.blastSize))));
    forall i: int, j: int | InBounds(i, j) && g'[i][j].Some?
      ensures CellTracked(g'[i][j].value, i, j, posIndex, bombs, active)
    {
      assert CellTracked(g[i][j].value, i, j, posIndex, bombs, active);
    }
  }

  // ---------------------------------------------------------------- splitting the match list

  /** DestroyMatches' bombMatches: the listed gems that are in `_bombs`, in list order. */
  function BombsOf(ms: seq<Piece>, bombs: set<nat>): seq<Piece> {
    if |ms| == 0 then []
    else BombsOf(ms[..|ms| - 1], bombs) + (if ms[|ms| - 1].id in bombs then [ms[|ms| - 1]] else [])
  }

  /** DestroyMatches' regularMatches: the other listed gems, in list order. */
  function RegularsOf(ms: seq<Piece>, bombs: set<nat>): seq<Piece> {
    if |ms| == 0 then []
    else RegularsOf(ms[..|ms| - 1], bombs) + (if ms[|ms| - 1].id !in bombs then [ms[|ms| - 1]] else [])
  }

  /** Every listed gem goes to exactly one of the two lists, bombs to the first. */
  lemma {:induction false} SplitPartitions(ms: seq<Piece>, bombs: set<nat>)
    ensures multiset(BombsOf(ms, bombs)) + multiset(RegularsOf(ms, bombs)) == multiset(ms)
    ensures forall p :: p in BombsOf(ms, bombs) ==> p in ms && p.id in bombs
    ensures forall p :: p in RegularsOf(ms, bombs) ==> p in ms && p.id !in bombs
  {
    if |ms| > 0 {
      var init := ms[..|ms| - 1];
      SplitPartitions(init, bombs);
      assert ms == init + [ms[|ms| - 1]];
    }
  }

  /** The two lists together are as long as the match list. */
  lemma {:induction false} SplitLengths(ms: seq<Piece>, bombs: set<nat>)
    ensures |BombsOf(ms, bombs)| + |RegularsOf(ms, bombs)| == |ms|
  {
    if |ms| > 0 {
      SplitLengths(ms[..|ms| - 1], bombs);
    }
  }

  lemma NoDupSnoc(s: seq<Piece>, e: Piece)
    ensures NoDup(s + [e]) <==> NoDup(s) && e !in s
  {
    var t := s + [e];
    assert forall i :: 0 <= i < |s| ==> t[i] == s[i];
    if NoDup(s) && e !in s {
      forall i, j | 0 <= i < j < |t|
        ensures t[i] != t[j]
      {
        if j == |s| {
          assert t[i] == s[i];
        }
      }
    }
    if NoDup(t) {
      forall k | 0 <= k < |s|
        ensures s[k] != e
      {
        assert t[k] != t[|s|];
      }
    }
  }

  lemma NoDupSnocPos(s: seq<Pos>, e: Pos)
    requires NoDup(s) && e !in s
    ensures NoDup(s + [e])
  {
    var t := s + [e];
    forall i, j | 0 <= i < j < |t|
      ensures t[i] != t[j]
    {
      if j == |s| {
        assert t[i] == s[i];
      } else {
        assert t[i] == s[i] && t[j] == s[j];
      }
    }
  }

  /** Splitting a list without repetitions gives two lists without repetitions. */
  lemma {:induction false} SplitNoDup(ms: seq<Piece>, bombs: set<nat>)
    requires NoDup(ms)
    ensures NoDup(BombsOf(ms, bombs)) && NoDup(RegularsOf(ms, bombs))
  {
    if |ms| > 0 {
      var init, e := ms[..|ms| - 1], ms[|ms| - 1];
      assert ms == init + [e];
      NoDupSnoc(init, e);
      SplitNoDup(init, bombs);
      SplitPartitions(init, bombs);
      NoDupSnoc(BombsOf(init, bombs), e);
      NoDupSnoc(RegularsOf(init, bombs), e);
    }
  }

  // ---------------------------------------------------------------- the reserved bomb slot

  /** SelectBombSourceFromRegularMatches: the first regular gem, or null for an empty list. */
  function SelectBombSource(regular: seq<Piece>): Option<Piece> {
    if |regular| == 0 then None else Some(regular[0])
  }

  /** The cell a bomb is created in: the bomb source's posIndex, when a bomb is to be made. */
  function SlotOf(make: bool, regular: seq<Piece>, posIndex: map<nat, Pos>): Option<Pos> {
    if !make then None
    else match SelectBombSource(regular)
      case None => None
      case Some(s) => Some(PosOf(posIndex, s))
  }

  /** HandleRegularMatchesOnly reserves a bomb slot when four or more regular gems matched. */
  function RegularOnlySlot(regular: seq<Piece>, posIndex: map<nat, Pos>): Option<Pos> {
    SlotOf(|regular| >= 4, regular, posIndex)
  }

  /** DestroyMatchesWithBombsCo: not a double-bomb match, four or more pieces, three or more regular. */
  function WithBombsSlot(regular: seq<Piece>, bombCount: nat, posIndex: map<nat, Pos>): Option<Pos> {
    SlotOf(!(bombCount >= 2) && |regular| + bombCount >= 4 && |regular| >= 3, regular, posIndex)
  }

  /** The slot is the first regular gem's posIndex, and there is one exactly when four or more matched. */
  lemma RegularOnlySlotSpec(regular: seq<Piece>, posIndex: map<nat, Pos>)
    ensures RegularOnlySlot(regular, posIndex).Some? <==> |regular| >= 4
    ensures |regular| >= 4 ==> RegularOnlySlot(regular, posIndex) == Some(PosOf(posIndex, regular[0]))
  {
  }

  /**
   * With bombs in the match, a new bomb is made exactly when there is a single bomb and at
   * least three regular gems: the "four or more pieces" test is then implied.
   */
  lemma WithBombsSlotSpec(regular: seq<Piece>, bombCount: nat, posIndex: map<nat, Pos>)
    requires bombCount >= 1
    ensures WithBombsSlot(regular, bombCount, posIndex).Some? <==> bombCount == 1 && |regular| >= 3
    ensures WithBombsSlot(regular, bombCount, posIndex).Some? ==>
      WithBombsSlot(regular, bombCount, posIndex) == Some(PosOf(posIndex, regular[0]))
  {
  }

  /** CreateBombAt's colour: a bomb source passes on its colour, a regular gem its type. */
  function NewBombColor(source: Piece): GemType {
    match source.kind
    case BombGem(c, _) => c
    case RegularGem(t) => t
  }

  /**
   * A bomb made from a regular source takes part in exactly the matches of the source's
   * colour: it interacts with the source and with a regular gem just when that gem has the
   * source's type.
   */
  lemma NewBombJoinsSourceColour(source: Piece, bomb: Piece, other: Piece)
    requires source.kind.RegularGem? && source.kind.gemType != GemType.Bomb
    requires bomb.kind.BombGem? && bomb.kind.color == NewBombColor(source)
    requires other.kind.RegularGem?
    ensures CanInteractWith(bomb, Some(source))
    ensures CanInteractWith(bomb, Some(other)) <==> other.kind.gemType == source.kind.gemType
  {
  }

  // ---------------------------------------------------------------- cleared cells

  /** The cells the regular-match loop empties: every listed gem's posIndex except the reserved slot. */
  function RegularCleared(posIndex: map<nat, Pos>, gems: seq<Piece>, slot: Option<Pos>): set<Pos> {
    if |gems| == 0 then {}
    else
      var c := PosOf(posIndex, gems[|gems| - 1]);
      RegularCleared(posIndex, gems[..|gems| - 1], slot) + (if slot == Some(c) then {} else {c})
  }

  /** One more gem of the regular loop: its cell is added unless it is the reserved slot. */
  lemma RegularClearedSnoc(posIndex: map<nat, Pos>, gems: seq<Piece>, slot: Option<Pos>, i: nat)
    requires i < |gems|
    ensures var c := PosOf(posIndex, gems[i]);
      RegularCleared(posIndex, gems[..i + 1], slot)
        == RegularCleared(posIndex, gems[..i], slot) + (if slot == Some(c) then {} else {c})
  {
    assert gems[..i + 1][..i] == gems[..i];
  }

  lemma {:induction false} RegularClearedMembers(posIndex: map<nat, Pos>, gems: seq<Piece>, slot: Option<Pos>, c: Pos)
    ensures c in RegularCleared(posIndex, gems, slot) <==>
      slot != Some(c) && exists i :: 0 <= i < |gems| && PosOf(posIndex, gems[i]) == c
  {
    if |gems| > 0 {
      var init := gems[..|gems| - 1];
      RegularClearedMembers(posIndex, init, slot, c);
      if exists i :: 0 <= i < |gems| && PosOf(posIndex, gems[i]) == c {
        var i :| 0 <= i < |gems| && PosOf(posIndex, gems[i]) == c;
        if i < |gems| - 1 {
          assert init[i] == gems[i];
        }
      }
      if exists i :: 0 <= i < |init| && PosOf(posIndex, init[i]) == c {
        var i :| 0 <= i < |init| && PosOf(posIndex, init[i]) == c;
        assert gems[i] == init[i];
      }
    }
  }

  /** GetBombNeighborPositions' cells: on the board, at most one step away in each axis, not the centre. */
  predicate IsNeighbor(c: Pos, p: Pos) {
    InBounds(p.x, p.y) && p != c && c.x - 1 <= p.x <= c.x + 1 && c.y - 1 <= p.y <= c.y + 1
  }

  function NeighborCells(c: Pos): set<Pos> {
    set x, y | c.x - 1 <= x <= c.x + 1 && c.y - 1 <= y <= c.y + 1 && IsNeighbor(c, Pos(x, y)) :: Pos(x, y)
  }

  /** What a single bomb empties besides the regular cells: its neighbours except the slot, and itself. */
  function BlastCleared(center: Pos, slot: Option<Pos>): set<Pos> {
    set p | p in NeighborCells(center) && Some(p) != slot :: p
  }

  lemma NeighborCellsMembers(c: Pos, p: Pos)
    ensures p in NeighborCells(c) <==> IsNeighbor(c, p)
  {
    if IsNeighbor(c, p) {
      assert Pos(p.x, p.y) == p;
    }
  }

  // ---------------------------------------------------------------- one resolution step

  /** Clearing `a` and then `b` clears `a + b`. */
  lemma ClearTwice(g: Grid, a: set<Pos>, b: set<Pos>)
    requires WellFormed(g)
    ensures ClearSet(ClearSet(g, a), b) == ClearSet(g, a + b)
  {
    GridExt(ClearSet(ClearSet(g, a), b), ClearSet(g, a + b));
  }

  /** Once the whole board is cleared, what was cleared before does not matter. */
  lemma ClearAllAfter(g: Grid, s: set<Pos>)
    requires WellFormed(g)
    ensures ClearSet(ClearSet(g, s), AllCells()) == ClearSet(g, AllCells())
  {
    var a: Grid := ClearSet(ClearSet(g, s), AllCells());
    var b: Grid := ClearSet(g, AllCells());
    forall x: int, y: int | InBounds(x, y)
      ensures a[x][y] == b[x][y]
    {
      assert Pos(x, y) in AllCells();
    }
    GridExt(a, b);
  }

  /**
   * The regular-match loop never meets a cell it has already emptied: when its turn comes,
   * each listed gem still sits at its posIndex.
   */
  lemma RegularStillThere(g: Grid, posIndex: map<nat, Pos>, bombs: set<nat>, active: set<nat>,
                          gems: seq<Piece>, slot: Option<Pos>, i: nat)
    requires WellFormed(g) && Tracked(g, posIndex, bombs, active)
    requires NoDup(gems) && i < |gems|
    requires forall j :: 0 <= j < |gems| ==> OnBoard(g, gems[j])
    ensures var c := PosOf(posIndex, gems[i]);
      InBounds(c.x, c.y) && ClearSet(g, RegularCleared(posIndex, gems[..i], slot))[c.x][c.y] == Some(gems[i])
  {
    var c := PosOf(posIndex, gems[i]);
    TrackedOnBoard(g, posIndex, bombs, active, gems[i]);
    RegularClearedMembers(posIndex, gems[..i], slot, c);
    if c in RegularCleared(posIndex, gems[..i], slot) {
      var j :| 0 <= j < i && PosOf(posIndex, gems[..i][j]) == c;
      assert gems[..i][j] == gems[j];
      TrackedOnBoard(g, posIndex, bombs, active, gems[j]);
      assert false;
    }
  }

  /** A bomb's cell is not among the cells of the regular gems. */
  lemma BombNotRegularCleared(g: Grid, posIndex: map<nat, Pos>, bombs: set<nat>, active: set<nat>,
                              regular: seq<Piece>, slot: Option<Pos>, bomb: Piece)
    requires WellFormed(g) && Tracked(g, posIndex, bombs, active)
    requires forall j :: 0 <= j < |regular| ==> OnBoard(g, regular[j]) && regular[j].id !in bombs
    requires OnBoard(g, bomb) && bomb.id in bombs
    ensures PosOf(posIndex, bomb) !in RegularCleared(posIndex, regular, slot)
  {
    var c := PosOf(posIndex, bomb);
    TrackedOnBoard(g, posIndex, bombs, active, bomb);
    RegularClearedMembers(posIndex, regular, slot, c);
    if c in RegularCleared(posIndex, regular, slot) {
      var j :| 0 <= j < |regular| && PosOf(posIndex, regular[j]) == c;
      TrackedOnBoard(g, posIndex, bombs, active, regular[j]);
      assert false;
    }
  }

  /** Where the new bomb goes: HandleRegularMatchesOnly's rule without bombs, DestroyMatchesWithBombsCo's with. */
  function MatchSlot(regular: seq<Piece>, bombMatches: seq<Piece>, posIndex: map<nat, Pos>): Option<Pos> {
    if |bombMatches| == 0 then RegularOnlySlot(regular, posIndex)
    else WithBombsSlot(regular, |bombMatches|, posIndex)
  }

  /**
   * The cells one resolution empties (the new bomb aside): the whole board for two or more
   * bombs; otherwise the regular gems' cells, and for a single bomb its neighbours and its own
   * cell, never the reserved slot.
   */
  function MatchCleared(regular: seq<Piece>, bombMatches: seq<Piece>, posIndex: map<nat, Pos>): set<Pos> {
    var slot := MatchSlot(regular, bombMatches, posIndex);
    if |bombMatches| >= 2 then AllCells()
    else if |bombMatches| == 1 then
      var c := PosOf(posIndex, bombMatches[0]);
      RegularCleared(posIndex, regular, slot) + BlastCleared(c, slot) + {c}
    else RegularCleared(posIndex, regular, slot)
  }

  /** The reserved slot is never emptied, and a bomb is reserved only when at most one bomb matched. */
  lemma SlotSurvives(g: Grid, posIndex: map<nat, Pos>, bombs: set<nat>, active: set<nat>,
                     regular: seq<Piece>, bombMatches: seq<Piece>)
    requires WellFormed(g) && Tracked(g, posIndex, bombs, active)
    requires forall j :: 0 <= j < |regular| ==> OnBoard(g, regular[j]) && regular[j].id !in bombs
    requires forall j :: 0 <= j < |bombMatches| ==> OnBoard(g, bombMatches[j]) && bombMatches[j].id in bombs
    ensures var slot := MatchSlot(regular, bombMatches, posIndex);
      slot.Some? ==>
        |bombMatches| <= 1 && |regular| > 0 && slot.value == PosOf(posIndex, regular[0])
        && slot.value !in MatchCleared(regular, bombMatches, posIndex)
  {
    var slot := MatchSlot(regular, bombMatches, posIndex);
    if slot.Some? {
      var s := slot.value;
      RegularClearedMembers(posIndex, regular, slot, s);
      if |bombMatches| == 1 {
        var bomb := bombMatches[0];
        TrackedOnBoard(g, posIndex, bombs, active, bomb);
        TrackedOnBoard(g, posIndex, bombs, active, regular[0]);
      }
    }
  }

  /** Every regular gem's cell on the board is emptied unless it is the reserved slot. */
  lemma RegularCellsCleared(regular: seq<Piece>, bombMatches: seq<Piece>, posIndex: map<nat, Pos>, i: nat)
    requires i < |regular|
    requires InBounds(PosOf(posIndex, regular[i]).x, PosOf(posIndex, regular[i]).y)
    ensures var c := PosOf(posIndex, regular[i]);
      Some(c) != MatchSlot(regular, bombMatches, posIndex) ==> c in MatchCleared(regular, bombMatches, posIndex)
  {
    var c := PosOf(posIndex, regular[i]);
    RegularClearedMembers(posIndex, regular, MatchSlot(regular, bombMatches, posIndex), c);
    assert Pos(c.x, c.y) in AllCells();
  }

  /** A single bomb's own cell and its neighbours, except the reserved slot, are emptied. */
  lemma BlastCellsCleared(regular: seq<Piece>, bombMatches: seq<Piece>, posIndex: map<nat, Pos>, p: Pos)
    requires |bombMatches| == 1
    ensures var c := PosOf(posIndex, bombMatches[0]);
      c in MatchCleared(regular, bombMatches, posIndex)
      && (IsNeighbor(c, p) && Some(p) != MatchSlot(regular, bombMatches, posIndex) ==> p in MatchCleared(regular, bombMatches, posIndex))
  {
    NeighborCellsMembers(PosOf(posIndex, bombMatches[0]), p);
  }
}
