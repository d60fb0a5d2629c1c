/**
 * GameBoard: the 7x7 array of gems and the list of current matches, together with the
 * per-instance gem fields the board code reads and writes (isMatch, posIndex) and the
 * registration fields of ScGem.SetupGem. Gem objects are identified by their instance id.
 */
module GameBoard {
  import opened Options
  import opened Pieces
  import opened Detection
  import opened Resolution
  import DetectionProperties

  class Board {
    /** _allGems[x, y] */
    const cells: array2<Option<Piece>>
    /** _currentMatches */
    var currentMatches: seq<Piece>
    /** The ids of the gem instances whose isMatch flag is set (it is never cleared). */
    var isMatch: set<nat>
    /** gem.posIndex of each instance that has been set up. */
    var posIndex: map<nat, Pos>
    /** gem._registeredBoardPos and gem._isBoardPosRegistered */
    var registeredPos: map<nat, Pos>
    var registered: set<nat>

    ghost predicate Valid()
      reads this
    {
      cells.Length0 == Width && cells.Length1 == Height
      && Ids(currentMatches) <= isMatch
    }

    /** The board as a value, for the detection functions. */
    ghost function Snapshot(): (g: Grid)
      reads cells
      requires cells.Length0 == Width && cells.Length1 == Height
      ensures WellFormed(g)
    {
      seq(Width, x requires 0 <= x < Width reads cells =>
        seq(Height, y requires 0 <= y < Height reads cells => cells[x, y]))
    }

    constructor ()
      ensures Valid() && fresh(cells)
      ensures forall x, y :: InBounds(x, y) ==> cells[x, y].None?
      ensures currentMatches == [] && isMatch == {} && posIndex == map[]
    {
      cells := new Option<Piece>[Width, Height]((x, y) => None);
      currentMatches := [];
      isMatch := {};
      posIndex := map[];
      registeredPos := map[];
      registered := {};
    }

    function GetGem(x: int, y: int): Option<Piece>
      reads cells
      requires cells.Length0 == Width && cells.Length1 == Height && InBounds(x, y)
    {
      cells[x, y]
    }

    method SetGem(x: int, y: int, gem: Option<Piece>)
      requires cells.Length0 == Width && cells.Length1 == Height && InBounds(x, y)
      modifies cells
      ensures forall i, j :: InBounds(i, j) ==>
        cells[i, j] == if i == x && j == y then gem else old(cells[i, j])
      ensures Snapshot() == Put(old(Snapshot()), x, y, gem)
    {
      ghost var before := Snapshot();
      cells[x, y] := gem;
      GridExt(Snapshot(), Put(before, x, y, gem));
    }

    /** ScGem.SetupGem: place the instance at `position`, not yet registered. */
    method SetupGem(id: nat, position: Pos)
      modifies this`posIndex, this`registeredPos, this`registered
      ensures posIndex == old(posIndex)[id := position]
      ensures registeredPos == old(registeredPos)[id := position]
      ensures registered == old(registered) - {id}
    {
      posIndex := posIndex[id := position];
      registeredPos := registeredPos[id := position];
      registered := registered - {id};
    }

    /** An assignment to gem.posIndex of the instance `id`. */
    method SetPosIndex(id: nat, position: Pos)
      modifies this`posIndex
      ensures posIndex == old(posIndex)[id := position]
    {
      posIndex := posIndex[id := position];
    }

    method MatchesAt(position: Pos, gemToCheck: Option<Piece>) returns (r: bool)
      requires cells.Length0 == Width && cells.Length1 == Height
      requires InBounds(position.x, position.y)
      ensures r == Detection.MatchesAt(Snapshot(), position.x, position.y, gemToCheck)
    {
      if gemToCheck.None? {
        return false;
      }
      var x, y := position.x, position.y;
      if x > 1 {
        var left1, left2 := cells[x - 1, y], cells[x - 2, y];
        if left1.Some? && left2.Some?
          && AreInSameMatchGroup(gemToCheck, left1) && AreInSameMatchGroup(gemToCheck, left2)
        {
          return true;
        }
      }
      if y <= 1 {
        return false;
      }
      var down1, down2 := cells[x, y - 1], cells[x, y - 2];
      r := down1.Some? && down2.Some?
        && AreInSameMatchGroup(gemToCheck, down1) && AreInSameMatchGroup(gemToCheck, down2);
    }

    /** Flag each gem and append it to the list. */
    method MarkAsMatch(gems: seq<Piece>)
      requires Valid()
      modifies this`currentMatches, this`isMatch
      ensures Valid()
      ensures currentMatches == old(currentMatches) + gems
      ensures isMatch == old(isMatch) + Ids(gems)
    {
      if |gems| == 0 {
        assert gems == [];
        return;
      }
      var i := 0;
      while i < |gems|
        invariant 0 <= i <= |gems|
        invariant currentMatches == old(currentMatches) + gems[..i]
        invariant isMatch == old(isMatch) + Ids(gems[..i])
      {
        assert gems[..i + 1] == gems[..i] + [gems[i]];
        IdsSnoc(gems[..i], gems[i]);
        isMatch := isMatch + {gems[i].id};
        currentMatches := currentMatches + [gems[i]];
        i := i + 1;
      }
      assert gems[..i] == gems;
      IdsConcat(old(currentMatches), gems);
    }

    method TryAddHorizontalMatch(x: int, y: int, currentGem: Piece)
      requires Valid() && InBounds(x, y)
      modifies this`currentMatches, this`isMatch
      ensures Valid()
      ensures currentMatches == old(currentMatches) + HorizontalMarks(Snapshot(), x, y, currentGem)
      ensures isMatch == old(isMatch) + Ids(HorizontalMarks(Snapshot(), x, y, currentGem))
    {
      ghost var g := Snapshot();
      if x <= 0 || x >= Width - 1 {
        IdsEmpty();
        return;
      }
      var leftGem, rightGem := cells[x - 1, y], cells[x + 1, y];
      if leftGem.None? || rightGem.None? {
        IdsEmpty();
        return;
      }
      if CheckDoubleBombMatch(Some(currentGem), rightGem) {
        MarkAsMatch([currentGem, rightGem.value]);
        return;
      }
      if CheckDoubleBombMatch(Some(currentGem), leftGem) {
        MarkAsMatch([currentGem, leftGem.value]);
        return;
      }
      if !AreInSameMatchGroup(Some(currentGem), leftGem) || !AreInSameMatchGroup(Some(currentGem), rightGem) {
        IdsEmpty();
        return;
      }
      MarkAsMatch([currentGem, leftGem.value, rightGem.value]);
    }

    method TryAddVerticalMatch(x: int, y: int, currentGem: Piece)
      requires Valid() && InBounds(x, y)
      modifies this`currentMatches, this`isMatch
      ensures Valid()
      ensures currentMatches == old(currentMatches) + VerticalMarks(Snapshot(), x, y, currentGem)
      ensures isMatch == old(isMatch) + Ids(VerticalMarks(Snapshot(), x, y, currentGem))
    {
      if y <= 0 || y >= Height - 1 {
        IdsEmpty();
        return;
      }
      var aboveGem, belowGem := cells[x, y - 1], cells[x, y + 1];
      if aboveGem.None? || belowGem.None? {
        IdsEmpty();
        return;
      }
      if CheckDoubleBombMatch(Some(currentGem), aboveGem) {
        MarkAsMatch([currentGem, aboveGem.value]);
        return;
      }
      if CheckDoubleBombMatch(Some(currentGem), belowGem) {
        MarkAsMatch([currentGem, belowGem.value]);
        return;
      }
      if !AreInSameMatchGroup(Some(currentGem), aboveGem) || !AreInSameMatchGroup(Some(currentGem), belowGem) {
        IdsEmpty();
        return;
      }
      MarkAsMatch([currentGem, belowGem.value, aboveGem.value]);
    }

    /** The inner loop of MarkBombArea: rows ylo .. yhi of column x, where on the board. */
    method MarkAreaColumn(x: int, ylo: int, yhi: int)
      requires Valid()
      modifies this`currentMatches, this`isMatch
      ensures Valid()
      ensures currentMatches == old(currentMatches) + AreaColumn(Snapshot(), x, ylo, yhi + 1)
      ensures isMatch == old(isMatch) + Ids(AreaColumn(Snapshot(), x, ylo, yhi + 1))
    {
      ghost var g := Snapshot();
      ghost var added: seq<Piece> := [];
      IdsEmpty();
      var y := ylo;
      while y <= yhi
        invariant ylo <= y && (y <= yhi + 1 || y == ylo)
        invariant added == AreaColumn(g, x, ylo, y)
        invariant currentMatches == old(currentMatches) + added
        invariant isMatch == old(isMatch) + Ids(added)
        decreases yhi - y
      {
        if InBounds(x, y) {
          var gem := cells[x, y];
          if gem.Some? {
            IdsSnoc(added, gem.value);
            isMatch := isMatch + {gem.value.id};
            currentMatches := currentMatches + [gem.value];
            added := added + [gem.value];
          }
        }
        y := y + 1;
      }
    }

    /** Mark every gem of the clipped square of side 2*blastSize+1 around bombPos. */
    method MarkBombArea(bombPos: Pos, blastSize: int)
      requires Valid()
      modifies this`currentMatches, this`isMatch
      ensures Valid()
      ensures currentMatches == Detection.MarkBombArea(Snapshot(), old(currentMatches), bombPos, blastSize)
      ensures isMatch == old(isMatch) + Ids(BombArea(Snapshot(), bombPos, blastSize))
    {
      hide AreaColumn;
      ghost var g := Snapshot();
      var lo, hi := bombPos.x - blastSize, bombPos.x + blastSize;
      var ylo, yhi := bombPos.y - blastSize, bombPos.y + blastSize;
      ghost var added: seq<Piece> := [];
      IdsEmpty();
      var x := lo;
      while x <= hi
        invariant lo <= x && (x <= hi + 1 || x == lo)
        invariant added == AreaColumns(g, lo, ylo, yhi, x)
        invariant currentMatches == old(currentMatches) + added
        invariant isMatch == old(isMatch) + Ids(added)
        decreases hi - x
      {
        ghost var column := AreaColumn(g, x, ylo, yhi + 1);
        MarkAreaColumn(x, ylo, yhi);
        IdsConcat(added, column);
        added := added + column;
        x := x + 1;
      }
      assert added == BombArea(g, bombPos, blastSize);
      IdsConcat(old(currentMatches), added);
      if |currentMatches| > 0 {
        IdsDistinct(currentMatches);
        currentMatches := Distinct(currentMatches);
      }
    }

    /** The inner loop of CheckForBombs: the four neighbours of `gem`, which sits at `pos`. */
    method TriggerAdjacentBombs(gem: Piece, pos: Pos)
      requires Valid()
      modifies this`currentMatches, this`isMatch
      ensures Valid()
      ensures currentMatches == TriggerNeighbors(Snapshot(), pos, gem, old(currentMatches), 4)
      ensures isMatch == old(isMatch) + Ids(currentMatches)
      ensures Ids(old(currentMatches)) <= Ids(currentMatches)
    {
      hide Detection.MarkBombArea;
      ghost var g := Snapshot();
      var k := 0;
      while k < 4
        invariant 0 <= k <= 4
        invariant Valid()
        invariant currentMatches == TriggerNeighbors(g, pos, gem, old(currentMatches), k)
        invariant isMatch == old(isMatch) + Ids(currentMatches)
        invariant Ids(old(currentMatches)) <= Ids(currentMatches)
      {
        TriggerNeighbor(gem, pos, k, old(currentMatches));
        k := k + 1;
      }
    }

    /** One neighbour of `gem`: a bomb there that can interact with it marks its area. */
    method TriggerNeighbor(gem: Piece, pos: Pos, k: nat, ghost cur: seq<Piece>)
      requires Valid() && k < 4 && Ids(cur) <= Ids(currentMatches)
      requires currentMatches == TriggerNeighbors(Snapshot(), pos, gem, cur, k)
      modifies this`currentMatches, this`isMatch
      ensures Valid() && Ids(cur) <= Ids(old(currentMatches)) <= Ids(currentMatches)
      ensures currentMatches == TriggerNeighbors(Snapshot(), pos, gem, cur, k + 1)
      ensures isMatch == old(isMatch) + Ids(currentMatches)
    {
      hide Detection.MarkBombArea;
      ghost var g := Snapshot();
      var n := Neighbor(pos, k);
      if InBounds(n.x, n.y) {
        var neighbor := cells[n.x, n.y];
        if neighbor.Some? && neighbor.value.kind.BombGem? && CanInteractWith(neighbor.value, Some(gem)) {
          ghost var prev := currentMatches;
          MarkBombArea(n, neighbor.value.kind.blastSize);
          MarkBombAreaIds(g, prev, n, neighbor.value.kind.blastSize);
          return;
        }
      }
      assert Ids(currentMatches) <= isMatch;
    }

    /** One propagation pass over a snapshot of the list: gems added here do not propagate. */
    method CheckForBombs()
      requires Valid()
      modifies this`currentMatches, this`isMatch
      ensures Valid()
      ensures currentMatches == Detection.CheckForBombs(Snapshot(), posIndex, old(currentMatches))
      ensures isMatch == old(isMatch) + Ids(currentMatches)
    {
      if |currentMatches| == 0 {
        return;
      }
      hide TriggerNeighbors;
      ghost var g := Snapshot();
      var matches := currentMatches;
      var i := 0;
      while i < |matches|
        invariant 0 <= i <= |matches|
        invariant Valid()
        invariant currentMatches == Propagate(g, posIndex, matches, i)
        invariant isMatch == old(isMatch) + Ids(currentMatches)
      {
        var gem := matches[i];
        TriggerAdjacentBombs(gem, PosOf(posIndex, gem));
        i := i + 1;
      }
    }

    /** One cell of the scan: an empty cell is skipped, a gem gets both checks. */
    method ScanCell(x: int, y: int)
      requires Valid() && InBounds(x, y)
      modifies this`currentMatches, this`isMatch
      ensures Valid()
      ensures currentMatches == old(currentMatches) + CellMarks(Snapshot(), x, y)
      ensures isMatch == old(isMatch) + Ids(CellMarks(Snapshot(), x, y))
    {
      hide HorizontalMarks, VerticalMarks;
      ghost var g := Snapshot();
      var currentGem := cells[x, y];
      if currentGem.None? {
        IdsEmpty();
        return;
      }
      ghost var h, v := HorizontalMarks(g, x, y, currentGem.value), VerticalMarks(g, x, y, currentGem.value);
      assert CellMarks(g, x, y) == h + v;
      TryAddHorizontalMatch(x, y, currentGem.value);
      TryAddVerticalMatch(x, y, currentGem.value);
      IdsConcat(h, v);
      assert currentMatches == old(currentMatches) + h + v;
    }

    /** The inner loop of FindAllMatches: every row of column x, bottom to top. */
    method ScanColumn(x: int)
      requires Valid() && 0 <= x < Width
      modifies this`currentMatches, this`isMatch
      ensures Valid()
      ensures currentMatches == old(currentMatches) + ColumnMarks(Snapshot(), x, Height)
      ensures isMatch == old(isMatch) + Ids(ColumnMarks(Snapshot(), x, Height))
    {
      hide CellMarks;
      ghost var g := Snapshot();
      IdsEmpty();
      var y := 0;
      while y < Height
        invariant 0 <= y <= Height
        invariant Valid()
        invariant currentMatches == old(currentMatches) + ColumnMarks(g, x, y)
        invariant isMatch == old(isMatch) + Ids(ColumnMarks(g, x, y))
      {
        ghost var added := ColumnMarks(g, x, y);
        ScanCell(x, y);
        IdsConcat(added, CellMarks(g, x, y));
        y := y + 1;
      }
    }

    method FindAllMatches()
      requires Valid()
      modifies this`currentMatches, this`isMatch
      ensures Valid()
      ensures currentMatches == Detection.FindAllMatches(Snapshot(), posIndex)
      ensures isMatch == old(isMatch) + Ids(currentMatches)
    {
      ghost var g := Snapshot();
      currentMatches := [];
      IdsEmpty();
      var x := 0;
      while x < Width
        invariant 0 <= x <= Width
        invariant Valid()
        invariant currentMatches == ScanMarks(g, x)
        invariant isMatch == old(isMatch) + Ids(currentMatches)
      {
        ghost var before := currentMatches;
        ScanColumn(x);
        IdsConcat(before, ColumnMarks(g, x, Height));
        x := x + 1;
      }
      if |currentMatches| > 0 {
        IdsDistinct(currentMatches);
        currentMatches := Distinct(currentMatches);
      }
      ghost var snap := currentMatches;
      CheckForBombs();
      DetectionProperties.CheckForBombsKeeps(g, posIndex, snap);
    }

    /** Detection reads the board and posIndex only, so a second call reproduces the list. */
    method FindAllMatchesTwice() returns (first: seq<Piece>, second: seq<Piece>)
      requires Valid()
      modifies this`currentMatches, this`isMatch
      ensures Valid()
      ensures first == second == currentMatches
    {
      FindAllMatches();
      first := currentMatches;
      FindAllMatches();
      second := currentMatches;
    }
  }
}
