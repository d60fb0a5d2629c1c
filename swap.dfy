/**
 * ScGem's input handling: a swipe on a gem picks a neighbour by the swipe angle, the two
 * gems swap cells and posIndex values, and CheckMoveCo keeps the swap when it produced a
 * match or swaps back otherwise. Only a manager in the Move state accepts a swipe.
 */
module Swap {
  import opened Options
  import opened Pieces
  import opened Detection
  import opened Resolution
  import opened GameBoard
  import opened GameLogic
  import DetectionProperties

  datatype Direction = Right | Up | Down | Left

  /** A release closer than this to the press is not a swipe. */
  const MinSwipeDistance: real := 0.5

  /**
   * MovePieces' switch on the swipe angle in degrees, with each case's bounds guard. The
   * sectors are open at +-45 degrees, so a swipe at exactly 45 or -45 degrees moves nothing.
   */
  function SwipeDirection(angle: real, at: Pos): Option<Direction> {
    if -45.0 < angle < 45.0 && at.x < Width - 1 then Some(Right)
    else if 45.0 < angle <= 135.0 && at.y < Height - 1 then Some(Up)
    else if -135.0 <= angle < -45.0 && at.y > 0 then Some(Down)
    else if (angle > 135.0 || angle < -135.0) && at.x > 0 then Some(Left)
    else None
  }

  /** The posIndex change of the swiped gem; the other gem changes by the opposite amount. */
  function Offset(d: Direction): Pos {
    match d
    case Right => Pos(1, 0)
    case Up => Pos(0, 1)
    case Down => Pos(0, -1)
    case Left => Pos(-1, 0)
  }

  function Step(at: Pos, d: Direction): Pos {
    Pos(at.x + Offset(d).x, at.y + Offset(d).y)
  }

  /** The axis a swipe points along, by the nearest of the four directions (ties left out). */
  function NearestAxis(angle: real): Direction {
    var a := if angle < 0.0 then -angle else angle;
    if a < 45.0 then Right
    else if a > 135.0 then Left
    else if angle > 0.0 then Up
    else Down
  }

  /**
   * A swipe (Atan2 gives -180..180 degrees) moves towards the nearest axis exactly when it
   * does not point exactly along a diagonal at +-45 degrees and the neighbour there is on the
   * board; the neighbour is one step away.
   */
  lemma SwipeDirectionSpec(angle: real, at: Pos)
    requires InBounds(at.x, at.y) && -180.0 <= angle <= 180.0
    ensures SwipeDirection(angle, at).Some? <==>
      angle != 45.0 && angle != -45.0 && InBounds(Step(at, NearestAxis(angle)).x, Step(at, NearestAxis(angle)).y)
    ensures SwipeDirection(angle, at).Some? ==> SwipeDirection(angle, at) == Some(NearestAxis(angle))
  {
  }

  /** The swiped gem and its neighbour are orthogonally adjacent cells of the board. */
  lemma SwipeTargetAdjacent(angle: real, at: Pos)
    requires InBounds(at.x, at.y) && SwipeDirection(angle, at).Some?
    ensures var t := Step(at, SwipeDirection(angle, at).value);
      InBounds(t.x, t.y) && t != at
      && (if t.x == at.x then t.y - at.y == 1 || at.y - t.y == 1 else t.y == at.y && (t.x - at.x == 1 || at.x - t.x == 1))
  {
  }

  /** Swapping back what was swapped restores the board. */
  lemma SwapRoundTrip(g: Grid, a: Pos, b: Pos)
    requires WellFormed(g) && InBounds(a.x, a.y) && InBounds(b.x, b.y) && a != b
    ensures var swapped := Put(Put(g, b.x, b.y, g[a.x][a.y]), a.x, a.y, g[b.x][b.y]);
      Put(Put(swapped, a.x, a.y, g[a.x][a.y]), b.x, b.y, g[b.x][b.y]) == g
  {
    var swapped := Put(Put(g, b.x, b.y, g[a.x][a.y]), a.x, a.y, g[b.x][b.y]);
    GridExt(Put(Put(swapped, a.x, a.y, g[a.x][a.y]), b.x, b.y, g[b.x][b.y]), g);
  }

  /**
   * MovePieces: the gem on the board is swiped at `angle`. When the switch picks a direction
   * and a gem sits there, both posIndex values move and the board stores each gem at its new
   * posIndex; otherwise nothing changes. `previous` is _previousPos.
   */
  method MovePieces(game: Game, gem: Piece, angle: real) returns (other: Option<Piece>, previous: Pos)
    requires game.Valid() && OnBoard(game.board.Snapshot(), gem)
    modifies game.board`posIndex, game.board.cells
    ensures game.Valid()
    ensures previous == PosOf(old(game.board.posIndex), gem) && InBounds(previous.x, previous.y)
    ensures var d := SwipeDirection(angle, previous);
      other.Some? <==> d.Some? && old(game.board.Snapshot())[Step(previous, d.value).x][Step(previous, d.value).y].Some?
    ensures other.None? ==>
      game.board.Snapshot() == old(game.board.Snapshot()) && game.board.posIndex == old(game.board.posIndex)
    ensures other.Some? ==>
      var t := Step(previous, SwipeDirection(angle, previous).value);
      other == old(game.board.Snapshot())[t.x][t.y]
      && game.board.Snapshot() == Put(Put(old(game.board.Snapshot()), t.x, t.y, Some(gem)), previous.x, previous.y, other)
      && game.board.posIndex == old(game.board.posIndex)[other.value.id := previous][gem.id := t]
  {
    var board := game.board;
    TrackedOnBoard(board.Snapshot(), board.posIndex, game.bombs, game.pool.active, gem);
    previous := PosOf(board.posIndex, gem);
    other := None;
    var d := SwipeDirection(angle, previous);
    if d.Some? {
      SwipeTargetAdjacent(angle, previous);
      var t := Step(previous, d.value);
      other := board.GetGem(t.x, t.y);
      if other.Some? {
        TrackedPos(board.Snapshot(), board.posIndex, game.bombs, game.pool.active, t.x, t.y);
        TrackedSwap(board.Snapshot(), board.posIndex, game.bombs, game.pool.active, previous, t);
        var off := Offset(d.value);
        var otherPos := PosOf(board.posIndex, other.value);
        board.SetPosIndex(other.value.id, Pos(otherPos.x - off.x, otherPos.y - off.y));
        board.SetPosIndex(gem.id, Pos(previous.x + off.x, previous.y + off.y));
      }
    }
    if other.None? {
      return;
    }
    var t := Step(previous, d.value);
    assert other.value.id != gem.id;
    assert board.posIndex == old(board.posIndex)[gem.id := t][other.value.id := previous];
    board.SetGem(t.x, t.y, Some(gem));
    board.SetGem(previous.x, previous.y, other);
  }

  // ---------------------------------------------------------------- keeping or reverting the swap

  /** CheckMoveCo's test as written: either gem's isMatch flag is set (flags are never cleared). */
  predicate KeepSwapAsWritten(isMatch: set<nat>, gem: Piece, other: Piece) {
    gem.id in isMatch || other.id in isMatch
  }

  /** The evidently intended test: either gem is in the match list just found. */
  predicate KeepSwap(matches: seq<Piece>, gem: Piece, other: Piece) {
    gem.id in Ids(matches) || other.id in Ids(matches)
  }

  /** While neither gem carries an old flag, the two tests agree. */
  lemma FreshFlagsAgree(isMatch0: set<nat>, matches: seq<Piece>, gem: Piece, other: Piece)
    requires gem.id !in isMatch0 && other.id !in isMatch0
    ensures KeepSwapAsWritten(isMatch0 + Ids(matches), gem, other) <==> KeepSwap(matches, gem, other)
  {
  }

  /**
   * A pooled instance that matched once keeps its flag when it is spawned again: a swap that
   * forms no match at all is then kept, although the intended test reverts it.
   */
  lemma StaleFlagKeepsSwap()
    ensures var gem := Piece(5, RegularGem(Red), 10);
      var other := Piece(6, RegularGem(Blue), 10);
      KeepSwapAsWritten({5} + Ids([]), gem, other) && !KeepSwap([], gem, other)
  {
    var gem := Piece(5, RegularGem(Red), 10);
    assert gem.id in {5} + Ids([]);
    IdsEmpty();
  }

  /**
   * CheckMoveCo as written. When the flag test keeps a swap whose match list is empty,
   * DestroyMatches returns at once: the manager stays in Wait with nothing scheduled, and
   * since input is accepted only in Move, the game is stuck.
   */
  method CheckMoveCoAsWritten(game: Game, gem: Piece, other: Piece, previous: Pos)
    requires game.Valid() && game.Synced() && game.state == Move
    requires InBounds(previous.x, previous.y) && game.board.Snapshot()[previous.x][previous.y] == Some(other)
    requires PosOf(game.board.posIndex, gem) != previous
    requires OnBoard(game.board.Snapshot(), gem)
    modifies game, game.pool, game.board, game.board.cells
    ensures game.Valid()
    ensures game.board.currentMatches == Detection.FindAllMatches(old(game.board.Snapshot()), old(game.board.posIndex))
    ensures KeepSwapAsWritten(game.board.isMatch, gem, other) && game.board.currentMatches == [] ==>
      game.state == Wait && game.pending == [] && !game.Synced()
      && game.board.Snapshot() == old(game.board.Snapshot()) && game.score == old(game.score)
    ensures KeepSwapAsWritten(game.board.isMatch, gem, other) && |game.board.currentMatches| > 0 ==>
      game.state == Wait && game.pending == [Falling]
      && ListResolved(game.board.Snapshot(), game.score, old(game.board.Snapshot()), old(game.score),
                      game.board.currentMatches, old(game.bombs), old(game.board.posIndex), game.config)
    ensures !KeepSwapAsWritten(game.board.isMatch, gem, other) ==>
      game.state == Move && game.pending == [] && game.score == old(game.score)
      && var t := PosOf(old(game.board.posIndex), gem);
      game.board.Snapshot() == Put(Put(old(game.board.Snapshot()), previous.x, previous.y, Some(gem)), t.x, t.y, Some(other))
      && game.board.posIndex == old(game.board.posIndex)[other.id := t][gem.id := previous]
  {
    game.state := Wait;
    game.board.FindAllMatches();
    if !(gem.id in game.board.isMatch) && !(other.id in game.board.isMatch) {
      RevertSwap(game, gem, other, previous);
      game.state := Move;
    } else {
      DestroyCurrentMatches(game);
    }
  }

  /**
   * CheckMoveCo with the intended test (the one the model uses): the swap is kept exactly
   * when one of the two gems is in the match list just found, and then that list is resolved
   * and the fall scheduled; otherwise both gems go back and the player may move again. Either
   * way the state is Wait exactly while a cascade is scheduled.
   */
  method CheckMoveCo(game: Game, gem: Piece, other: Piece, previous: Pos)
    requires game.Valid() && game.Synced() && game.state == Move
    requires InBounds(previous.x, previous.y) && game.board.Snapshot()[previous.x][previous.y] == Some(other)
    requires PosOf(game.board.posIndex, gem) != previous
    requires OnBoard(game.board.Snapshot(), gem)
    modifies game, game.pool, game.board, game.board.cells
    ensures game.Valid() && game.Synced()
    ensures game.board.currentMatches == Detection.FindAllMatches(old(game.board.Snapshot()), old(game.board.posIndex))
    ensures KeepSwap(game.board.currentMatches, gem, other) ==>
      game.state == Wait && game.pending == [Falling]
      && ListResolved(game.board.Snapshot(), game.score, old(game.board.Snapshot()), old(game.score),
                      game.board.currentMatches, old(game.bombs), old(game.board.posIndex), game.config)
    ensures !KeepSwap(game.board.currentMatches, gem, other) ==>
      game.state == Move && game.pending == [] && game.score == old(game.score)
      && var t := PosOf(old(game.board.posIndex), gem);
      game.board.Snapshot() == Put(Put(old(game.board.Snapshot()), previous.x, previous.y, Some(gem)), t.x, t.y, Some(other))
      && game.board.posIndex == old(game.board.posIndex)[other.id := t][gem.id := previous]
  {
    game.state := Wait;
    game.board.FindAllMatches();
    if !KeepSwap(game.board.currentMatches, gem, other) {
      RevertSwap(game, gem, other, previous);
      game.state := Move;
    } else {
      IdsEmpty();
      DestroyCurrentMatches(game);
    }
  }

  /** CheckMoveCo's revert: each gem gets the other's posIndex back and is stored there. */
  method RevertSwap(game: Game, gem: Piece, other: Piece, previous: Pos)
    requires game.Valid() && InBounds(previous.x, previous.y)
    requires game.board.Snapshot()[previous.x][previous.y] == Some(other)
    requires PosOf(game.board.posIndex, gem) != previous && OnBoard(game.board.Snapshot(), gem)
    modifies game.board`posIndex, game.board.cells
    ensures game.Valid()
    ensures var t := PosOf(old(game.board.posIndex), gem);
      game.board.Snapshot() == Put(Put(old(game.board.Snapshot()), previous.x, previous.y, Some(gem)), t.x, t.y, Some(other))
      && game.board.posIndex == old(game.board.posIndex)[other.id := t][gem.id := previous]
  {
    var board := game.board;
    TrackedOnBoard(board.Snapshot(), board.posIndex, game.bombs, game.pool.active, gem);
    var t := PosOf(board.posIndex, gem);
    TrackedSwap(board.Snapshot(), board.posIndex, game.bombs, game.pool.active, t, previous);
    assert gem.id != other.id;
    board.SetPosIndex(other.id, t);
    board.SetPosIndex(gem.id, previous);
    assert board.posIndex == old(board.posIndex)[gem.id := previous][other.id := t];
    board.SetGem(previous.x, previous.y, Some(gem));
    board.SetGem(t.x, t.y, Some(other));
    GridExt(Put(Put(old(board.Snapshot()), previous.x, previous.y, Some(gem)), t.x, t.y, Some(other)),
            Put(Put(old(board.Snapshot()), t.x, t.y, Some(other)), previous.x, previous.y, Some(gem)));
  }

  /** CheckMoveCo's call of DestroyMatches right after FindAllMatches. */
  method DestroyCurrentMatches(game: Game)
    requires game.Valid() && game.pending == []
    requires game.board.currentMatches == Detection.FindAllMatches(game.board.Snapshot(), game.board.posIndex)
    modifies game, game.pool, game.board, game.board.cells
    ensures game.Valid() && game.state == old(game.state)
    ensures game.BoardFieldsKept(old(game.board.currentMatches), old(game.board.isMatch))
    ensures |game.board.currentMatches| > 0 ==>
      game.pending == [Falling]
      && ListResolved(game.board.Snapshot(), game.score, old(game.board.Snapshot()), old(game.score),
                      game.board.currentMatches, old(game.bombs), old(game.board.posIndex), game.config)
    ensures |game.board.currentMatches| == 0 ==>
      game.pending == [] && game.board.Snapshot() == old(game.board.Snapshot()) && game.score == old(game.score)
  {
    DetectionProperties.FindAllMatchesResolvable(game.board.Snapshot(), game.board.posIndex);
    game.DestroyMatches();
  }

  /**
   * HandleInput on release of a pressed gem: ignored unless the manager is in Move; a release
   * within MinSwipeDistance of the press is not a swipe; otherwise MovePieces, and CheckMoveCo
   * when a neighbour was swapped. The player can act again exactly when no cascade is scheduled.
   */
  method HandleInput(game: Game, gem: Piece, angle: real, distance: real)
    requires game.Valid() && game.Synced() && OnBoard(game.board.Snapshot(), gem)
    modifies game, game.pool, game.board, game.board.cells
    ensures game.Valid() && game.Synced()
    ensures old(game.state) == Wait || distance <= MinSwipeDistance ==>
      unchanged(game) && game.board.Snapshot() == old(game.board.Snapshot())
      && game.board.posIndex == old(game.board.posIndex)
  {
    if game.state != Move {
      return;
    }
    if distance <= MinSwipeDistance {
      return;
    }
    var other, previous := MovePieces(game, gem, angle);
    if other.None? {
      return;
    }
    SwipeTargetAdjacent(angle, previous);
    ghost var t := Step(previous, SwipeDirection(angle, previous).value);
    assert game.board.Snapshot()[t.x][t.y] == Some(gem);
    CheckMoveCo(game, gem, other.value, previous);
  }
}
