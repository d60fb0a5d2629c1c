/**
 * ScGameLogicManager: spawning gems from the pool, resolving the current matches
 * (regular gems, single bombs, double-bomb sweeps, new bombs), letting the columns
 * fall and refilling the board, and the score.
 *
 * Unity coroutines are modelled by `pending`, the queue of coroutines StartCoroutine
 * has scheduled and that have not run yet; `RunPending` runs them in order. The waits
 * inside a coroutine are dropped: nothing else of the game logic runs during them.
 */
module GameLogic {
  import opened Options
  import opened Pieces
  import opened Detection
  import opened Resolution
  import opened Gravity
  import opened GameBoard
  import opened GemPool
  import DetectionProperties

  datatype GameState = Move | Wait

  /** The coroutines that continue a cascade: DecreaseRowCo (Falling) and FilledBoardCo (Refilling). */
  datatype Phase = Falling | Refilling

  /** A gem prefab: the kind of gem its instances are and what destroying one scores. */
  datatype Prefab = Prefab(kind: Kind, scoreValue: int)

  /** ScGameVariables: the prefabs (numbered), the spawn palette `gems` and the `bomb` prefab. */
  datatype Config = Config(prefabs: seq<Prefab>, gems: seq<nat>, bomb: nat)

  /**
   * The bomb prefab is an ScBomb, and every palette entry is a regular gem prefab or the bomb
   * prefab itself (SpawnGem recognises bombs by comparing with the bomb prefab).
   */
  predicate ConfigOk(c: Config) {
    c.bomb < |c.prefabs| && c.prefabs[c.bomb].kind.BombGem?
    && forall i :: 0 <= i < |c.gems| ==>
         c.gems[i] < |c.prefabs| && (c.prefabs[c.gems[i]].kind.BombGem? ==> c.gems[i] == c.bomb)
  }

  /** A prefab as MatchesAt sees it when it is tested as a candidate (identities are never compared). */
  function Candidate(c: Config, prefab: nat): Piece
    requires prefab < |c.prefabs|
  {
    Piece(0, c.prefabs[prefab].kind, c.prefabs[prefab].scoreValue)
  }

  /**
   * The gem instance `id` of `prefab`: kind and score from the prefab, except that a bomb
   * instance keeps the colour it was last given (ScBomb.color survives pooling).
   */
  function InstancePiece(c: Config, prefab: nat, id: nat, bombColor: map<nat, GemType>): (p: Piece)
    requires prefab < |c.prefabs|
    ensures p.id == id && p.scoreValue == c.prefabs[prefab].scoreValue
    ensures p.kind.BombGem? <==> c.prefabs[prefab].kind.BombGem?
    ensures p.kind.RegularGem? ==> p.kind == c.prefabs[prefab].kind
    ensures p.kind.BombGem? ==>
              p.kind.blastSize == c.prefabs[prefab].kind.blastSize
              && p.kind.color == (if id in bombColor then bombColor[id] else c.prefabs[prefab].kind.color)
  {
    var k := c.prefabs[prefab].kind;
    var kind := match k
      case RegularGem(_) => k
      case BombGem(color, blastSize) => BombGem(if id in bombColor then bombColor[id] else color, blastSize);
    Piece(id, kind, c.prefabs[prefab].scoreValue)
  }

  /**
   * A bomb instance taken from the pool again comes out in the colour SetBombColor last gave
   * it; an instance never coloured, and every regular instance, is the prefab itself.
   */
  lemma RecycledBombKeepsColour(c: Config, prefab: nat, id: nat, bombColor: map<nat, GemType>, color: GemType)
    requires prefab < |c.prefabs|
    ensures c.prefabs[prefab].kind.BombGem? ==>
      InstancePiece(c, prefab, id, bombColor[id := color])
        == Piece(id, BombGem(color, c.prefabs[prefab].kind.blastSize), c.prefabs[prefab].scoreValue)
    ensures c.prefabs[prefab].kind.RegularGem? || id !in bombColor ==>
      InstancePiece(c, prefab, id, bombColor) == Piece(id, c.prefabs[prefab].kind, c.prefabs[prefab].scoreValue)
  {
  }

  /** `p` is an instance of one of the palette's prefabs, as SpawnGem makes it. */
  ghost predicate FromPalette(c: Config, bombColor: map<nat, GemType>, p: Piece)
    requires ConfigOk(c)
  {
    exists k :: 0 <= k < |c.gems| && p == InstancePiece(c, c.gems[k], p.id, bombColor)
  }

  /** `now` is `before` with a new bomb of the bomb prefab, coloured `color`, in cell `s`. */
  ghost predicate NewBombIn(now: Grid, before: Grid, s: Pos, color: GemType, c: Config)
    requires WellFormed(now) && WellFormed(before) && InBounds(s.x, s.y) && ConfigOk(c)
  {
    now[s.x][s.y].Some? && now == Put(before, s.x, s.y, now[s.x][s.y])
    && now[s.x][s.y].value.kind == BombGem(color, c.prefabs[c.bomb].kind.blastSize)
    && now[s.x][s.y].value.scoreValue == c.prefabs[c.bomb].scoreValue
  }

  /**
   * What resolving the matches `regular` and `bombMatches` leaves of the board `g0`: the
   * cleared cells emptied and, when a slot was reserved, a new bomb coloured after the first
   * regular gem in it.
   */
  ghost predicate Resolved(now: Grid, g0: Grid, regular: seq<Piece>, bombMatches: seq<Piece>,
                           posIndex: map<nat, Pos>, c: Config)
    requires WellFormed(now) && WellFormed(g0) && ConfigOk(c)
  {
    var slot := MatchSlot(regular, bombMatches, posIndex);
    var cleared := ClearSet(g0, MatchCleared(regular, bombMatches, posIndex));
    if slot.Some? && InBounds(slot.value.x, slot.value.y) then
      |regular| > 0 && NewBombIn(now, cleared, slot.value, NewBombColor(regular[0]), c)
    else
      now == cleared
  }

  /**
   * `now` and `score` are what DestroyMatches leaves of the board `g0` and the score `score0`
   * for the non-empty match list `ms`, split by the bomb instances `bombs`: the resolved board,
   * and the score raised by the values of the gems the resolution cleared.
   */
  ghost predicate ListResolved(now: Grid, score: int, g0: Grid, score0: int, ms: seq<Piece>,
                               bombs: set<nat>, posIndex: map<nat, Pos>, c: Config)
    requires WellFormed(now) && WellFormed(g0) && ConfigOk(c)
  {
    var regular := RegularsOf(ms, bombs);
    var bombMatches := BombsOf(ms, bombs);
    Resolved(now, g0, regular, bombMatches, posIndex, c)
    && score == score0 + BoardScore(g0) - BoardScore(ClearSet(g0, MatchCleared(regular, bombMatches, posIndex)))
  }

  class Game {
    /** _gameBoard */
    const board: Board
    /** _gemPool */
    const pool: Pool
    /** gameVariables */
    const config: Config
    /** _bombs: the instances spawned from the bomb prefab and not yet returned to the pool. */
    var bombs: set<nat>
    /** _score */
    var score: int
    /** _currentState */
    var state: GameState
    /** ScBomb.color of every bomb instance that has been given one. */
    var bombColor: map<nat, GemType>
    /** Coroutines started and not yet run, oldest first. */
    var pending: seq<Phase>

    ghost predicate Valid()
      reads this`bombs, board, board.cells, pool
    {
      board.Valid() && pool.Valid() && pool.Sound() && ConfigOk(config)
      && Tracked(board.Snapshot(), board.posIndex, bombs, pool.active)
    }

    /** Init without Setup: an empty 7x7 board, an empty pool, score 0, state Move. */
    constructor (config: Config)
      requires ConfigOk(config)
      ensures Valid() && fresh(board) && fresh(board.cells) && fresh(pool)
      ensures this.config == config && score == 0 && state == Move && pending == []
      ensures forall x, y :: InBounds(x, y) ==> board.Snapshot()[x][y].None?
      ensures bombs == {} && bombColor == map[]
      ensures pool.pools == map[] && pool.instanceToPrefab == map[] && pool.active == {}
    {
      board := new Board();
      pool := new Pool();
      this.config := config;
      bombs := {};
      score := 0;
      state := Move;
      bombColor := map[];
      pending := [];
    }

    /** The flags, the match list and the registration fields of the board are not touched. */
    ghost predicate BoardFieldsKept(matches: seq<Piece>, isMatch: set<nat>)
      reads board
    {
      board.currentMatches == matches && board.isMatch == isMatch
    }

    /** IsBomb */
    function IsBomb(gem: Option<Piece>): (r: bool)
      reads this
      ensures r <==> gem.Some? && gem.value.id in bombs
    {
      gem.Some? && gem.value.id in bombs
    }

    /** While the game is consistent, IsBomb on a gem of the board says whether it is a bomb. */
    lemma IsBombMeansBombKind(p: Piece)
      requires Valid() && OnBoard(board.Snapshot(), p)
      ensures IsBomb(Some(p)) <==> p.kind.BombGem?
      ensures !IsBomb(None)
    {
      TrackedOnBoard(board.Snapshot(), board.posIndex, bombs, pool.active, p);
    }

    /** ScoreCheck: the destroyed gem's value is added (the animated display is not modelled). */
    method ScoreCheck(gem: Piece)
      modifies this`score
      ensures score == old(score) + gem.scoreValue
    {
      score := score + gem.scoreValue;
    }

    /** ReturnGemToPool: forget the instance as a bomb and release it to the pool. */
    method ReturnGemToPool(gem: Option<Piece>)
      requires pool.Valid()
      modifies this`bombs, pool
      ensures pool.Valid()
      ensures gem.None? ==> bombs == old(bombs) && pool.active == old(pool.active)
      ensures gem.Some? ==> bombs == old(bombs) - {gem.value.id}
      ensures gem.Some? && gem.value.id in old(pool.active) ==> pool.active == old(pool.active) - {gem.value.id}
      ensures old(pool.Sound()) && gem.Some? && gem.value.id in old(pool.active) ==> pool.Sound()
    {
      if gem.None? {
        return;
      }
      bombs := bombs - {gem.value.id};
      pool.Release(Some(gem.value.id));
    }

    /** DestroyMatchedGemsAt: the gem in the cell, if any, goes back to the pool and the cell empties. */
    method DestroyMatchedGemsAt(pos: Pos)
      requires Valid() && InBounds(pos.x, pos.y)
      modifies this`bombs, pool, board.cells
      ensures Valid()
      ensures board.Snapshot() == Put(old(board.Snapshot()), pos.x, pos.y, None)
      ensures old(board.Snapshot())[pos.x][pos.y].Some? ==>
        var id := old(board.Snapshot())[pos.x][pos.y].value.id;
        bombs == old(bombs) - {id} && pool.active == old(pool.active) - {id}
    {
      var cur := board.GetGem(pos.x, pos.y);
      if cur.None? {
        PutSame(board.Snapshot(), pos.x, pos.y);
        return;
      }
      TrackedClear(board.Snapshot(), board.posIndex, bombs, pool.active, pos.x, pos.y);
      ReturnGemToPool(cur);
      board.SetGem(pos.x, pos.y, None);
    }

    /**
     * SpawnGem: an instance of `prefab` from the pool is put in the empty cell and set up
     * there; it joins `_bombs` when the prefab is the bomb prefab.
     */
    method SpawnGem(position: Pos, prefab: nat) returns (gem: Piece)
      requires Valid() && InBounds(position.x, position.y)
      requires prefab == config.bomb || prefab in config.gems
      requires board.Snapshot()[position.x][position.y].None?
      modifies this`bombs, pool, board, board.cells
      ensures Valid()
      ensures gem == InstancePiece(config, prefab, gem.id, bombColor) && gem.id !in old(pool.active)
      ensures board.Snapshot() == Put(old(board.Snapshot()), position.x, position.y, Some(gem))
      ensures board.posIndex == old(board.posIndex)[gem.id := position]
      ensures bombs == old(bombs) + (if prefab == config.bomb then {gem.id} else {})
      ensures pool.active == old(pool.active) + {gem.id}
      ensures BoardFieldsKept(old(board.currentMatches), old(board.isMatch))
    {
      var id := pool.Spawn(prefab);
      gem := InstancePiece(config, prefab, id, bombColor);
      TrackedPlace(board.Snapshot(), board.posIndex, bombs, old(pool.active), position.x, position.y, gem);
      board.SetGem(position.x, position.y, Some(gem));
      board.SetupGem(id, position);
      if prefab == config.bomb {
        bombs := bombs + {id};
      }
    }

    /** ScBomb.SetBombColor on the bomb in `position`: only its colour changes. */
    method SetBombColor(position: Pos, color: GemType)
      requires Valid() && InBounds(position.x, position.y)
      requires board.Snapshot()[position.x][position.y].Some?
      requires board.Snapshot()[position.x][position.y].value.kind.BombGem?
      modifies this`bombColor, board.cells
      ensures Valid()
      ensures var p := old(board.Snapshot())[position.x][position.y].value;
        board.Snapshot() == Put(old(board.Snapshot()), position.x, position.y, Some(p.(kind := BombGem(color, p.kind.blastSize))))
        && bombColor == old(bombColor)[p.id := color]
    {
      var p := board.GetGem(position.x, position.y).value;
      TrackedRecolor(board.Snapshot(), board.posIndex, bombs, pool.active, position.x, position.y, color);
      board.SetGem(position.x, position.y, Some(p.(kind := BombGem(color, p.kind.blastSize))));
      bombColor := bombColor[p.id := color];
    }

    /**
     * CreateBombAt: the gem in the slot goes back to the pool without scoring, and a new bomb
     * instance takes its place, coloured after the bomb source.
     */
    method CreateBombAt(position: Pos, source: Piece)
      requires Valid() && InBounds(position.x, position.y)
      modifies this`bombs, this`bombColor, pool, board, board.cells
      ensures Valid()
      ensures NewBombIn(board.Snapshot(), old(board.Snapshot()), position, NewBombColor(source), config)
      ensures var b := board.Snapshot()[position.x][position.y].value;
        b.id !in old(pool.active)
        || (old(board.Snapshot())[position.x][position.y].Some?
            && b.id == old(board.Snapshot())[position.x][position.y].value.id)
      ensures var b := board.Snapshot()[position.x][position.y].value;
        var was := old(board.Snapshot())[position.x][position.y];
        var gone := if was.Some? then {was.value.id} else {};
        bombs == old(bombs) - gone + {b.id} && pool.active == old(pool.active) - gone + {b.id}
      ensures BoardFieldsKept(old(board.currentMatches), old(board.isMatch))
    {
      var existing := board.GetGem(position.x, position.y);
      if existing.Some? {
        TrackedOnBoard(board.Snapshot(), board.posIndex, bombs, pool.active, existing.value);
        TrackedClear(board.Snapshot(), board.posIndex, bombs, pool.active, position.x, position.y);
        ReturnGemToPool(existing);
        board.SetGem(position.x, position.y, None);
      }
      ghost var cleared := board.Snapshot();
      // The same steps as SpawnGem, with the bomb prefab.
      var bomb := SpawnGem(position, config.bomb);
      SetBombColor(position, NewBombColor(source));
      PutTwice(cleared, position.x, position.y, Some(bomb), board.Snapshot()[position.x][position.y]);
      if existing.Some? {
        PutTwice(old(board.Snapshot()), position.x, position.y, None, board.Snapshot()[position.x][position.y]);
      } else {
        PutSame(old(board.Snapshot()), position.x, position.y);
      }
    }
  
    /**
     * GetRandomGemForPosition: null for an empty palette; otherwise a palette entry, redrawn
     * at random (at most 100 times) while it would complete a run at `position`.
     */
    method GetRandomGemForPosition(position: Pos) returns (gem: Option<nat>, iterations: nat)
      requires board.Valid() && InBounds(position.x, position.y) && ConfigOk(config)
      ensures gem.None? <==> |config.gems| == 0
      ensures gem.Some? ==> gem.value in config.gems && gem.value < |config.prefabs|
      ensures iterations <= 100
      ensures gem.Some? && iterations < 100 ==>
        !Detection.MatchesAt(board.Snapshot(), position.x, position.y, Some(Candidate(config, gem.value)))
    {
      var gems := config.gems;
      if |gems| == 0 {
        return None, 0;
      }
      var gemIndex :| 0 <= gemIndex < |gems|;
      iterations := 0;
      var matches := board.MatchesAt(position, Some(Candidate(config, gems[gemIndex])));
      while matches && iterations < 100
        invariant 0 <= gemIndex < |gems| && iterations <= 100
        invariant matches == Detection.MatchesAt(board.Snapshot(), position.x, position.y, Some(Candidate(config, gems[gemIndex])))
      {
        gemIndex :| 0 <= gemIndex < |gems|;
        iterations := iterations + 1;
        matches := board.MatchesAt(position, Some(Candidate(config, gems[gemIndex])));
      }
      gem := Some(gems[gemIndex]);
    }

    /** GetBombNeighborPositions: the on-board cells around `center`, each once. */
    method GetBombNeighborPositions(center: Pos) returns (r: seq<Pos>)
      ensures NoDup(r)
      ensures forall p :: p in r <==> IsNeighbor(center, p)
    {
      r := [];
      var dx := -1;
      while dx <= 1
        invariant -1 <= dx <= 2 && NoDup(r)
        invariant forall p :: p in r <==> IsNeighbor(center, p) && p.x < center.x + dx
      {
        var dy := -1;
        while dy <= 1
          invariant -1 <= dy <= 2 && NoDup(r)
          invariant forall p :: p in r <==>
            IsNeighbor(center, p) && (p.x < center.x + dx || (p.x == center.x + dx && p.y < center.y + dy))
        {
          if !(dx == 0 && dy == 0) {
            var x, y := center.x + dx, center.y + dy;
            if InBounds(x, y) {
              NoDupSnocPos(r, Pos(x, y));
              r := r + [Pos(x, y)];
            }
          }
          dy := dy + 1;
        }
        dx := dx + 1;
      }
    }

    /** One cell of a destroy loop: a gem there is scored and destroyed, an empty cell is skipped. */
    method ClearCell(c: Pos, gem: Option<Piece>, ghost g0: Grid, ghost done: set<Pos>)
      requires Valid() && WellFormed(g0) && InBounds(c.x, c.y)
      requires board.Snapshot() == ClearSet(g0, done) && board.Snapshot()[c.x][c.y] == gem
      modifies this`bombs, this`score, pool, board.cells
      ensures Valid()
      ensures board.Snapshot() == ClearSet(g0, done + {c})
      ensures score == old(score) + BoardScore(old(board.Snapshot())) - BoardScore(board.Snapshot())
    {
      ClearOneMore(g0, done, c);
      if gem.Some? {
        ScoreCheck(gem.value);
        PutScore(board.Snapshot(), c.x, c.y, None);
        DestroyMatchedGemsAt(c);
      } else {
        PutSame(board.Snapshot(), c.x, c.y);
      }
    }

    /** The loop over the regular matches: each one, except the reserved slot, is scored and destroyed. */
    method DestroyRegular(regular: seq<Piece>, slot: Option<Pos>)
      requires Valid() && NoDup(regular)
      requires forall j :: 0 <= j < |regular| ==> OnBoard(board.Snapshot(), regular[j])
      modifies this`bombs, this`score, pool, board.cells
      ensures Valid()
      ensures board.Snapshot() == ClearSet(old(board.Snapshot()), RegularCleared(board.posIndex, regular, slot))
      ensures score == old(score) + BoardScore(old(board.Snapshot())) - BoardScore(board.Snapshot())
    {
      ghost var g0, bombs0, active0 := board.Snapshot(), bombs, pool.active;
      assert RegularCleared(board.posIndex, regular[..0], slot) == {};
      hide Tracked, ClearSet, BoardScore, RegularCleared, PoolValid, PoolSound, FromPalette, Detection.FindAllMatches;
      ClearNothing(g0);
      var i := 0;
      while i < |regular|
        invariant 0 <= i <= |regular| && Valid()
        invariant board.Snapshot() == ClearSet(g0, RegularCleared(board.posIndex, regular[..i], slot))
        invariant score + BoardScore(board.Snapshot()) == old(score) + BoardScore(g0)
      {
        DestroyRegularAt(regular, slot, i, g0, bombs0, active0);
        i := i + 1;
      }
      assert regular[..i] == regular;
    }

    /** One round of DestroyRegular's loop: the i-th regular gem is destroyed unless it holds the slot. */
    method DestroyRegularAt(regular: seq<Piece>, slot: Option<Pos>, i: nat,
                            ghost g0: Grid, ghost bombs0: set<nat>, ghost active0: set<nat>)
      requires Valid() && NoDup(regular) && i < |regular|
      requires WellFormed(g0) && Tracked(g0, board.posIndex, bombs0, active0)
      requires forall j :: 0 <= j < |regular| ==> OnBoard(g0, regular[j])
      requires board.Snapshot() == ClearSet(g0, RegularCleared(board.posIndex, regular[..i], slot))
      modifies this`bombs, this`score, pool, board.cells
      ensures Valid()
      ensures board.Snapshot() == ClearSet(g0, RegularCleared(board.posIndex, regular[..i + 1], slot))
      ensures score == old(score) + BoardScore(old(board.Snapshot())) - BoardScore(board.Snapshot())
    {
      hide Tracked, ClearSet, BoardScore, PoolValid, PoolSound, FromPalette, Detection.FindAllMatches;
      var gem := regular[i];
      var c := PosOf(board.posIndex, gem);
      ghost var done := RegularCleared(board.posIndex, regular[..i], slot);
      RegularStillThere(g0, board.posIndex, bombs0, active0, regular, slot, i);
      RegularClearedSnoc(board.posIndex, regular, slot, i);
      if slot != Some(c) {
        ClearCell(c, Some(gem), g0, done);
      } else {
        assert done + {} == done;
      }
    }

    /** A single bomb's neighbours, except the reserved slot: each gem there is scored and destroyed. */
    method DestroyNeighbors(center: Pos, slot: Option<Pos>)
      requires Valid()
      modifies this`bombs, this`score, pool, board.cells
      ensures Valid()
      ensures board.Snapshot() == ClearSet(old(board.Snapshot()), BlastCleared(center, slot))
      ensures score == old(score) + BoardScore(old(board.Snapshot())) - BoardScore(board.Snapshot())
    {
      var ns := GetBombNeighborPositions(center);
      ghost var g0 := board.Snapshot();
      ghost var done: set<Pos> := {};
      ClearNothing(g0);
      var k := 0;
      while k < |ns|
        invariant 0 <= k <= |ns| && Valid()
        invariant forall p :: p in done <==> p in ns[..k] && Some(p) != slot
        invariant board.Snapshot() == ClearSet(g0, done)
        invariant score + BoardScore(board.Snapshot()) == old(score) + BoardScore(g0)
      {
        var n := ns[k];
        assert n in ns && ns[..k + 1] == ns[..k] + [n];
        if slot != Some(n) {
          var neighbor := board.GetGem(n.x, n.y);
          ClearCell(n, neighbor, g0, done);
          done := done + {n};
        }
        k := k + 1;
      }
      assert ns[..k] == ns;
      forall p
        ensures p in done <==> p in BlastCleared(center, slot)
      {
        NeighborCellsMembers(center, p);
      }
      assert done == BlastCleared(center, slot);
    }

    /** The double-bomb sweep: every gem on the board is scored and destroyed. */
    method SweepBoard()
      requires Valid()
      modifies this`bombs, this`score, pool, board.cells
      ensures Valid()
      ensures board.Snapshot() == ClearSet(old(board.Snapshot()), AllCells())
      ensures score == old(score) + BoardScore(old(board.Snapshot()))
    {
      ghost var g0 := board.Snapshot();
      ghost var done: set<Pos> := {};
      ClearNothing(g0);
      var x := 0;
      while x < Width
        invariant 0 <= x <= Width && Valid() && done <= AllCells()
        invariant forall i, j :: 0 <= i < x && 0 <= j < Height ==> Pos(i, j) in done
        invariant board.Snapshot() == ClearSet(g0, done)
        invariant score + BoardScore(board.Snapshot()) == old(score) + BoardScore(g0)
      {
        var y := 0;
        while y < Height
          invariant 0 <= y <= Height && Valid() && done <= AllCells()
          invariant forall i, j :: ((0 <= i < x && 0 <= j < Height) || (i == x && 0 <= j < y)) ==> Pos(i, j) in done
          invariant board.Snapshot() == ClearSet(g0, done)
          invariant score + BoardScore(board.Snapshot()) == old(score) + BoardScore(g0)
        {
          var gem := board.GetGem(x, y);
          ClearCell(Pos(x, y), gem, g0, done);
          done := done + {Pos(x, y)};
          y := y + 1;
        }
        x := x + 1;
      }
      assert done == AllCells();
      ClearEverything(g0);
    }
  
    /** One bomb of a single-bomb match: its neighbours except the slot, then the bomb itself. */
    method ExplodeBomb(bomb: Piece, slot: Option<Pos>)
      requires Valid() && OnBoard(board.Snapshot(), bomb)
      modifies this`bombs, this`score, pool, board.cells
      ensures Valid()
      ensures var c := PosOf(board.posIndex, bomb);
        board.Snapshot() == ClearSet(old(board.Snapshot()), BlastCleared(c, slot) + {c})
      ensures score == old(score) + BoardScore(old(board.Snapshot())) - BoardScore(board.Snapshot())
    {
      var center := PosOf(board.posIndex, bomb);
      ghost var g0 := board.Snapshot();
      TrackedOnBoard(g0, board.posIndex, bombs, pool.active, bomb);
      DestroyNeighbors(center, slot);
      assert center !in BlastCleared(center, slot);
      ScoreCheck(bomb);
      PutScore(board.Snapshot(), center.x, center.y, None);
      ClearOneMore(g0, BlastCleared(center, slot), center);
      DestroyMatchedGemsAt(center);
    }

    /**
     * HandleRegularMatchesOnly: nothing for an empty list; otherwise the regular gems are
     * destroyed, a bomb is made in the first one's cell when four or more matched, and the
     * fall is scheduled.
     */
    method HandleRegularMatchesOnly(regular: seq<Piece>)
      requires Valid() && NoDup(regular)
      requires forall j :: 0 <= j < |regular| ==> OnBoard(board.Snapshot(), regular[j]) && regular[j].id !in bombs
      modifies this`bombs, this`score, this`bombColor, this`pending, pool, board, board.cells
      ensures Valid() && BoardFieldsKept(old(board.currentMatches), old(board.isMatch))
      ensures |regular| == 0 ==>
        board.Snapshot() == old(board.Snapshot()) && score == old(score) && pending == old(pending)
      ensures |regular| > 0 ==>
        Resolved(board.Snapshot(), old(board.Snapshot()), regular, [], old(board.posIndex), config)
        && score == old(score) + BoardScore(old(board.Snapshot()))
                    - BoardScore(ClearSet(old(board.Snapshot()), MatchCleared(regular, [], old(board.posIndex))))
        && pending == old(pending) + [Falling]
    {
      hide Tracked, BoardScore, PoolValid, PoolSound, FromPalette, Detection.FindAllMatches;
      if |regular| == 0 {
        return;
      }
      ghost var g0, pi := board.Snapshot(), board.posIndex;
      var slot: Option<Pos> := None;
      var source: Option<Piece> := None;
      if |regular| >= 4 {
        source := SelectBombSource(regular);
        if source.Some? {
          slot := Some(PosOf(board.posIndex, source.value));
        }
      }
      assert slot == MatchSlot(regular, [], pi);
      assert MatchCleared(regular, [], pi) == RegularCleared(pi, regular, slot);
      SlotSurvives(g0, pi, bombs, pool.active, regular, []);
      TrackedOnBoard(g0, pi, bombs, pool.active, regular[0]);
      DestroyRegular(regular, slot);
      CreateReservedBomb(regular, [], slot, source, g0, pi);
      pending := pending + [Falling];
    }

    /** The last step of both resolutions: CreateBombAt in the reserved slot, when there is one. */
    method CreateReservedBomb(regular: seq<Piece>, bombMatches: seq<Piece>, slot: Option<Pos>, source: Option<Piece>,
                              ghost g0: Grid, ghost pi: map<nat, Pos>)
      requires Valid() && WellFormed(g0) && slot == MatchSlot(regular, bombMatches, pi)
      requires slot.Some? ==> |regular| > 0 && source == Some(regular[0]) && InBounds(slot.value.x, slot.value.y)
      requires board.Snapshot() == ClearSet(g0, MatchCleared(regular, bombMatches, pi))
      modifies this`bombs, this`bombColor, pool, board, board.cells
      ensures Valid() && BoardFieldsKept(old(board.currentMatches), old(board.isMatch))
      ensures Resolved(board.Snapshot(), g0, regular, bombMatches, pi, config)
    {
      hide Tracked, BoardScore, ClearSet, PoolValid, PoolSound, FromPalette, Detection.FindAllMatches;
      if slot.Some? && source.Some? {
        CreateBombAt(slot.value, source.value);
      }
    }

    /**
     * The destroying part of DestroyMatchesWithBombsCo: the regular gems except the slot, then
     * a board-wide sweep for two or more bombs or the single bomb's blast.
     */
    method ClearWithBombs(regular: seq<Piece>, bombMatches: seq<Piece>, slot: Option<Pos>)
      requires Valid() && NoDup(regular) && |bombMatches| >= 1
      requires forall j :: 0 <= j < |regular| ==> OnBoard(board.Snapshot(), regular[j]) && regular[j].id !in bombs
      requires forall j :: 0 <= j < |bombMatches| ==> OnBoard(board.Snapshot(), bombMatches[j]) && bombMatches[j].id in bombs
      requires slot == MatchSlot(regular, bombMatches, board.posIndex)
      modifies this`bombs, this`score, pool, board.cells
      ensures Valid()
      ensures board.Snapshot() == ClearSet(old(board.Snapshot()), MatchCleared(regular, bombMatches, board.posIndex))
      ensures score == old(score) + BoardScore(old(board.Snapshot())) - BoardScore(board.Snapshot())
    {
      hide Tracked, BoardScore, ClearSet, PoolValid, PoolSound, FromPalette, Detection.FindAllMatches;
      ghost var g0, pi, bombs0, active0 := board.Snapshot(), board.posIndex, bombs, pool.active;
      DestroyRegular(regular, slot);
      if |bombMatches| >= 2 {
        SweepBoard();
        ClearAllAfter(g0, RegularCleared(pi, regular, slot));
        ClearEverything(g0);
      } else {
        // Not a double-bomb match: the list holds exactly one bomb.
        var bomb := bombMatches[0];
        BombNotRegularCleared(g0, pi, bombs0, active0, regular, slot, bomb);
        TrackedOnBoard(g0, pi, bombs0, active0, bomb);
        ExplodeAfterRegular(bomb, slot, g0, RegularCleared(pi, regular, slot));
        ghost var c := PosOf(pi, bomb);
        assert RegularCleared(pi, regular, slot) + (BlastCleared(c, slot) + {c})
            == MatchCleared(regular, bombMatches, pi);
      }
    }

    /** The single bomb's blast, once the regular gems are gone: its cell was not among theirs. */
    method ExplodeAfterRegular(bomb: Piece, slot: Option<Pos>, ghost g0: Grid, ghost cleared: set<Pos>)
      requires Valid() && WellFormed(g0) && board.Snapshot() == ClearSet(g0, cleared)
      requires var c := PosOf(board.posIndex, bomb);
        InBounds(c.x, c.y) && g0[c.x][c.y] == Some(bomb) && c !in cleared
      modifies this`bombs, this`score, pool, board.cells
      ensures Valid()
      ensures var c := PosOf(board.posIndex, bomb);
        board.Snapshot() == ClearSet(g0, cleared + (BlastCleared(c, slot) + {c}))
      ensures score == old(score) + BoardScore(old(board.Snapshot())) - BoardScore(board.Snapshot())
    {
      hide Tracked, BoardScore, PoolValid, PoolSound, FromPalette, Detection.FindAllMatches;
      ghost var c := PosOf(board.posIndex, bomb);
      assert board.Snapshot()[c.x][c.y] == Some(bomb);
      ExplodeBomb(bomb, slot);
      ClearTwice(g0, cleared, BlastCleared(c, slot) + {c});
    }

    /**
     * DestroyMatchesWithBombsCo, run to completion: the slot is chosen, the matched gems are
     * destroyed, the new bomb is made and the fall is scheduled.
     */
    method DestroyMatchesWithBombs(regular: seq<Piece>, bombMatches: seq<Piece>)
      requires Valid() && NoDup(regular) && |bombMatches| >= 1
      requires forall j :: 0 <= j < |regular| ==> OnBoard(board.Snapshot(), regular[j]) && regular[j].id !in bombs
      requires forall j :: 0 <= j < |bombMatches| ==> OnBoard(board.Snapshot(), bombMatches[j]) && bombMatches[j].id in bombs
      modifies this`bombs, this`score, this`bombColor, this`pending, pool, board, board.cells
      ensures Valid() && BoardFieldsKept(old(board.currentMatches), old(board.isMatch))
      ensures Resolved(board.Snapshot(), old(board.Snapshot()), regular, bombMatches, old(board.posIndex), config)
      ensures score == old(score) + BoardScore(old(board.Snapshot()))
                       - BoardScore(ClearSet(old(board.Snapshot()), MatchCleared(regular, bombMatches, old(board.posIndex))))
      ensures pending == old(pending) + [Falling]
    {
      hide Tracked, BoardScore, ClearSet, PoolValid, PoolSound, FromPalette, Detection.FindAllMatches;
      ghost var g0, pi := board.Snapshot(), board.posIndex;
      var bombCount := |bombMatches|;
      var isDoubleBombMatch := bombCount >= 2;
      var slot: Option<Pos> := None;
      var source: Option<Piece> := None;
      if !isDoubleBombMatch && |regular| + bombCount >= 4 && |regular| >= 3 {
        source := SelectBombSource(regular);
        if source.Some? {
          slot := Some(PosOf(board.posIndex, source.value));
        }
      }
      assert slot == MatchSlot(regular, bombMatches, pi);
      SlotSurvives(g0, pi, bombs, pool.active, regular, bombMatches);
      if slot.Some? {
        TrackedOnBoard(g0, pi, bombs, pool.active, regular[0]);
      }
      ClearWithBombs(regular, bombMatches, slot);
      // A double-bomb match reserves no slot, so the bomb is made only when isDoubleBombMatch is false.
      CreateReservedBomb(regular, bombMatches, slot, source, g0, pi);
      pending := pending + [Falling];
    }

    /** DestroyMatches' loop: the listed gems in `_bombs`, and the others, each in list order. */
    method SplitMatches(matches: seq<Piece>) returns (bombMatches: seq<Piece>, regularMatches: seq<Piece>)
      ensures bombMatches == BombsOf(matches, bombs) && regularMatches == RegularsOf(matches, bombs)
    {
      bombMatches, regularMatches := [], [];
      var i := 0;
      while i < |matches|
        invariant 0 <= i <= |matches|
        invariant bombMatches == BombsOf(matches[..i], bombs) && regularMatches == RegularsOf(matches[..i], bombs)
      {
        assert matches[..i + 1][..i] == matches[..i];
        if IsBomb(Some(matches[i])) {
          bombMatches := bombMatches + [matches[i]];
        } else {
          regularMatches := regularMatches + [matches[i]];
        }
        i := i + 1;
      }
      assert matches[..i] == matches;
    }

    /**
     * DestroyMatches: the current match list is split into bombs and regular gems, in list
     * order, and resolved; an empty list changes nothing.
     */
    method DestroyMatches()
      requires Valid() && NoDup(board.currentMatches)
      requires forall j :: 0 <= j < |board.currentMatches| ==> OnBoard(board.Snapshot(), board.currentMatches[j])
      modifies this`bombs, this`score, this`bombColor, this`pending, pool, board, board.cells
      ensures Valid() && BoardFieldsKept(old(board.currentMatches), old(board.isMatch))
      ensures |old(board.currentMatches)| == 0 ==>
        board.Snapshot() == old(board.Snapshot()) && score == old(score) && pending == old(pending)
      ensures |old(board.currentMatches)| > 0 ==>
        var regular := RegularsOf(old(board.currentMatches), old(bombs));
        var bombMatches := BombsOf(old(board.currentMatches), old(bombs));
        Resolved(board.Snapshot(), old(board.Snapshot()), regular, bombMatches, old(board.posIndex), config)
        && score == old(score) + BoardScore(old(board.Snapshot()))
                    - BoardScore(ClearSet(old(board.Snapshot()), MatchCleared(regular, bombMatches, old(board.posIndex))))
        && pending == old(pending) + [Falling]
    {
      hide Tracked, BoardScore, ClearSet, Resolved, PoolValid, PoolSound, FromPalette, Detection.FindAllMatches;
      var matches := board.currentMatches;
      if |matches| == 0 {
        return;
      }
      var bombMatches, regularMatches := SplitMatches(matches);
      SplitPartitions(matches, bombs);
      SplitNoDup(matches, bombs);
      SplitLengths(matches, bombs);
      forall j | 0 <= j < |regularMatches|
        ensures OnBoard(board.Snapshot(), regularMatches[j]) && regularMatches[j].id !in bombs
      {
        assert regularMatches[j] in regularMatches;
      }
      forall j | 0 <= j < |bombMatches|
        ensures OnBoard(board.Snapshot(), bombMatches[j]) && bombMatches[j].id in bombs
      {
        assert bombMatches[j] in bombMatches;
      }
      if |bombMatches| == 0 {
        HandleRegularMatchesOnly(regularMatches);
      } else {
        DestroyMatchesWithBombs(regularMatches, bombMatches);
      }
    }
  
    /** One move of DecreaseRowCo: the gem in (x, y) drops `n` cells into an empty cell, posIndex first. */
    method DropGem(x: int, y: int, n: int)
      requires Valid() && InBounds(x, y) && InBounds(x, y - n) && n > 0
      requires board.Snapshot()[x][y].Some? && board.Snapshot()[x][y - n].None?
      modifies board`posIndex, board.cells
      ensures Valid()
      ensures var gem := old(board.Snapshot())[x][y];
        board.Snapshot() == Put(Put(old(board.Snapshot()), x, y - n, gem), x, y, None)
        && board.posIndex == old(board.posIndex)[gem.value.id := Pos(x, y - n)]
    {
      var curGem := board.GetGem(x, y);
      var p := PosOf(board.posIndex, curGem.value);
      TrackedPos(board.Snapshot(), board.posIndex, bombs, pool.active, x, y);
      TrackedMove(board.Snapshot(), board.posIndex, bombs, pool.active, x, y, y - n);
      board.SetPosIndex(curGem.value.id, Pos(p.x, p.y - n));
      board.SetGem(x, y - n, curGem);
      board.SetGem(x, y, None);
    }

    /**
     * DecreaseRowCo's loop over column x: each gem drops by the number of empty cells met
     * below it, its posIndex following it.
     */
    method ShiftColumn(x: int)
      requires Valid() && 0 <= x < Width
      modifies board`posIndex, board.cells
      ensures Valid()
      ensures board.Snapshot() == old(board.Snapshot())[x := Packed(old(board.Snapshot())[x])]
    {
      hide Tracked, Shifted, Packed, CountNone, PoolValid, PoolSound, FromPalette, Detection.FindAllMatches;
      ghost var g0 := board.Snapshot();
      ghost var col := g0[x];
      ShiftedStart(col);
      assert g0[x := Shifted(col, 0)] == g0;
      var nullCounter := 0;
      var y := 0;
      while y < Height
        invariant 0 <= y <= Height && Valid()
        invariant nullCounter == CountNone(col[..y])
        invariant board.Snapshot() == g0[x := Shifted(col, y)]
      {
        var curGem := board.GetGem(x, y);
        ShiftCell(col, y);
        assert curGem == board.Snapshot()[x][y] == col[y];
        if curGem.None? {
          ShiftStays(col, y);
          nullCounter := nullCounter + 1;
        } else if nullCounter > 0 {
          ShiftMoves(col, y);
          ghost var s := Shifted(col, y);
          assert board.Snapshot()[x] == s;
          assert s[y - nullCounter].None? && s[y].Some?;
          DropGem(x, y, nullCounter);
          PutColumn(g0, x, s, y - nullCounter, y, curGem, None);
        } else {
          ShiftStays(col, y);
        }
        y := y + 1;
      }
      ShiftedEnd(col);
    }

    /** DecreaseRowCo: every column falls, then FilledBoardCo is scheduled. */
    method DecreaseRowCo()
      requires Valid()
      modifies board`posIndex, board.cells, this`pending
      ensures Valid()
      ensures board.Snapshot() == Fall(old(board.Snapshot()))
      ensures pending == old(pending) + [Refilling]
    {
      ghost var g0 := board.Snapshot();
      var x := 0;
      while x < Width
        invariant 0 <= x <= Width && Valid() && pending == old(pending)
        invariant forall i :: 0 <= i < Width ==> board.Snapshot()[i] == if i < x then Packed(g0[i]) else g0[i]
      {
        ShiftColumn(x);
        x := x + 1;
      }
      assert forall i :: 0 <= i < Width ==> board.Snapshot()[i] == Fall(g0)[i];
      pending := pending + [Refilling];
    }

    /**
     * RefillBoardCo's step for one cell: an occupied cell is left alone; an empty one gets a
     * palette gem unless the palette is empty.
     */
    method RefillCell(position: Pos)
      requires Valid() && InBounds(position.x, position.y)
      modifies this`bombs, pool, board, board.cells
      ensures Valid() && BoardFieldsKept(old(board.currentMatches), old(board.isMatch))
      ensures var x, y := position.x, position.y;
        if old(board.Snapshot())[x][y].Some? || |config.gems| == 0 then board.Snapshot() == old(board.Snapshot())
        else board.Snapshot() == Put(old(board.Snapshot()), x, y, board.Snapshot()[x][y])
             && board.Snapshot()[x][y].Some? && FromPalette(config, bombColor, board.Snapshot()[x][y].value)
    {
      var curGem := board.GetGem(position.x, position.y);
      if curGem.Some? {
        return;
      }
      var gemToSpawn, _ := GetRandomGemForPosition(position);
      if gemToSpawn.Some? {
        var k :| 0 <= k < |config.gems| && config.gems[k] == gemToSpawn.value;
        var gem := SpawnGem(position, gemToSpawn.value);
        assert gem == InstancePiece(config, config.gems[k], gem.id, bombColor);
      }
    }

    /** One column of RefillBoardCo, bottom up: only its empty cells change, each to a palette gem. */
    method RefillColumn(x: int)
      requires Valid() && 0 <= x < Width
      modifies this`bombs, pool, board, board.cells
      ensures Valid() && BoardFieldsKept(old(board.currentMatches), old(board.isMatch))
      ensures forall i: int, j: int :: InBounds(i, j) && (i != x || old(board.Snapshot())[i][j].Some?) ==>
        board.Snapshot()[i][j] == old(board.Snapshot())[i][j]
      ensures forall j :: 0 <= j < Height && old(board.Snapshot())[x][j].None? && board.Snapshot()[x][j].Some? ==>
        FromPalette(config, bombColor, board.Snapshot()[x][j].value)
      ensures |config.gems| > 0 ==> forall j :: 0 <= j < Height ==> board.Snapshot()[x][j].Some?
      ensures |config.gems| == 0 ==> board.Snapshot() == old(board.Snapshot())
    {
      hide Tracked, PoolValid, PoolSound, Detection.FindAllMatches;
      ghost var g0: Grid := board.Snapshot();
      var y := 0;
      while y < Height
        invariant 0 <= y <= Height && Valid() && BoardFieldsKept(old(board.currentMatches), old(board.isMatch))
        invariant forall i: int, j: int :: InBounds(i, j) && (i != x || g0[i][j].Some?) ==> board.Snapshot()[i][j] == g0[i][j]
        invariant forall j :: 0 <= j < Height && g0[x][j].None? && board.Snapshot()[x][j].Some? ==>
          FromPalette(config, bombColor, board.Snapshot()[x][j].value)
        invariant |config.gems| > 0 ==> forall j :: 0 <= j < y ==> board.Snapshot()[x][j].Some?
        invariant |config.gems| == 0 ==> board.Snapshot() == g0
      {
        RefillCell(Pos(x, y));
        y := y + 1;
      }
    }

    /**
     * RefillBoardCo: every empty cell, column by column and bottom up, gets a palette gem;
     * gems already on the board stay where they are.
     */
    method RefillBoardCo()
      requires Valid()
      modifies this`bombs, pool, board, board.cells
      ensures Valid() && BoardFieldsKept(old(board.currentMatches), old(board.isMatch))
      ensures forall x, y :: InBounds(x, y) && old(board.Snapshot())[x][y].Some? ==>
        board.Snapshot()[x][y] == old(board.Snapshot())[x][y]
      ensures forall x, y :: InBounds(x, y) && old(board.Snapshot())[x][y].None? && board.Snapshot()[x][y].Some? ==>
        FromPalette(config, bombColor, board.Snapshot()[x][y].value)
      ensures |config.gems| > 0 ==> forall x, y :: InBounds(x, y) ==> board.Snapshot()[x][y].Some?
      ensures |config.gems| == 0 ==> board.Snapshot() == old(board.Snapshot())
    {
      hide Tracked, PoolValid, PoolSound, Detection.FindAllMatches;
      ghost var g0: Grid := board.Snapshot();
      var x := 0;
      while x < Width
        invariant 0 <= x <= Width && Valid() && BoardFieldsKept(old(board.currentMatches), old(board.isMatch))
        invariant forall i: int, j: int :: InBounds(i, j) && g0[i][j].Some? ==> board.Snapshot()[i][j] == g0[i][j]
        invariant forall i: int, j: int :: InBounds(i, j) && g0[i][j].None? && board.Snapshot()[i][j].Some? ==>
          FromPalette(config, bombColor, board.Snapshot()[i][j].value)
        invariant |config.gems| > 0 ==> forall i, j :: InBounds(i, j) && i < x ==> board.Snapshot()[i][j].Some?
        invariant |config.gems| == 0 ==> board.Snapshot() == g0
      {
        RefillColumn(x);
        x := x + 1;
      }
    }

    /** One column of Setup, bottom up: each of its cells gets a palette gem, the other columns stay. */
    method SetupColumn(x: int)
      requires Valid() && |config.gems| > 0 && 0 <= x < Width
      requires forall j :: 0 <= j < Height ==> board.Snapshot()[x][j].None?
      modifies this`bombs, pool, board, board.cells
      ensures Valid() && BoardFieldsKept(old(board.currentMatches), old(board.isMatch))
      ensures forall i: int, j: int :: InBounds(i, j) && i != x ==> board.Snapshot()[i][j] == old(board.Snapshot())[i][j]
      ensures forall j :: 0 <= j < Height ==>
        board.Snapshot()[x][j].Some? && FromPalette(config, bombColor, board.Snapshot()[x][j].value)
    {
      hide Tracked, PoolValid, PoolSound, Detection.FindAllMatches;
      ghost var g0: Grid := board.Snapshot();
      var y := 0;
      while y < Height
        invariant 0 <= y <= Height && Valid() && BoardFieldsKept(old(board.currentMatches), old(board.isMatch))
        invariant forall i: int, j: int :: InBounds(i, j) && i != x ==> board.Snapshot()[i][j] == g0[i][j]
        invariant forall j :: 0 <= j < y ==>
          board.Snapshot()[x][j].Some? && FromPalette(config, bombColor, board.Snapshot()[x][j].value)
        invariant forall j :: y <= j < Height ==> board.Snapshot()[x][j].None?
      {
        var boardPos := Pos(x, y);
        var gemToSpawn, _ := GetRandomGemForPosition(boardPos);
        var k :| 0 <= k < |config.gems| && config.gems[k] == gemToSpawn.value;
        var gem := SpawnGem(boardPos, gemToSpawn.value);
        assert gem == InstancePiece(config, config.gems[k], gem.id, bombColor);
        y := y + 1;
      }
    }

    /**
     * Setup: every cell of the empty board, column by column and bottom up, gets a palette gem.
     * The draw is spawned without a null check, so the palette must not be empty (Spawn of a
     * null prefab throws).
     */
    method Setup()
      requires Valid() && |config.gems| > 0
      requires forall x, y :: InBounds(x, y) ==> board.Snapshot()[x][y].None?
      modifies this`bombs, pool, board, board.cells
      ensures Valid() && BoardFieldsKept(old(board.currentMatches), old(board.isMatch))
      ensures forall x, y :: InBounds(x, y) ==>
        board.Snapshot()[x][y].Some? && FromPalette(config, bombColor, board.Snapshot()[x][y].value)
    {
      hide Tracked, PoolValid, PoolSound, Detection.FindAllMatches;
      var x := 0;
      while x < Width
        invariant 0 <= x <= Width && Valid() && BoardFieldsKept(old(board.currentMatches), old(board.isMatch))
        invariant forall i, j :: InBounds(i, j) && i < x ==>
          board.Snapshot()[i][j].Some? && FromPalette(config, bombColor, board.Snapshot()[i][j].value)
        invariant forall i, j :: InBounds(i, j) && i >= x ==> board.Snapshot()[i][j].None?
      {
        SetupColumn(x);
        x := x + 1;
      }
    }

    /**
     * FilledBoardCo: refill, then look for matches again; matches are resolved (and the fall
     * scheduled again), and a board without matches hands control back to the player. The
     * ghost results are the board, the posIndex and the bomb set right after the refill.
     */
    method FilledBoardCo() returns (ghost refilled: Grid, ghost refilledIndex: map<nat, Pos>,
                                    ghost refilledBombs: set<nat>)
      requires Valid()
      modifies this`bombs, this`score, this`bombColor, this`pending, this`state, pool, board, board.cells
      ensures Valid() && WellFormed(refilled)
      ensures forall x, y :: InBounds(x, y) && old(board.Snapshot())[x][y].Some? ==>
        refilled[x][y] == old(board.Snapshot())[x][y]
      ensures forall x, y :: InBounds(x, y) && old(board.Snapshot())[x][y].None? && refilled[x][y].Some? ==>
        FromPalette(config, old(bombColor), refilled[x][y].value)
      ensures |config.gems| > 0 ==> forall x, y :: InBounds(x, y) ==> refilled[x][y].Some?
      ensures |config.gems| == 0 ==> refilled == old(board.Snapshot())
      ensures forall p :: OnBoard(refilled, p) ==> (p.id in refilledBombs <==> p.kind.BombGem?)
      ensures board.currentMatches == Detection.FindAllMatches(refilled, refilledIndex)
      ensures board.currentMatches == [] ==>
        state == Move && pending == old(pending) && score == old(score)
        && board.Snapshot() == refilled && board.posIndex == refilledIndex
        && Detection.FindAllMatches(board.Snapshot(), board.posIndex) == []
      ensures board.currentMatches != [] ==>
        state == old(state) && pending == old(pending) + [Falling]
        && ListResolved(board.Snapshot(), score, refilled, old(score), board.currentMatches,
                        refilledBombs, refilledIndex, config)
      ensures |config.gems| > 0 && board.currentMatches == [] ==>
        forall x, y :: InBounds(x, y) ==> board.Snapshot()[x][y].Some?
    {
      hide Tracked, FromPalette, Resolved, BoardScore, ClearSet, Detection.FindAllMatches, PoolValid, PoolSound;
      RefillBoardCo();
      refilled, refilledIndex, refilledBombs := board.Snapshot(), board.posIndex, bombs;
      forall p | OnBoard(refilled, p)
        ensures p.id in refilledBombs <==> p.kind.BombGem?
      {
        TrackedOnBoard(refilled, refilledIndex, refilledBombs, pool.active, p);
      }
      board.FindAllMatches();
      DetectionProperties.FindAllMatchesResolvable(board.Snapshot(), board.posIndex);
      if |board.currentMatches| > 0 {
        DestroyMatches();
      } else {
        state := Move;
      }
    }

    /** The player may act exactly when no coroutine of a cascade is scheduled; at most one is. */
    ghost predicate Synced()
      reads this
    {
      |pending| <= 1 && (state == Wait <==> |pending| == 1)
    }

    /**
     * The coroutine scheduler: the scheduled coroutines run one after another, at most `fuel`
     * of them. A cascade that ends leaves the player in the Move state on a board without matches.
     */
    method RunPending(fuel: nat)
      requires Valid() && Synced()
      modifies this`bombs, this`score, this`bombColor, this`pending, this`state, pool, board, board.cells
      ensures Valid() && Synced()
      ensures old(pending) == [] ==> unchanged(this) && board.Snapshot() == old(board.Snapshot())
      ensures old(pending) != [] && pending == [] ==>
        state == Move && Detection.FindAllMatches(board.Snapshot(), board.posIndex) == []
    {
      ghost var ran := false;
      var steps := 0;
      while steps < fuel && |pending| > 0
        invariant Valid() && Synced()
        invariant !ran ==> unchanged(this) && board.Snapshot() == old(board.Snapshot())
        invariant ran == (old(pending) != [] && steps > 0)
        invariant ran && pending == [] ==> Detection.FindAllMatches(board.Snapshot(), board.posIndex) == []
      {
        var phase := pending[0];
        pending := pending[1..];
        match phase {
          case Falling => DecreaseRowCo();
          case Refilling =>
            ghost var refilled, refilledIndex, refilledBombs := FilledBoardCo();
        }
        ran := true;
        steps := steps + 1;
      }
    }
  }
}
