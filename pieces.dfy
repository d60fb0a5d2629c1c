/** A nullable reference: `None` stands for C#'s `null`. */
module Options {
  datatype Option<+T> = None | Some(value: T)
}

/**
 * Gems, bombs and the rule deciding when two pieces count as the same colour
 * (ScBomb.CanInteractWith, GameBoard.AreInSameMatchGroup, GameBoard.CheckDoubleBombMatch).
 */
module Pieces {
  import opened Options

  /** The colours of the game. `Bomb` doubles as the "generic" bomb colour. */
  datatype GemType = Blue | Green | Red | Purple | Yellow | Bomb

  /** A regular gem has a colour; a bomb has a logical colour and a blast size. */
  datatype Kind =
    | RegularGem(gemType: GemType)
    | BombGem(color: GemType, blastSize: int)

  /**
   * A gem instance: `id` is its identity (the pool instance), `kind` says whether it is
   * an ScBomb, `scoreValue` is what destroying it adds to the score.
   */
  datatype Piece = Piece(id: nat, kind: Kind, scoreValue: int)

  /** A board coordinate (Vector2Int). */
  datatype Pos = Pos(x: int, y: int)

  predicate IsBombPiece(p: Option<Piece>) {
    p.Some? && p.value.kind.BombGem?
  }

  /** ScBomb.CanInteractWith: may `bomb` form a match with / be triggered by `other`? */
  function CanInteractWith(bomb: Piece, other: Option<Piece>): bool
    requires bomb.kind.BombGem?
  {
    if other.None? then false
    else if bomb.kind.color == GemType.Bomb then true
    else if other.value.kind.BombGem? then
      other.value.kind.color == GemType.Bomb || other.value.kind.color == bomb.kind.color
    else
      other.value.kind.gemType == bomb.kind.color
  }

  /** GameBoard.AreInSameMatchGroup: null never matches; a bomb on either side decides. */
  function AreInSameMatchGroup(a: Option<Piece>, b: Option<Piece>): bool
  {
    if a.None? || b.None? then false
    else if a.value.kind.BombGem? then CanInteractWith(a.value, b)
    else if b.value.kind.BombGem? then CanInteractWith(b.value, a)
    else a.value.kind.gemType == b.value.kind.gemType
  }

  /** GameBoard.CheckDoubleBombMatch: both present and both bombs, whatever their colours. */
  function CheckDoubleBombMatch(first: Option<Piece>, second: Option<Piece>): bool
  {
    if first.None? || second.None? then false
    else first.value.kind.BombGem? && second.value.kind.BombGem?
  }

  // ---------------------------------------------------------------------------
  // Properties of the bomb interaction rule

  lemma NullNeverInteracts(bomb: Piece)
    requires bomb.kind.BombGem?
    ensures !CanInteractWith(bomb, None)
  {
  }

  /** A generic bomb interacts with every piece. */
  lemma GenericBombInteractsWithAll(bomb: Piece, other: Piece)
    requires bomb.kind.BombGem? && bomb.kind.color == GemType.Bomb
    ensures CanInteractWith(bomb, Some(other))
  {
  }

  /** A coloured bomb and another bomb: generic or the same colour. */
  lemma ColouredBombWithBomb(bomb: Piece, other: Piece)
    requires bomb.kind.BombGem? && bomb.kind.color != GemType.Bomb
    requires other.kind.BombGem?
    ensures CanInteractWith(bomb, Some(other))
        <==> other.kind.color == GemType.Bomb || other.kind.color == bomb.kind.color
  {
  }

  /** A coloured bomb and a regular gem: the gem's type must be the bomb's colour. */
  lemma ColouredBombWithRegular(bomb: Piece, other: Piece)
    requires bomb.kind.BombGem? && bomb.kind.color != GemType.Bomb
    requires other.kind.RegularGem?
    ensures CanInteractWith(bomb, Some(other)) <==> other.kind.gemType == bomb.kind.color
  {
  }

  // ---------------------------------------------------------------------------
  // Properties of the match-group relation

  lemma {:induction false} GroupNeedsBothPieces(a: Option<Piece>, b: Option<Piece>)
    requires a.None? || b.None?
    ensures !AreInSameMatchGroup(a, b)
  {
  }

  /** Two regular gems are grouped exactly when their types agree. */
  lemma RegularGroupIffSameType(a: Piece, b: Piece)
    requires a.kind.RegularGem? && b.kind.RegularGem?
    ensures AreInSameMatchGroup(Some(a), Some(b)) <==> a.kind.gemType == b.kind.gemType
  {
  }

  /**
   * Although the rule is written asymmetrically (the bomb on the left is asked first),
   * the relation it defines is symmetric.
   */
  lemma GroupSymmetric(a: Option<Piece>, b: Option<Piece>)
    ensures AreInSameMatchGroup(a, b) == AreInSameMatchGroup(b, a)
  {
    if a.Some? && b.Some? && a.value.kind.BombGem? && b.value.kind.BombGem? {
      assert CanInteractWith(a.value, b) == CanInteractWith(b.value, a);
    }
  }

  /** The relation is not transitive: a generic bomb groups with red and with blue gems. */
  lemma GroupNotTransitive()
    ensures exists a: Option<Piece>, b: Option<Piece>, c: Option<Piece> ::
      AreInSameMatchGroup(a, b) && AreInSameMatchGroup(b, c) && !AreInSameMatchGroup(a, c)
  {
    var red := Some(Piece(0, RegularGem(Red), 10));
    var bomb := Some(Piece(1, BombGem(GemType.Bomb, 1), 10));
    var blue := Some(Piece(2, RegularGem(Blue), 10));
    assert AreInSameMatchGroup(red, bomb) && AreInSameMatchGroup(bomb, blue);
    assert !AreInSameMatchGroup(red, blue);
  }

  /** The double-bomb test ignores colours: two bombs that cannot interact still pass it. */
  lemma DoubleBombIgnoresColour()
    ensures exists a: Piece, b: Piece ::
      CheckDoubleBombMatch(Some(a), Some(b)) && !AreInSameMatchGroup(Some(a), Some(b))
  {
    var a := Piece(0, BombGem(Red, 1), 10);
    var b := Piece(1, BombGem(Blue, 1), 10);
    assert CheckDoubleBombMatch(Some(a), Some(b)) && !AreInSameMatchGroup(Some(a), Some(b));
  }
}
