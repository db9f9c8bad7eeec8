/**
 * Terminal evaluation after a move: the win test, the scans for a pair of
 * equal neighbours, and the win / loss / continue decision.
 */
module Terminal {
  import opened Grid

  /** The tile value that wins the game. */
  const WinningTile: nat := 2048

  datatype Outcome = Win | Loss | Continue

  /** Cell (i, j) equals its right neighbour. */
  predicate HorizontalPairAt(b: Board, i: nat, j: nat)
    requires i < Size && j < Size - 1
  {
    b[i][j] == b[i][j + 1]
  }

  /** Cell (i, j) equals the cell below it. */
  predicate VerticalPairAt(b: Board, i: nat, j: nat)
    requires i < Size - 1 && j < Size
  {
    b[i][j] == b[i + 1][j]
  }

  /** Two horizontally adjacent cells are equal. */
  predicate HasHorizontalPair(b: Board)
  {
    exists i: nat, j: nat :: i < Size && j < Size - 1 && HorizontalPairAt(b, i, j)
  }

  /** Two vertically adjacent cells are equal. */
  predicate HasVerticalPair(b: Board)
  {
    exists i: nat, j: nat :: i < Size - 1 && j < Size && VerticalPairAt(b, i, j)
  }

  /**
   * The nested loops of `horizontal_move_exists` from position (i, j) on,
   * row by row: true as soon as a cell equals its right neighbour.
   */
  function HorizontalScan(b: Board, i: nat, j: nat): (found: bool)
    requires i <= Size && j < Size
    ensures found <==> exists p: nat, q: nat :: i <= p < Size && q < Size - 1 && (p > i || q >= j)
                                                && HorizontalPairAt(b, p, q)
    decreases Size - i, Size - j
  {
    if i == Size then false
    else if j == Size - 1 then HorizontalScan(b, i + 1, 0)
    else HorizontalPairAt(b, i, j) || HorizontalScan(b, i, j + 1)
  }

  /**
   * The nested loops of `vertical_move_exists` from position (i, j) on,
   * row by row: true as soon as a cell equals the one below it.
   */
  function VerticalScan(b: Board, i: nat, j: nat): (found: bool)
    requires i < Size && j <= Size
    ensures found <==> exists p: nat, q: nat :: i <= p < Size - 1 && q < Size && (p > i || q >= j)
                                                && VerticalPairAt(b, p, q)
    decreases Size - i, Size - j
  {
    if i == Size - 1 then false
    else if j == Size then VerticalScan(b, i + 1, 0)
    else VerticalPairAt(b, i, j) || VerticalScan(b, i, j + 1)
  }

  function HorizontalMoveExists(b: Board): (found: bool)
    ensures found <==> HasHorizontalPair(b)
  {
    HorizontalScan(b, 0, 0)
  }

  function VerticalMoveExists(b: Board): (found: bool)
    ensures found <==> HasVerticalPair(b)
  {
    VerticalScan(b, 0, 0)
  }

  /** Some row contains `v`, tested row by row. */
  function AnyRowHolds(b: Board, v: nat): (found: bool)
    ensures found <==> HasTile(b, v)
  {
    var found := exists i :: 0 <= i < Size && v in b[i];
    assert found ==> HasTile(b, v) by {
      if found {
        var i :| 0 <= i < Size && v in b[i];
        var j :| 0 <= j < |b[i]| && b[i][j] == v;
      }
    }
    found
  }

  function CheckForWin(b: Board): (won: bool)
    ensures won <==> HasTile(b, WinningTile)
  {
    AnyRowHolds(b, WinningTile)
  }

  /**
   * `game_over`: a 2048 tile wins whatever else is on the board; otherwise
   * an empty cell or a pair of equal neighbours lets the game go on, and
   * without either the game is lost.
   */
  function GameOver(b: Board): (o: Outcome)
    ensures o == Win <==> HasTile(b, WinningTile)
    ensures o == Loss <==> !HasTile(b, WinningTile) && !HasEmpty(b)
                           && !HasHorizontalPair(b) && !HasVerticalPair(b)
  {
    if CheckForWin(b) then Win
    else if AnyRowHolds(b, 0) then Continue
    else if HorizontalMoveExists(b) || VerticalMoveExists(b) then Continue
    else Loss
  }

  /** Mirroring the rows keeps the horizontal pairs and the vertical pairs. */
  lemma ReverseKeepsPairs(b: Board)
    ensures HasHorizontalPair(Reverse(b)) <==> HasHorizontalPair(b)
    ensures HasVerticalPair(Reverse(b)) <==> HasVerticalPair(b)
  {
    var v := Reverse(b);
    if HasHorizontalPair(b) {
      var i: nat, j: nat :| i < Size && j < Size - 1 && HorizontalPairAt(b, i, j);
      assert HorizontalPairAt(v, i, Size - 2 - j);
    }
    if HasHorizontalPair(v) {
      var i: nat, j: nat :| i < Size && j < Size - 1 && HorizontalPairAt(v, i, j);
      assert HorizontalPairAt(b, i, Size - 2 - j);
    }
    if HasVerticalPair(b) {
      var i: nat, j: nat :| i < Size - 1 && j < Size && VerticalPairAt(b, i, j);
      assert VerticalPairAt(v, i, Size - 1 - j);
    }
    if HasVerticalPair(v) {
      var i: nat, j: nat :| i < Size - 1 && j < Size && VerticalPairAt(v, i, j);
      assert VerticalPairAt(b, i, Size - 1 - j);
    }
  }

  /** Transposing turns vertical pairs into horizontal ones and back. */
  lemma TransposeSwapsPairs(b: Board)
    ensures HasHorizontalPair(Transpose(b)) <==> HasVerticalPair(b)
    ensures HasVerticalPair(Transpose(b)) <==> HasHorizontalPair(b)
  {
    var t := Transpose(b);
    if HasVerticalPair(b) {
      var i: nat, j: nat :| i < Size - 1 && j < Size && VerticalPairAt(b, i, j);
      assert HorizontalPairAt(t, j, i);
    }
    if HasHorizontalPair(t) {
      var i: nat, j: nat :| i < Size && j < Size - 1 && HorizontalPairAt(t, i, j);
      assert VerticalPairAt(b, j, i);
    }
    if HasHorizontalPair(b) {
      var i: nat, j: nat :| i < Size && j < Size - 1 && HorizontalPairAt(b, i, j);
      assert VerticalPairAt(t, j, i);
    }
    if HasVerticalPair(t) {
      var i: nat, j: nat :| i < Size - 1 && j < Size && VerticalPairAt(t, i, j);
      assert HorizontalPairAt(b, j, i);
    }
  }
}
