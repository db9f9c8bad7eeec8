/**
 * The 4x4 board and the game state, with the four whole-board matrix
 * operations the moves are built from: stack, combine, reverse and
 * transpose. Row-wise operations apply the row primitives of `Rows` to each
 * of the four rows.
 */
module Grid {
  import opened Rows

  /** Rows and columns of the board. */
  const Size: nat := 4

  predicate IsBoard(b: seq<seq<nat>>)
  {
    |b| == Size && forall i :: 0 <= i < Size ==> |b[i]| == Size
  }

  /** A 4x4 grid of naturals; 0 is an empty cell. */
  type Board = b: seq<seq<nat>> | IsBoard(b)
    witness [[0, 0, 0, 0], [0, 0, 0, 0], [0, 0, 0, 0], [0, 0, 0, 0]]

  /** The board together with the accumulated score. */
  datatype Game = Game(board: Board, score: nat)

  /** The board with every cell empty. */
  const EmptyBoard: Board := [[0, 0, 0, 0], [0, 0, 0, 0], [0, 0, 0, 0], [0, 0, 0, 0]]

  /** Some cell holds `v`. */
  predicate HasTile(b: Board, v: nat)
  {
    exists i, j :: 0 <= i < Size && 0 <= j < Size && b[i][j] == v
  }

  /** Some cell is empty. */
  predicate HasEmpty(b: Board)
  {
    HasTile(b, 0)
  }

  /** The values on the board, with multiplicity. */
  function Cells(b: Board): multiset<nat>
  {
    multiset(b[0]) + multiset(b[1]) + multiset(b[2]) + multiset(b[3])
  }

  /** The total of all cells. */
  function BoardSum(b: Board): nat
  {
    Sum(b[0]) + Sum(b[1]) + Sum(b[2]) + Sum(b[3])
  }

  /** Every occupied cell holds a power of two. */
  predicate TilesArePowersOfTwo(b: Board)
  {
    forall i :: 0 <= i < Size ==> PowersOfTwo(b[i])
  }

  /** A board without an empty cell has only full rows. */
  lemma NoEmptyMeansFullRows(b: Board)
    ensures !HasEmpty(b) <==> forall i :: 0 <= i < Size ==> Full(b[i])
  {
    if !HasEmpty(b) {
      forall i | 0 <= i < Size ensures Full(b[i]) {
        forall j | 0 <= j < Size ensures b[i][j] != 0 {
          assert !(b[i][j] == 0);
        }
      }
    }
  }

  // ------------------------------------------------------------ operations

  /** `stack`: every row compacted to the left, values kept in order. */
  function Stack(b: Board): (s: Board)
    ensures forall i :: 0 <= i < Size ==> Compacted(s[i]) && NonZeros(s[i]) == NonZeros(b[i])
  {
    seq(Size, i requires 0 <= i < Size => StackRow(b[i]))
  }

  /** The score one combine pass earns over the whole board. */
  function CombineGain(b: Board): nat
  {
    CombineRow(b[0]).gain + CombineRow(b[1]).gain + CombineRow(b[2]).gain + CombineRow(b[3]).gain
  }

  /** `combine`: every row merged left to right, the doubled values scored. */
  function Combine(g: Game): (h: Game)
    ensures h.score >= g.score
    ensures forall i, j :: 0 <= i < Size && 0 <= j < Size ==>
              h.board[i][j] in {0, g.board[i][j], 2 * g.board[i][j]}
  {
    Game(seq(Size, i requires 0 <= i < Size => CombineRow(g.board[i]).row),
         g.score + CombineGain(g.board))
  }

  /** `reverse`: every row mirrored. */
  function Reverse(b: Board): (v: Board)
    ensures forall i, j :: 0 <= i < Size && 0 <= j < Size ==> v[i][j] == b[i][Size - 1 - j]
  {
    seq(Size, i requires 0 <= i < Size => ReverseRow(b[i]))
  }

  /** `transpose`: rows become columns. */
  function Transpose(b: Board): (t: Board)
    ensures forall i, j :: 0 <= i < Size && 0 <= j < Size ==> t[i][j] == b[j][i]
  {
    seq(Size, i requires 0 <= i < Size => seq(Size, j requires 0 <= j < Size => b[j][i]))
  }

  /** The board with cell (i, j) set to `v`. */
  function Place(b: Board, i: nat, j: nat, v: nat): (t: Board)
    requires i < Size && j < Size
    ensures t[i][j] == v
    ensures forall p, q :: 0 <= p < Size && 0 <= q < Size && (p != i || q != j) ==> t[p][q] == b[p][q]
  {
    var row: seq<nat> := b[i][j := v];
    b[i := row]
  }

  /** Setting a cell rewrites one row and leaves the other rows alone. */
  lemma PlaceRows(b: Board, i: nat, j: nat, v: nat)
    requires i < Size && j < Size
    ensures Place(b, i, j, v)[i] == b[i][j := v]
    ensures forall k :: 0 <= k < Size && k != i ==> Place(b, i, j, v)[k] == b[k]
  {
  }

  lemma MultisetUpdate(r: seq<nat>, j: nat, v: nat)
    requires j < |r|
    ensures multiset(r[j := v]) == multiset(r) - multiset{r[j]} + multiset{v}
  {
  }

  /** Replacing `x` by `v` in one part of a four-part multiset. */
  lemma SwapInPart(m: seq<multiset<nat>>, i: nat, x: nat, v: nat)
    requires |m| == 4 && i < 4 && x in m[i]
    ensures var n := m[i := m[i] - multiset{x} + multiset{v}];
            n[0] + n[1] + n[2] + n[3] == m[0] + m[1] + m[2] + m[3] - multiset{x} + multiset{v}
  {
  }

  /** Setting one cell swaps one value of the board for another. */
  lemma PlaceSwapsOneValue(b: Board, i: nat, j: nat, v: nat)
    requires i < Size && j < Size
    ensures Cells(Place(b, i, j, v)) == Cells(b) - multiset{b[i][j]} + multiset{v}
  {
    var t := Place(b, i, j, v);
    var m := [multiset(b[0]), multiset(b[1]), multiset(b[2]), multiset(b[3])];
    PlaceRows(b, i, j, v);
    MultisetUpdate(b[i], j, v);
    assert b[i][j] in m[i];
    SwapInPart(m, i, b[i][j], v);
    assert [multiset(t[0]), multiset(t[1]), multiset(t[2]), multiset(t[3])]
        == m[i := m[i] - multiset{b[i][j]} + multiset{v}];
  }

  /** Setting one cell changes the total by the difference. */
  lemma PlaceChangesSum(b: Board, i: nat, j: nat, v: nat)
    requires i < Size && j < Size
    ensures BoardSum(Place(b, i, j, v)) + b[i][j] == BoardSum(b) + v
  {
    var t := Place(b, i, j, v);
    SumUpdate(b[i], j, v);
    assert t[i] == b[i][j := v];
  }

  // ------------------------------------------------------ reverse, transpose

  lemma ReverseInvolutive(b: Board)
    ensures Reverse(Reverse(b)) == b
  {
    forall i | 0 <= i < Size ensures Reverse(Reverse(b))[i] == b[i] {
      ReverseRowInvolutive(b[i]);
    }
  }

  lemma TransposeInvolutive(b: Board)
    ensures Transpose(Transpose(b)) == b
  {
    forall i | 0 <= i < Size ensures Transpose(Transpose(b))[i] == b[i] {
    }
  }

  lemma ReversePermutes(b: Board)
    ensures Cells(Reverse(b)) == Cells(b)
  {
    ReverseRowPermutes(b[0]);
    ReverseRowPermutes(b[1]);
    ReverseRowPermutes(b[2]);
    ReverseRowPermutes(b[3]);
  }

  /** Whether a cell holding `v` is an occurrence of `x`, as a count. */
  function Occurs(v: nat, x: nat): nat
  {
    if v == x then 1 else 0
  }

  /** How often `x` occurs in a row of width 4. */
  lemma Count4(r: seq<nat>, x: nat)
    requires |r| == 4
    ensures multiset(r)[x] == Occurs(r[0], x) + Occurs(r[1], x) + Occurs(r[2], x) + Occurs(r[3], x)
  {
    assert r == [r[0]] + [r[1]] + [r[2]] + [r[3]];
  }

  lemma TransposeCount(b: Board, x: nat)
    ensures Cells(Transpose(b))[x] == Cells(b)[x]
  {
    var t := Transpose(b);
    Count4(b[0], x); Count4(b[1], x); Count4(b[2], x); Count4(b[3], x);
    Count4(t[0], x); Count4(t[1], x); Count4(t[2], x); Count4(t[3], x);
  }

  lemma TransposePermutes(b: Board)
    ensures Cells(Transpose(b)) == Cells(b)
  {
    forall x ensures Cells(Transpose(b))[x] == Cells(b)[x] {
      TransposeCount(b, x);
    }
  }

  lemma ReversePreservesSum(b: Board)
    ensures BoardSum(Reverse(b)) == BoardSum(b)
  {
    ReverseRowPreservesSum(b[0]);
    ReverseRowPreservesSum(b[1]);
    ReverseRowPreservesSum(b[2]);
    ReverseRowPreservesSum(b[3]);
  }

  lemma TransposePreservesSum(b: Board)
    ensures BoardSum(Transpose(b)) == BoardSum(b)
  {
    var t := Transpose(b);
    Sum4(b[0]); Sum4(b[1]); Sum4(b[2]); Sum4(b[3]);
    Sum4(t[0]); Sum4(t[1]); Sum4(t[2]); Sum4(t[3]);
  }

  lemma StackPreservesSum(b: Board)
    ensures BoardSum(Stack(b)) == BoardSum(b)
  {
    StackRowPreservesSum(b[0]);
    StackRowPreservesSum(b[1]);
    StackRowPreservesSum(b[2]);
    StackRowPreservesSum(b[3]);
  }

  lemma CombinePreservesSum(g: Game)
    ensures BoardSum(Combine(g).board) == BoardSum(g.board)
  {
    CombineRowPreservesSum(g.board[0]);
    CombineRowPreservesSum(g.board[1]);
    CombineRowPreservesSum(g.board[2]);
    CombineRowPreservesSum(g.board[3]);
  }

  /** Emptiness does not depend on orientation. */
  lemma OrientationKeepsEmpty(b: Board)
    ensures HasEmpty(Reverse(b)) <==> HasEmpty(b)
    ensures HasEmpty(Transpose(b)) <==> HasEmpty(b)
  {
    var v, t := Reverse(b), Transpose(b);
    if HasEmpty(b) {
      var i, j :| 0 <= i < Size && 0 <= j < Size && b[i][j] == 0;
      assert v[i][Size - 1 - j] == 0;
      assert t[j][i] == 0;
    }
    if HasEmpty(v) {
      var i, j :| 0 <= i < Size && 0 <= j < Size && v[i][j] == 0;
      assert b[i][Size - 1 - j] == 0;
    }
    if HasEmpty(t) {
      var i, j :| 0 <= i < Size && 0 <= j < Size && t[i][j] == 0;
      assert b[j][i] == 0;
    }
  }

  // ------------------------------------------------------- powers of two

  lemma StackPreservesPowers(b: Board)
    requires TilesArePowersOfTwo(b)
    ensures TilesArePowersOfTwo(Stack(b))
  {
    forall i | 0 <= i < Size ensures PowersOfTwo(Stack(b)[i]) {
      StackRowPreservesPowers(b[i]);
    }
  }

  lemma CombinePreservesPowers(g: Game)
    requires TilesArePowersOfTwo(g.board)
    ensures TilesArePowersOfTwo(Combine(g).board)
  {
    forall i | 0 <= i < Size ensures PowersOfTwo(Combine(g).board[i]) {
      CombineRowPreservesPowers(g.board[i]);
    }
  }

  lemma ReversePreservesPowers(b: Board)
    requires TilesArePowersOfTwo(b)
    ensures TilesArePowersOfTwo(Reverse(b))
  {
  }

  lemma TransposePreservesPowers(b: Board)
    requires TilesArePowersOfTwo(b)
    ensures TilesArePowersOfTwo(Transpose(b))
  {
    var t := Transpose(b);
    forall i, j | 0 <= i < Size && 0 <= j < Size
      ensures t[i][j] == 0 || IsPowerOfTwo(t[i][j])
    {
      assert t[i][j] == b[j][i];
      assert PowersOfTwo(b[j]);
    }
  }
}
