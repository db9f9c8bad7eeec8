/**
 * The four arrow-key moves: the shared stack; combine; stack pipeline,
 * wrapped in reverse and/or transpose, followed by the spawn of a new tile
 * and the terminal evaluation.
 *
 * The random choices of the source become parameters: the sequence of
 * (row, column) draws `add_new_tile` makes until it hits an empty cell, and
 * the value, 2 or 4, it places there.
 */
module Moves {
  import opened Rows
  import opened Grid
  import opened Terminal

  datatype Direction = Left | Right | Up | Down

  // ------------------------------------------------------------------ slide

  /** stack; combine; stack: the move to the left. */
  function Slide(g: Game): (h: Game)
    ensures forall i :: 0 <= i < Size ==> Compacted(h.board[i])
    ensures h.score >= g.score
  {
    var c := Combine(Game(Stack(g.board), g.score));
    Game(Stack(c.board), c.score)
  }

  /**
   * The board and score after the pipeline of a move, before the new tile:
   * right mirrors the rows around the left pipeline, up transposes around
   * it, down does both. No pipeline creates or destroys value: merges turn
   * x + x into 2x.
   */
  function Shift(g: Game, d: Direction): (h: Game)
    ensures h.score >= g.score
    ensures BoardSum(h.board) == BoardSum(g.board)
  {
    match d
    case Left =>
      SlidePreservesSum(g);
      Slide(g)
    case Right =>
      var s := Slide(Game(Reverse(g.board), g.score));
      ReversePreservesSum(g.board);
      SlidePreservesSum(Game(Reverse(g.board), g.score));
      ReversePreservesSum(s.board);
      Game(Reverse(s.board), s.score)
    case Up =>
      var s := Slide(Game(Transpose(g.board), g.score));
      TransposePreservesSum(g.board);
      SlidePreservesSum(Game(Transpose(g.board), g.score));
      TransposePreservesSum(s.board);
      Game(Transpose(s.board), s.score)
    case Down =>
      var s := Slide(Game(Reverse(Transpose(g.board)), g.score));
      TransposePreservesSum(g.board);
      ReversePreservesSum(Transpose(g.board));
      SlidePreservesSum(Game(Reverse(Transpose(g.board)), g.score));
      ReversePreservesSum(s.board);
      TransposePreservesSum(Reverse(s.board));
      Game(Transpose(Reverse(s.board)), s.score)
  }

  /** Column `j` of the board, read from top to bottom. */
  function Column(b: Board, j: nat): (c: seq<nat>)
    requires j < Size
    ensures |c| == Size
  {
    seq(Size, i requires 0 <= i < Size => b[i][j])
  }

  lemma RightPacksTowardEdge(g: Game)
    ensures forall i :: 0 <= i < Size ==> Compacted(ReverseRow(Shift(g, Right).board[i]))
  {
    var s := Slide(Game(Reverse(g.board), g.score));
    forall i | 0 <= i < Size ensures Compacted(ReverseRow(Reverse(s.board)[i])) {
      ReverseRowInvolutive(s.board[i]);
    }
  }

  lemma UpPacksTowardEdge(g: Game)
    ensures forall j :: 0 <= j < Size ==> Compacted(Column(Shift(g, Up).board, j))
  {
    var s := Slide(Game(Transpose(g.board), g.score));
    forall j | 0 <= j < Size ensures Compacted(Column(Transpose(s.board), j)) {
      assert Column(Transpose(s.board), j) == s.board[j];
    }
  }

  lemma DownPacksTowardEdge(g: Game)
    ensures forall j :: 0 <= j < Size ==> Compacted(ReverseRow(Column(Shift(g, Down).board, j)))
  {
    var s := Slide(Game(Reverse(Transpose(g.board)), g.score));
    forall j | 0 <= j < Size ensures Compacted(ReverseRow(Column(Transpose(Reverse(s.board)), j))) {
      assert Column(Transpose(Reverse(s.board)), j) == ReverseRow(s.board[j]);
      ReverseRowInvolutive(s.board[j]);
    }
  }

  /**
   * Every move packs the tiles against the edge it moves towards: read from
   * that edge, no row (or column) has an empty cell before an occupied one.
   */
  lemma ShiftPacksTowardEdge(g: Game, d: Direction)
    ensures d == Left ==> forall i :: 0 <= i < Size ==> Compacted(Shift(g, d).board[i])
    ensures d == Right ==> forall i :: 0 <= i < Size ==> Compacted(ReverseRow(Shift(g, d).board[i]))
    ensures d == Up ==> forall j :: 0 <= j < Size ==> Compacted(Column(Shift(g, d).board, j))
    ensures d == Down ==> forall j :: 0 <= j < Size ==> Compacted(ReverseRow(Column(Shift(g, d).board, j)))
  {
    match d
    case Left =>
    case Right => RightPacksTowardEdge(g);
    case Up => UpPacksTowardEdge(g);
    case Down => DownPacksTowardEdge(g);
  }

  /**
   * The four directions are one pipeline seen from four sides: moving a
   * mirrored board right, or a transposed board up, is moving the original
   * left and mirroring or transposing the result; moving a transposed board
   * down is moving the original right and transposing the result.
   */
  lemma DirectionsAreConjugates(g: Game)
    ensures var l := Shift(g, Left);
            Shift(Game(Reverse(g.board), g.score), Right) == Game(Reverse(l.board), l.score)
    ensures var l := Shift(g, Left);
            Shift(Game(Transpose(g.board), g.score), Up) == Game(Transpose(l.board), l.score)
    ensures var r := Shift(g, Right);
            Shift(Game(Transpose(g.board), g.score), Down) == Game(Transpose(r.board), r.score)
  {
    ReverseInvolutive(g.board);
    TransposeInvolutive(g.board);
  }

  lemma SlidePreservesSum(g: Game)
    ensures BoardSum(Slide(g).board) == BoardSum(g.board)
  {
    var s := Stack(g.board);
    StackPreservesSum(g.board);
    CombinePreservesSum(Game(s, g.score));
    StackPreservesSum(Combine(Game(s, g.score)).board);
  }

  lemma SlidePreservesPowers(g: Game)
    requires TilesArePowersOfTwo(g.board)
    ensures TilesArePowersOfTwo(Slide(g).board)
  {
    var s := Stack(g.board);
    StackPreservesPowers(g.board);
    CombinePreservesPowers(Game(s, g.score));
    StackPreservesPowers(Combine(Game(s, g.score)).board);
  }

  lemma ShiftPreservesPowers(g: Game, d: Direction)
    requires TilesArePowersOfTwo(g.board)
    ensures TilesArePowersOfTwo(Shift(g, d).board)
  {
    match d
    case Left =>
      SlidePreservesPowers(g);
    case Right =>
      var s := Slide(Game(Reverse(g.board), g.score));
      ReversePreservesPowers(g.board);
      SlidePreservesPowers(Game(Reverse(g.board), g.score));
      ReversePreservesPowers(s.board);
    case Up =>
      var s := Slide(Game(Transpose(g.board), g.score));
      TransposePreservesPowers(g.board);
      SlidePreservesPowers(Game(Transpose(g.board), g.score));
      TransposePreservesPowers(s.board);
    case Down =>
      var s := Slide(Game(Reverse(Transpose(g.board)), g.score));
      TransposePreservesPowers(g.board);
      ReversePreservesPowers(Transpose(g.board));
      SlidePreservesPowers(Game(Reverse(Transpose(g.board)), g.score));
      ReversePreservesPowers(s.board);
      TransposePreservesPowers(Reverse(s.board));
  }

  // ------------------------------------------------------ unchanged boards

  /** A board whose rows neither compact nor merge does not move to the left. */
  lemma SlideOfSettledRows(g: Game)
    requires forall i :: 0 <= i < Size ==>
               StackRow(g.board[i]) == g.board[i] && CombineRow(g.board[i]) == Merged(g.board[i], 0)
    ensures Slide(g) == g
  {
    var b := g.board;
    assert Stack(b) == b;
    var c := Combine(g);
    assert c.board == b;
    assert CombineGain(b) == 0;
    assert Stack(c.board) == b;
  }

  /** A full board without a horizontal pair does not move to the left. */
  lemma SlideFixesStuckBoard(g: Game)
    requires !HasEmpty(g.board) && !HasHorizontalPair(g.board)
    ensures Slide(g) == g
  {
    var b := g.board;
    NoEmptyMeansFullRows(b);
    forall i | 0 <= i < Size
      ensures StackRow(b[i]) == b[i] && CombineRow(b[i]) == Merged(b[i], 0)
    {
      forall k | 0 <= k < |b[i]| - 1 ensures b[i][k] != b[i][k + 1] {
        assert !HorizontalPairAt(b, i, k);
      }
      StuckRowUnchanged(b[i]);
    }
    SlideOfSettledRows(g);
  }

  /**
   * On a lost board no move changes anything: every row and every column is
   * full and has no pair of equal neighbours.
   */
  lemma LossLeavesGameUnchanged(g: Game, d: Direction)
    requires GameOver(g.board) == Loss
    ensures Shift(g, d) == g
  {
    var b := g.board;
    ReverseInvolutive(b);
    TransposeInvolutive(b);
    OrientationKeepsEmpty(b);
    OrientationKeepsEmpty(Transpose(b));
    ReverseKeepsPairs(b);
    ReverseKeepsPairs(Transpose(b));
    TransposeSwapsPairs(b);
    match d
    case Left =>
      SlideFixesStuckBoard(g);
    case Right =>
      SlideFixesStuckBoard(Game(Reverse(b), g.score));
    case Up =>
      SlideFixesStuckBoard(Game(Transpose(b), g.score));
    case Down =>
      SlideFixesStuckBoard(Game(Reverse(Transpose(b)), g.score));
      ReverseInvolutive(Transpose(b));
  }

  /** A row that ends the slide full was full, unmerged and unmoved. */
  lemma FullSlidRow(r: seq<nat>)
    requires Full(StackRow(CombineRow(StackRow(r)).row))
    ensures StackRow(r) == r && CombineRow(r) == Merged(r, 0)
  {
    var s := StackRow(r);
    var c := CombineRow(s).row;
    FullStackedRow(c);
    FullCombinedRow(s);
    FullStackedRow(r);
  }

  /** If the slide leaves no empty cell, it changed nothing. */
  lemma FullSlideIsIdentity(g: Game)
    requires !HasEmpty(Slide(g).board)
    ensures Slide(g) == g
  {
    var b := g.board;
    var c := Combine(Game(Stack(b), g.score));
    var f := Stack(c.board);
    assert f == Slide(g).board;
    NoEmptyMeansFullRows(f);
    forall i | 0 <= i < Size
      ensures StackRow(b[i]) == b[i] && CombineRow(b[i]) == Merged(b[i], 0)
    {
      assert f[i] == StackRow(CombineRow(StackRow(b[i])).row);
      FullSlidRow(b[i]);
    }
    SlideOfSettledRows(g);
  }

  /** If a move leaves no empty cell, it changed nothing. */
  lemma FullShiftIsIdentity(g: Game, d: Direction)
    requires !HasEmpty(Shift(g, d).board)
    ensures Shift(g, d) == g
  {
    var b := g.board;
    ReverseInvolutive(b);
    TransposeInvolutive(b);
    match d
    case Left =>
      FullSlideIsIdentity(g);
    case Right =>
      var s := Slide(Game(Reverse(b), g.score));
      OrientationKeepsEmpty(s.board);
      FullSlideIsIdentity(Game(Reverse(b), g.score));
    case Up =>
      var s := Slide(Game(Transpose(b), g.score));
      OrientationKeepsEmpty(s.board);
      FullSlideIsIdentity(Game(Transpose(b), g.score));
    case Down =>
      var s := Slide(Game(Reverse(Transpose(b)), g.score));
      OrientationKeepsEmpty(s.board);
      OrientationKeepsEmpty(Reverse(s.board));
      FullSlideIsIdentity(Game(Reverse(Transpose(b)), g.score));
      ReverseInvolutive(Transpose(b));
  }

  // -------------------------------------------------------------- new tile

  type Index = i: nat | i < Size

  /** One `random.randint(0, 3)` pair: the row and column tried. */
  datatype Draw = Draw(row: Index, col: Index)

  /** The values `random.choice([2, 4])` can return. */
  type TileValue = v: nat | v == 2 || v == 4 witness 2

  /** The draw lands on an empty cell. */
  predicate Hits(b: Board, d: Draw)
  {
    b[d.row][d.col] == 0
  }

  /** Some draw of the sequence lands on an empty cell. */
  predicate SomeHit(b: Board, draws: seq<Draw>)
  {
    exists k :: 0 <= k < |draws| && Hits(b, draws[k])
  }

  /** The retry loop: the position of the first draw that lands on an empty cell. */
  function FirstHit(b: Board, draws: seq<Draw>): (k: nat)
    requires SomeHit(b, draws)
    ensures k < |draws| && Hits(b, draws[k])
    ensures forall m :: 0 <= m < k ==> !Hits(b, draws[m])
  {
    if Hits(b, draws[0]) then 0
    else
      assert SomeHit(b, draws[1..]) by {
        var k :| 0 <= k < |draws| && Hits(b, draws[k]);
        assert draws[1..][k - 1] == draws[k];
      }
      1 + FirstHit(b, draws[1..])
  }

  /** The draws can finish exactly when the board has an empty cell. */
  lemma SpawnNeedsEmptyCell(b: Board)
    ensures HasEmpty(b) <==> exists d: Draw :: SomeHit(b, [d])
  {
    if HasEmpty(b) {
      var i, j :| 0 <= i < Size && 0 <= j < Size && b[i][j] == 0;
      assert Hits(b, [Draw(i, j)][0]);
    }
    if d: Draw :| SomeHit(b, [d]) {
      assert Hits(b, d);
    }
  }

  /**
   * `add_new_tile`: the first draw that lands on an empty cell receives the
   * new tile; every other cell keeps its value.
   */
  function AddNewTile(b: Board, draws: seq<Draw>, v: TileValue): (t: Board)
    requires SomeHit(b, draws)
    ensures var d := draws[FirstHit(b, draws)];
            b[d.row][d.col] == 0 && t[d.row][d.col] == v
            && forall p, q :: 0 <= p < Size && 0 <= q < Size && (p != d.row || q != d.col) ==> t[p][q] == b[p][q]
    ensures Cells(t) == Cells(b) - multiset{0} + multiset{v}
    ensures BoardSum(t) == BoardSum(b) + v
  {
    var d := draws[FirstHit(b, draws)];
    PlaceSwapsOneValue(b, d.row, d.col, v);
    PlaceChangesSum(b, d.row, d.col, v);
    Place(b, d.row, d.col, v)
  }

  lemma AddNewTilePreservesPowers(b: Board, draws: seq<Draw>, v: TileValue)
    requires SomeHit(b, draws) && TilesArePowersOfTwo(b)
    ensures TilesArePowersOfTwo(AddNewTile(b, draws, v))
  {
    assert IsPowerOfTwo(2) && IsPowerOfTwo(4 / 2) && IsPowerOfTwo(4);
    var t := AddNewTile(b, draws, v);
    forall i | 0 <= i < Size ensures PowersOfTwo(t[i]) {
      assert PowersOfTwo(b[i]);
    }
  }

  // ------------------------------------------------------------------ turns

  /** The game after a key press and what `game_over` makes of it. */
  datatype Turn = Turn(game: Game, outcome: Outcome)

  /**
   * One key press as the source handles it: the move's pipeline, then a new
   * tile whatever the pipeline did, then the terminal evaluation. The retry
   * loop only ends when a draw lands on an empty cell.
   */
  function Step(g: Game, d: Direction, draws: seq<Draw>, v: TileValue): (t: Turn)
    requires SomeHit(Shift(g, d).board, draws)
    ensures t.game.score >= g.score
    ensures BoardSum(t.game.board) == BoardSum(g.board) + v
    ensures Cells(t.game.board) == Cells(Shift(g, d).board) - multiset{0} + multiset{v}
    ensures t.outcome == Win <==> HasTile(t.game.board, WinningTile)
    ensures t.outcome == Loss <==> !HasTile(t.game.board, WinningTile) && !HasEmpty(t.game.board)
                                   && !HasHorizontalPair(t.game.board) && !HasVerticalPair(t.game.board)
  {
    var h := Shift(g, d);
    var b := AddNewTile(h.board, draws, v);
    Turn(Game(b, h.score), GameOver(b))
  }

  /** If every tile is a power of two, it stays so after any key press. */
  lemma StepPreservesPowers(g: Game, d: Direction, draws: seq<Draw>, v: TileValue)
    requires SomeHit(Shift(g, d).board, draws)
    requires TilesArePowersOfTwo(g.board)
    ensures TilesArePowersOfTwo(Step(g, d, draws, v).game.board)
  {
    ShiftPreservesPowers(g, d);
    AddNewTilePreservesPowers(Shift(g, d).board, draws, v);
  }

  /**
   * A full board whose only equal neighbours are vertical: `game_over`
   * lets the game continue, yet a move to the left leaves it as it is.
   */
  const StuckBoard: Board := [[2, 4, 8, 16], [2, 8, 16, 32], [4, 16, 32, 64], [8, 32, 64, 128]]

  /** `StuckBoard` is full, holds no 2048, and its equal neighbours are vertical. */
  lemma StuckBoardShape()
    ensures !HasEmpty(StuckBoard) && !HasTile(StuckBoard, WinningTile)
    ensures !HasHorizontalPair(StuckBoard) && HasVerticalPair(StuckBoard)
  {
    var b := StuckBoard;
    assert VerticalPairAt(b, 0, 0);
    forall i, j | 0 <= i < Size && 0 <= j < Size ensures b[i][j] != 0 && b[i][j] != WinningTile {
      assert b[i] in b;
    }
    forall i, j | 0 <= i < Size && 0 <= j < Size - 1 ensures !HorizontalPairAt(b, i, j) {
      assert b[i] in b;
    }
  }

  /**
   * On `StuckBoard` the left arrow cannot complete: the game continues, the
   * move changes nothing, and no sequence of draws ever lands on an empty
   * cell, so the retry loop of `add_new_tile` never ends.
   */
  lemma LeftOnStuckBoardNeverSpawns(draws: seq<Draw>)
    ensures GameOver(StuckBoard) == Continue
    ensures Shift(Game(StuckBoard, 0), Left) == Game(StuckBoard, 0)
    ensures !SomeHit(Shift(Game(StuckBoard, 0), Left).board, draws)
  {
    StuckBoardShape();
    LeftOnVerticalOnlyBoard(Game(StuckBoard, 0), draws);
  }

  /** No draw lands on a board without an empty cell. */
  lemma FullBoardNeverHit(b: Board, draws: seq<Draw>)
    requires !HasEmpty(b)
    ensures !SomeHit(b, draws)
  {
    forall k | 0 <= k < |draws| ensures !Hits(b, draws[k]) {
      var d := draws[k];
      assert !(b[d.row][d.col] == 0);
    }
  }

  /** A full board without a 2048 whose only equal neighbours are vertical continues. */
  lemma VerticalOnlyBoardContinues(b: Board)
    requires !HasEmpty(b) && !HasTile(b, WinningTile)
    requires !HasHorizontalPair(b) && HasVerticalPair(b)
    ensures GameOver(b) == Continue
  {
    var o := GameOver(b);
    assert o != Win && o != Loss;
  }

  /** The same for every full board whose only equal neighbours are vertical. */
  lemma LeftOnVerticalOnlyBoard(g: Game, draws: seq<Draw>)
    requires !HasEmpty(g.board) && !HasTile(g.board, WinningTile)
    requires !HasHorizontalPair(g.board) && HasVerticalPair(g.board)
    ensures GameOver(g.board) == Continue
    ensures Shift(g, Left) == g
    ensures !SomeHit(Shift(g, Left).board, draws)
  {
    VerticalOnlyBoardContinues(g.board);
    SlideFixesStuckBoard(g);
    FullBoardNeverHit(g.board, draws);
  }

  /** Pressing a key on a lost board never completes either. */
  lemma StepAfterLossNeverSpawns(g: Game, d: Direction, draws: seq<Draw>)
    requires GameOver(g.board) == Loss
    ensures !SomeHit(Shift(g, d).board, draws)
  {
    LossLeavesGameUnchanged(g, d);
    FullBoardNeverHit(g.board, draws);
  }

  /** A slide that gives the board back scored nothing either. */
  lemma UnmovedSlideScoresNothing(g: Game)
    requires Slide(g).board == g.board
    ensures Slide(g) == g
  {
    var b := g.board;
    var c := Combine(Game(Stack(b), g.score));
    forall i | 0 <= i < Size ensures CombineRow(StackRow(b[i])) == Merged(StackRow(b[i]), 0) {
      assert Stack(c.board)[i] == StackRow(CombineRow(StackRow(b[i])).row);
      UnmovedRowScoresNothing(b[i]);
    }
    assert CombineGain(Stack(b)) == 0;
  }

  /** A move that leaves the board as it is leaves the score as it is too. */
  lemma UnmovedShiftKeepsGame(g: Game, d: Direction)
    ensures Shift(g, d).board == g.board ==> Shift(g, d) == g
  {
    var b := g.board;
    if Shift(g, d).board == b {
      match d
      case Left =>
        UnmovedSlideScoresNothing(g);
      case Right =>
        var s := Slide(Game(Reverse(b), g.score));
        ReverseInvolutive(s.board);
        UnmovedSlideScoresNothing(Game(Reverse(b), g.score));
      case Up =>
        var s := Slide(Game(Transpose(b), g.score));
        TransposeInvolutive(s.board);
        UnmovedSlideScoresNothing(Game(Transpose(b), g.score));
      case Down =>
        var s := Slide(Game(Reverse(Transpose(b)), g.score));
        TransposeInvolutive(Reverse(s.board));
        ReverseInvolutive(s.board);
        UnmovedSlideScoresNothing(Game(Reverse(Transpose(b)), g.score));
    }
  }

  /** A move that changed the board has left an empty cell for the new tile. */
  lemma MovedBoardHasEmptyCell(g: Game, d: Direction)
    ensures Shift(g, d).board != g.board ==> HasEmpty(Shift(g, d).board)
  {
    if !HasEmpty(Shift(g, d).board) {
      FullShiftIsIdentity(g, d);
    }
  }

  /**
   * A key press that adds a tile only when the move changed the board, as
   * the game intends: a move that changes nothing leaves the game as it is
   * and the retry loop is never entered.
   */
  function StepIfMoved(g: Game, d: Direction, draws: seq<Draw>, v: TileValue): (t: Turn)
    requires Shift(g, d).board != g.board ==> SomeHit(Shift(g, d).board, draws)
    ensures Shift(g, d).board == g.board ==> t.game == g
    ensures Shift(g, d).board != g.board ==> t == Step(g, d, draws, v)
    ensures t.game.score >= g.score
    ensures BoardSum(t.game.board) == BoardSum(g.board) + (if Shift(g, d).board == g.board then 0 else v)
    ensures t.outcome == GameOver(t.game.board)
  {
    UnmovedShiftKeepsGame(g, d);
    var h := Shift(g, d);
    if h.board == g.board then Turn(h, GameOver(h.board))
    else Step(g, d, draws, v)
  }

  /**
   * The spawn of `StepIfMoved` can always finish: whenever it is entered,
   * some draw lands on an empty cell.
   */
  lemma StepIfMovedCanFinish(g: Game, d: Direction)
    requires Shift(g, d).board != g.board
    ensures exists x: Draw :: SomeHit(Shift(g, d).board, [x])
  {
    MovedBoardHasEmptyCell(g, d);
    SpawnNeedsEmptyCell(Shift(g, d).board);
  }

  lemma StepIfMovedPreservesPowers(g: Game, d: Direction, draws: seq<Draw>, v: TileValue)
    requires Shift(g, d).board != g.board ==> SomeHit(Shift(g, d).board, draws)
    requires TilesArePowersOfTwo(g.board)
    ensures TilesArePowersOfTwo(StepIfMoved(g, d, draws, v).game.board)
  {
    ShiftPreservesPowers(g, d);
    if Shift(g, d).board != g.board {
      StepPreservesPowers(g, d, draws, v);
    }
  }

  // ------------------------------------------------------------- new game

  /** The empty board holds sixteen zeros and no 2. */
  lemma EmptyBoardCells()
    ensures Cells(EmptyBoard)[0] == Size * Size && Cells(EmptyBoard)[2] == 0
  {
    var z := EmptyBoard[0];
    assert EmptyBoard == [z, z, z, z];
    Count4(z, 0);
    Count4(z, 2);
  }

  /**
   * `start_game`: two tiles of value 2 placed by the retry loop on an empty
   * board, and a score of 0.
   */
  function StartGame(first: seq<Draw>, second: seq<Draw>): (g: Game)
    requires SomeHit(EmptyBoard, first)
    requires SomeHit(AddNewTile(EmptyBoard, first, 2), second)
    ensures g.score == 0
    ensures Cells(g.board)[2] == 2 && Cells(g.board)[0] == Size * Size - 2
  {
    EmptyBoardCells();
    var once := AddNewTile(EmptyBoard, first, 2);
    Game(AddNewTile(once, second, 2), 0)
  }
}
