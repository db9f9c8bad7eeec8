/**
 * Row primitives of the 2048 move engine: compaction ("stack"), the
 * left-to-right merge scan ("combine") and mirroring ("reverse").
 *
 * A row is a sequence of naturals in which 0 is an empty cell. The game only
 * uses rows of width 4, but nothing in this module depends on the width.
 */
module Rows {

  // ------------------------------------------------------------------ basics

  /** The total of the values in a row. */
  function Sum(r: seq<nat>): nat
  {
    if |r| == 0 then 0 else Sum(r[..|r| - 1]) + r[|r| - 1]
  }

  /** A row of `n` empty cells. */
  function Zeros(n: nat): (z: seq<nat>)
    ensures |z| == n
    ensures forall k :: 0 <= k < n ==> z[k] == 0
  {
    seq(n, _ => 0)
  }

  /** Every cell of the row is occupied. */
  predicate Full(r: seq<nat>)
  {
    forall k :: 0 <= k < |r| ==> r[k] != 0
  }

  /** No empty cell comes before an occupied one. */
  predicate Compacted(r: seq<nat>)
  {
    forall i, j :: 0 <= i < j < |r| && r[i] == 0 ==> r[j] == 0
  }

  /** The occupied cells of a row, in their order in the row. */
  function NonZeros(r: seq<nat>): (nz: seq<nat>)
    ensures |nz| <= |r|
    ensures Full(nz)
    ensures forall x :: x in nz ==> x in r
  {
    if |r| == 0 then []
    else if r[|r| - 1] == 0 then NonZeros(r[..|r| - 1])
    else NonZeros(r[..|r| - 1]) + [r[|r| - 1]]
  }

  /** A tile value 1, 2, 4, 8, ... */
  predicate IsPowerOfTwo(n: nat)
    decreases n
  {
    n == 1 || (n >= 2 && n % 2 == 0 && IsPowerOfTwo(n / 2))
  }

  /** Every occupied cell holds a power of two. */
  predicate PowersOfTwo(r: seq<nat>)
  {
    forall k :: 0 <= k < |r| ==> r[k] == 0 || IsPowerOfTwo(r[k])
  }

  // ------------------------------------------------------------ sum lemmas

  lemma SumStep(r: seq<nat>, j: nat)
    requires j < |r|
    ensures Sum(r[..j + 1]) == Sum(r[..j]) + r[j]
  {
    assert r[..j + 1][..j] == r[..j];
  }

  lemma {:induction false} SumAppend(a: seq<nat>, b: seq<nat>)
    ensures Sum(a + b) == Sum(a) + Sum(b)
    decreases |b|
  {
    if |b| == 0 {
      assert a + b == a;
    } else {
      assert (a + b)[..|a + b| - 1] == a + b[..|b| - 1];
      SumAppend(a, b[..|b| - 1]);
    }
  }

  lemma {:induction false} SumZeros(n: nat)
    ensures Sum(Zeros(n)) == 0
  {
    if n > 0 {
      assert Zeros(n)[..n - 1] == Zeros(n - 1);
      SumZeros(n - 1);
    }
  }

  /** Overwriting one cell changes the total by the difference. */
  lemma SumUpdate(r: seq<nat>, j: nat, v: nat)
    requires j < |r|
    ensures Sum(r[j := v]) + r[j] == Sum(r) + v
  {
    assert r == r[..j] + [r[j]] + r[j + 1..];
    assert r[j := v] == r[..j] + [v] + r[j + 1..];
    SumAppend(r[..j] + [r[j]], r[j + 1..]);
    SumAppend(r[..j] + [v], r[j + 1..]);
    SumAppend(r[..j], [r[j]]);
    SumAppend(r[..j], [v]);
    assert [r[j]][..0] == [];
    assert [v][..0] == [];
  }

  /** A row of width 4 totals its four cells. */
  lemma Sum4(r: seq<nat>)
    requires |r| == 4
    ensures Sum(r) == r[0] + r[1] + r[2] + r[3]
  {
    assert r[..4] == r;
    SumStep(r, 3);
    SumStep(r, 2);
    SumStep(r, 1);
    SumStep(r, 0);
  }

  // -------------------------------------------------------- non-zero lemmas

  lemma {:induction false} NonZerosOfFull(r: seq<nat>)
    requires Full(r)
    ensures NonZeros(r) == r
  {
    if |r| > 0 {
      assert Full(r[..|r| - 1]);
      NonZerosOfFull(r[..|r| - 1]);
      assert r[..|r| - 1] + [r[|r| - 1]] == r;
    }
  }

  /** A row with as many non-zero values as cells is full. */
  lemma {:induction false} NonZerosAllCells(r: seq<nat>)
    requires |NonZeros(r)| == |r|
    ensures NonZeros(r) == r
  {
    if |r| > 0 {
      var init := r[..|r| - 1];
      assert r[|r| - 1] == 0 ==> |NonZeros(r)| == |NonZeros(init)| < |r|;
      NonZerosAllCells(init);
      assert init + [r[|r| - 1]] == r;
    }
  }

  lemma {:induction false} NonZerosThenZeros(nz: seq<nat>, n: nat)
    requires Full(nz)
    ensures NonZeros(nz + Zeros(n)) == nz
  {
    if n == 0 {
      assert nz + Zeros(0) == nz;
      NonZerosOfFull(nz);
    } else {
      var s := nz + Zeros(n);
      assert s[..|s| - 1] == nz + Zeros(n - 1);
      NonZerosThenZeros(nz, n - 1);
    }
  }

  lemma {:induction false} SumNonZeros(r: seq<nat>)
    ensures Sum(NonZeros(r)) == Sum(r)
  {
    if |r| > 0 {
      var init := r[..|r| - 1];
      SumNonZeros(init);
      if r[|r| - 1] != 0 {
        SumAppend(NonZeros(init), [r[|r| - 1]]);
        assert [r[|r| - 1]][..0] == [];
      }
    }
  }

  // ------------------------------------------------------------------ stack

  /**
   * Compaction of one row: the occupied cells slide to the left edge,
   * keeping their order, and the rest of the row is empty.
   */
  function StackRow(r: seq<nat>): (s: seq<nat>)
    ensures |s| == |r|
    ensures Compacted(s)
    ensures NonZeros(s) == NonZeros(r)
  {
    var nz := NonZeros(r);
    NonZerosThenZeros(nz, |r| - |nz|);
    nz + Zeros(|r| - |nz|)
  }

  /** The fill-position loop of the source computes `StackRow`. */
  method StackRowScan(r: seq<nat>) returns (s: seq<nat>)
    ensures s == StackRow(r)
  {
    s := Zeros(|r|);
    var fill := 0;
    for j := 0 to |r|
      invariant fill == |NonZeros(r[..j])| <= j
      invariant s == NonZeros(r[..j]) + Zeros(|r| - fill)
    {
      assert r[..j + 1][..j] == r[..j];
      if r[j] != 0 {
        s := s[fill := r[j]];
        fill := fill + 1;
        assert s == NonZeros(r[..j + 1]) + Zeros(|r| - fill);
      }
    }
    assert r[..|r|] == r;
  }

  lemma StackRowPreservesSum(r: seq<nat>)
    ensures Sum(StackRow(r)) == Sum(r)
  {
    var nz := NonZeros(r);
    var z := Zeros(|r| - |nz|);
    assert StackRow(r) == nz + z;
    SumAppend(nz, z);
    SumZeros(|r| - |nz|);
    SumNonZeros(r);
  }

  /** A row that is already compacted is left as it is. */
  lemma {:induction false} StackRowFixesCompacted(r: seq<nat>)
    requires Compacted(r)
    ensures StackRow(r) == r
  {
    if Full(r) {
      NonZerosOfFull(r);
      assert r + Zeros(0) == r;
    } else if |r| > 0 {
      var init := r[..|r| - 1];
      assert r[|r| - 1] == 0;
      StackRowFixesCompacted(init);
      var nz := NonZeros(init);
      assert init == nz + Zeros(|init| - |nz|);
      assert r == init + [0];
      assert StackRow(r) == nz + Zeros(|init| - |nz|) + [0];
    }
  }

  lemma StackRowIdempotent(r: seq<nat>)
    ensures StackRow(StackRow(r)) == StackRow(r)
  {
    StackRowFixesCompacted(StackRow(r));
  }

  /** If compaction leaves no empty cell, the row had none and is unchanged. */
  lemma FullStackedRow(r: seq<nat>)
    requires Full(StackRow(r))
    ensures StackRow(r) == r
  {
    var nz := NonZeros(r);
    if |r| > 0 {
      var last := StackRow(r)[|r| - 1];
      assert last != 0;
      assert |nz| == |r|;
    }
    NonZerosAllCells(r);
    assert r + Zeros(0) == r;
  }

  lemma StackRowPreservesPowers(r: seq<nat>)
    requires PowersOfTwo(r)
    ensures PowersOfTwo(StackRow(r))
  {
    var s := StackRow(r);
    var nz := NonZeros(r);
    forall k | 0 <= k < |s| && s[k] != 0
      ensures IsPowerOfTwo(s[k])
    {
      assert k < |nz| && s[k] == nz[k];
      assert nz[k] in r;
    }
  }

  // ---------------------------------------------------------------- combine

  /**
   * Whether the left-to-right scan merges cell `k` into its right neighbour:
   * the two cells hold the same non-zero value and cell `k` was not emptied
   * as the right half of a merge at `k - 1`.
   */
  predicate MergeAt(r: seq<nat>, k: nat)
    decreases k
  {
    k + 1 < |r| && r[k] != 0 && r[k] == r[k + 1] && !(k > 0 && MergeAt(r, k - 1))
  }

  /** The value cell `k` holds once the scan is over. */
  function MergedCell(r: seq<nat>, k: nat): nat
    requires k < |r|
  {
    if MergeAt(r, k) then 2 * r[k]
    else if k > 0 && MergeAt(r, k - 1) then 0
    else r[k]
  }

  /** The doubled values the merges at positions `j` and after produce. */
  function MergeGain(r: seq<nat>, j: nat): nat
    decreases |r| - j
  {
    if j >= |r| then 0
    else (if MergeAt(r, j) then 2 * r[j] else 0) + MergeGain(r, j + 1)
  }

  /** A combined row and the score the combination earns. */
  datatype Merged = Merged(row: seq<nat>, gain: nat)

  /**
   * One combine pass over a row: every merge doubles its left cell and
   * empties its right cell, and earns the doubled value.
   */
  function CombineRow(r: seq<nat>): (m: Merged)
    ensures |m.row| == |r|
    ensures forall k :: 0 <= k < |r| ==> m.row[k] in {0, r[k], 2 * r[k]}
  {
    Merged(seq(|r|, k requires 0 <= k < |r| => MergedCell(r, k)), MergeGain(r, 0))
  }

  /**
   * The in-place loop of the source: it doubles the left cell of every
   * equal non-zero pair, empties the right one and adds the doubled value
   * to the score; the result is `CombineRow`.
   */
  method CombineRowScan(r: seq<nat>) returns (t: seq<nat>, gain: nat)
    ensures Merged(t, gain) == CombineRow(r)
  {
    t := r;
    gain := 0;
    var last := if |r| == 0 then 0 else |r| - 1;
    for j := 0 to last
      invariant |t| == |r|
      invariant forall k :: 0 <= k < j ==> t[k] == MergedCell(r, k)
      invariant j < |r| ==> t[j] == (if j > 0 && MergeAt(r, j - 1) then 0 else r[j])
      invariant forall k :: j < k < |r| ==> t[k] == r[k]
      invariant gain + MergeGain(r, j) == MergeGain(r, 0)
    {
      if t[j] != 0 && t[j] == t[j + 1] {
        t := t[j := 2 * t[j]][j + 1 := 0];
        gain := gain + t[j];
      }
    }
    if |r| > 0 {
      assert MergeGain(r, last + 1) == 0;
    }
    assert t == CombineRow(r).row;
  }

  lemma {:induction false} CombinePrefixSum(r: seq<nat>, j: nat)
    requires j <= |r|
    ensures j > 0 && MergeAt(r, j - 1) ==> j < |r|
    ensures Sum(CombineRow(r).row[..j])
         == Sum(r[..j]) + (if j > 0 && MergeAt(r, j - 1) then r[j] else 0)
  {
    var t := CombineRow(r).row;
    if j > 0 {
      CombinePrefixSum(r, j - 1);
      SumStep(t, j - 1);
      SumStep(r, j - 1);
    }
  }

  /** Combining keeps the row's total: x + x is replaced by 2x and 0. */
  lemma CombineRowPreservesSum(r: seq<nat>)
    ensures Sum(CombineRow(r).row) == Sum(r)
  {
    CombinePrefixSum(r, |r|);
    assert CombineRow(r).row[..|r|] == CombineRow(r).row;
    assert r[..|r|] == r;
  }

  /**
   * Each cell takes part in at most one merge: the right cell of a merge
   * ends empty and does not start another merge.
   */
  lemma MergeEmptiesRightCell(r: seq<nat>, k: nat)
    requires MergeAt(r, k)
    ensures k + 1 < |r| && !MergeAt(r, k + 1)
    ensures CombineRow(r).row[k] == 2 * r[k] && CombineRow(r).row[k + 1] == 0
  {
  }

  lemma {:induction false} NoMergeNoGain(r: seq<nat>, j: nat)
    requires forall k :: !MergeAt(r, k)
    ensures MergeGain(r, j) == 0
    decreases |r| - j
  {
    if j < |r| {
      NoMergeNoGain(r, j + 1);
    }
  }

  /** A pass that finds no pair changes nothing and earns nothing. */
  lemma NoMergeKeepsRow(r: seq<nat>)
    requires forall k :: !MergeAt(r, k)
    ensures CombineRow(r) == Merged(r, 0)
  {
    NoMergeNoGain(r, 0);
  }

  /** A full row with no equal neighbours is left as it is. */
  lemma StuckRowUnchanged(r: seq<nat>)
    requires Full(r)
    requires forall k :: 0 <= k < |r| - 1 ==> r[k] != r[k + 1]
    ensures StackRow(r) == r
    ensures CombineRow(r) == Merged(r, 0)
  {
    NonZerosOfFull(r);
    assert r + Zeros(0) == r;
    NoMergeKeepsRow(r);
  }

  /** If the pass leaves no empty cell, no merge happened. */
  lemma FullCombinedRow(r: seq<nat>)
    requires Full(CombineRow(r).row)
    ensures CombineRow(r) == Merged(r, 0)
  {
    forall k ensures !MergeAt(r, k) {
      if MergeAt(r, k) {
        MergeEmptiesRightCell(r, k);
        assert false;
      }
    }
    NoMergeKeepsRow(r);
  }

  /**
   * A row that keeps every occupied cell of `r` in place (and may empty
   * some) has no more occupied cells than `r`, and strictly fewer when it
   * empties one.
   */
  lemma {:induction false} FewerNonZeros(r: seq<nat>, t: seq<nat>)
    requires |t| == |r|
    requires forall k :: 0 <= k < |t| && t[k] != 0 ==> r[k] != 0
    ensures |NonZeros(t)| <= |NonZeros(r)|
    ensures (exists k :: 0 <= k < |t| && t[k] == 0 && r[k] != 0) ==> |NonZeros(t)| < |NonZeros(r)|
    decreases |r|
  {
    if |r| > 0 {
      var n := |r| - 1;
      FewerNonZeros(r[..n], t[..n]);
      if k :| 0 <= k < |t| && t[k] == 0 && r[k] != 0 {
        if k < n {
          assert t[..n][k] == 0 && r[..n][k] != 0;
        }
      }
    }
  }

  /**
   * If stack, combine, stack gives the row back, no merge happened and the
   * pass scored nothing: every merge empties a cell, and stacking keeps the
   * number of occupied cells.
   */
  lemma UnmovedRowScoresNothing(r: seq<nat>)
    requires StackRow(CombineRow(StackRow(r)).row) == r
    ensures CombineRow(StackRow(r)) == Merged(StackRow(r), 0)
  {
    var s := StackRow(r);
    var c := CombineRow(s).row;
    assert NonZeros(c) == NonZeros(r) == NonZeros(s);
    FewerNonZeros(s, c);
    forall k ensures !MergeAt(s, k) {
      if MergeAt(s, k) {
        MergeEmptiesRightCell(s, k);
        assert false;
      }
    }
    NoMergeKeepsRow(s);
  }

  lemma DoubleIsPowerOfTwo(n: nat)
    requires IsPowerOfTwo(n)
    ensures IsPowerOfTwo(2 * n)
  {
    assert (2 * n) / 2 == n;
  }

  lemma CombineRowPreservesPowers(r: seq<nat>)
    requires PowersOfTwo(r)
    ensures PowersOfTwo(CombineRow(r).row)
  {
    var t := CombineRow(r).row;
    forall k | 0 <= k < |t| && t[k] != 0
      ensures IsPowerOfTwo(t[k])
    {
      if t[k] == 2 * r[k] && t[k] != r[k] {
        DoubleIsPowerOfTwo(r[k]);
      }
    }
  }

  /** A row of four equal tiles merges in two pairs, not into one tile. */
  lemma CombineFourEqual()
    ensures CombineRow([2, 2, 2, 2]) == Merged([4, 0, 4, 0], 8)
  {
    var r := [2, 2, 2, 2];
    assert MergeAt(r, 0) && !MergeAt(r, 1) && MergeAt(r, 2) && !MergeAt(r, 3);
    assert MergeGain(r, 0) == 8;
  }

  /** The occupied cells of a row with one more cell at its end. */
  lemma NonZerosSnoc(r: seq<nat>, x: nat)
    ensures NonZeros(r + [x]) == if x == 0 then NonZeros(r) else NonZeros(r) + [x]
  {
    assert (r + [x])[..|r|] == r;
  }

  lemma StackTwoGaps()
    ensures StackRow([4, 0, 4, 0]) == [4, 4, 0, 0]
  {
    NonZerosSnoc([], 4);
    assert [] + [4] == [4];
    NonZerosSnoc([4], 0);
    assert [4] + [0] == [4, 0];
    NonZerosSnoc([4, 0], 4);
    assert [4, 0] + [4] == [4, 0, 4];
    NonZerosSnoc([4, 0, 4], 0);
    assert [4, 0, 4] + [0] == [4, 0, 4, 0];
    assert NonZeros([4, 0, 4, 0]) == [4, 4];
    assert Zeros(2) == [0, 0];
  }

  /** [2, 2, 4, 0] moved left gives [4, 4, 0, 0] and scores 4, not [8, 0, 0, 0]. */
  lemma SlideMergesOnce()
    ensures var m := CombineRow(StackRow([2, 2, 4, 0]));
            StackRow(m.row) == [4, 4, 0, 0] && m.gain == 4
  {
    var r := [2, 2, 4, 0];
    StackRowFixesCompacted(r);
    assert MergeAt(r, 0) && !MergeAt(r, 1) && !MergeAt(r, 2) && !MergeAt(r, 3);
    assert MergeGain(r, 0) == 4;
    assert CombineRow(r).row == [4, 0, 4, 0];
    StackTwoGaps();
  }

  // ---------------------------------------------------------------- reverse

  /** The row read from right to left. */
  function ReverseRow(r: seq<nat>): (v: seq<nat>)
    ensures |v| == |r|
  {
    seq(|r|, k requires 0 <= k < |r| => r[|r| - 1 - k])
  }

  lemma ReverseRowInvolutive(r: seq<nat>)
    ensures ReverseRow(ReverseRow(r)) == r
  {
  }

  lemma ReverseRowCons(r: seq<nat>)
    requires |r| > 0
    ensures ReverseRow(r) == [r[|r| - 1]] + ReverseRow(r[..|r| - 1])
  {
  }

  /** Mirroring moves cells around but keeps the same values. */
  lemma {:induction false} ReverseRowPermutes(r: seq<nat>)
    ensures multiset(ReverseRow(r)) == multiset(r)
  {
    if |r| > 0 {
      var init := r[..|r| - 1];
      ReverseRowCons(r);
      ReverseRowPermutes(init);
      assert r == init + [r[|r| - 1]];
    }
  }

  lemma {:induction false} ReverseRowPreservesSum(r: seq<nat>)
    ensures Sum(ReverseRow(r)) == Sum(r)
  {
    if |r| > 0 {
      var init := r[..|r| - 1];
      ReverseRowCons(r);
      ReverseRowPreservesSum(init);
      SumAppend([r[|r| - 1]], ReverseRow(init));
      assert [r[|r| - 1]][..0] == [];
    }
  }
}
