/** Removal of dark bins from a square contact matrix
    (`remove_dark_bins` in utilities/process_hic_files.py). The keep mask and
    the two boolean selections follow numpy's indexing rules. */
module DarkBins {
  import opened Wrappers
  import opened Matrices

  /** numpy accepts an integer index d into an axis of length n iff -n <= d < n. */
  predicate ValidIndex(d: int, n: nat) {
    -(n as int) <= d < n
  }

  /** Every dark-bin index is accepted by numpy for an axis of length n. */
  predicate AllValid(dark: seq<int>, n: nat) {
    forall d :: d in dark ==> ValidIndex(d, n)
  }

  /** The position an accepted index designates: negative indices count from the end. */
  function Wrap(d: int, n: nat): (p: nat)
    requires ValidIndex(d, n)
    ensures p < n
    ensures p % n == d % n
  {
    if d < 0 then d + n else d
  }

  /** The set of positions the dark-bin indices clear. */
  function DarkPositions(dark: seq<int>, n: nat): set<nat> {
    set d | d in dark && ValidIndex(d, n) :: Wrap(d, n)
  }

  /** The mask `np.ones(n, dtype=bool)`. */
  function AllTrue(n: nat): (mask: seq<bool>)
    ensures |mask| == n
    ensures forall p :: 0 <= p < n ==> mask[p]
  {
    seq(n, _ => true)
  }

  /** `mask[dark_bins] = False`: each index clears its wrapped position in turn. */
  function ClearMask(mask: seq<bool>, dark: seq<int>): (r: seq<bool>)
    requires AllValid(dark, |mask|)
    ensures |r| == |mask|
    ensures forall p :: 0 <= p < |mask| ==> (r[p] <==> mask[p] && p !in DarkPositions(dark, |mask|))
    decreases |dark|
  {
    if dark == [] then mask
    else
      var rest := ClearMask(mask[Wrap(dark[0], |mask|) := false], dark[1..]);
      assert forall d :: d in dark <==> d == dark[0] || d in dark[1..];
      rest
  }

  /** The positions a boolean mask selects, in ascending order (numpy's boolean indexing). */
  function Kept(mask: seq<bool>): (keep: seq<nat>)
    ensures forall a :: 0 <= a < |keep| ==> keep[a] < |mask| && mask[keep[a]]
    ensures forall p :: 0 <= p < |mask| && mask[p] ==> p in keep
    ensures forall a, b :: 0 <= a < b < |keep| ==> keep[a] < keep[b]
  {
    if mask == [] then []
    else
      var n := |mask| - 1;
      Kept(mask[..n]) + (if mask[n] then [n] else [])
  }

  /** The positions a mask clears. */
  function Cleared(mask: seq<bool>): set<nat> {
    set p: nat | p < |mask| && !mask[p]
  }

  /** Boolean selection keeps exactly the positions the mask does not clear. */
  lemma {:induction false} KeptCount(mask: seq<bool>)
    ensures |Kept(mask)| == |mask| - |Cleared(mask)|
  {
    if mask != [] {
      var n := |mask| - 1;
      KeptCount(mask[..n]);
      if mask[n] {
        assert Cleared(mask) == Cleared(mask[..n]);
      } else {
        assert Cleared(mask) == Cleared(mask[..n]) + {n};
      }
    }
  }

  /** The ascending positions of the bins that survive the filter. */
  function KeptBins(n: nat, dark: seq<int>): seq<nat>
    requires AllValid(dark, n)
  {
    Kept(ClearMask(AllTrue(n), dark))
  }

  /** The surviving bins are exactly the positions no dark index designates. */
  lemma KeptBinsMembership(n: nat, dark: seq<int>, p: nat)
    requires AllValid(dark, n)
    ensures p in KeptBins(n, dark) <==> p < n && p !in DarkPositions(dark, n)
  {
    var mask := ClearMask(AllTrue(n), dark);
    if p < n && p !in DarkPositions(dark, n) {
      assert mask[p];
    }
  }

  /** The surviving bins are in ascending order, and there are n minus the
      number of distinct dark positions of them. */
  lemma KeptBinsCount(n: nat, dark: seq<int>)
    requires AllValid(dark, n)
    ensures forall a, b :: 0 <= a < b < |KeptBins(n, dark)| ==> KeptBins(n, dark)[a] < KeptBins(n, dark)[b]
    ensures |KeptBins(n, dark)| == n - |DarkPositions(dark, n)|
  {
    var mask := ClearMask(AllTrue(n), dark);
    KeptCount(mask);
    forall p | p in DarkPositions(dark, n)
      ensures p in Cleared(mask)
    {
      var d :| d in dark && ValidIndex(d, n) && Wrap(d, n) == p;
    }
    forall p | p in Cleared(mask)
      ensures p in DarkPositions(dark, n)
    {
      assert !mask[p];
    }
    assert Cleared(mask) == DarkPositions(dark, n);
  }

  /** A mask that clears every position selects nothing. */
  lemma {:induction false} KeptNoneWhenAllCleared(mask: seq<bool>)
    requires forall p :: 0 <= p < |mask| ==> !mask[p]
    ensures Kept(mask) == []
  {
    if mask != [] {
      KeptNoneWhenAllCleared(mask[..|mask| - 1]);
    }
  }

  /** `matrix[mask]`: the rows the mask selects, every column kept. */
  function RowsWhere<T>(m: Matrix<T>, mask: seq<bool>): (r: Matrix<T>)
    requires |mask| == |m.rows|
    ensures r.cols == m.cols && |r.rows| == |Kept(mask)|
    ensures forall a :: 0 <= a < |r.rows| ==> r.rows[a] == m.rows[Kept(mask)[a]]
  {
    var keep := Kept(mask);
    Array2(m.cols, seq(|keep|, a requires 0 <= a < |keep| => m.rows[keep[a]]))
  }

  /** `matrix[:, mask]`: the columns the mask selects; numpy raises an
      IndexError when the mask length differs from the column count. */
  function ColumnsWhere<T>(m: Matrix<T>, mask: seq<bool>): (r: Option<Matrix<T>>)
    ensures r.Some? <==> m.cols == |mask|
    ensures r.Some? ==> |r.value.rows| == |m.rows| && r.value.cols == |Kept(mask)|
    ensures r.Some? ==> forall a, b :: 0 <= a < |m.rows| && 0 <= b < |Kept(mask)| ==>
      r.value.rows[a][b] == m.rows[a][Kept(mask)[b]]
  {
    if m.cols != |mask| then None
    else
      var keep := Kept(mask);
      Some(Array2(|keep|, seq(|m.rows|, a requires 0 <= a < |m.rows| =>
        seq(|keep|, b requires 0 <= b < |keep| => m.rows[a][keep[b]]))))
  }

  /** `remove_dark_bins`: any rejected index or a non-square matrix gives None;
      otherwise the kept rows crossed with the kept columns. */
  function RemoveDarkBins<T>(m: Matrix<T>, dark: seq<int>): (r: Option<Matrix<T>>)
    ensures r.Some? <==> AllValid(dark, |m.rows|) && m.Square()
    ensures r.Some? ==>
      var keep := KeptBins(|m.rows|, dark);
      && r.value.Square() && |r.value.rows| == |keep|
      && forall a, b :: 0 <= a < |keep| && 0 <= b < |keep| ==>
           r.value.rows[a][b] == m.rows[keep[a]][keep[b]]
  {
    var n := |m.rows|;
    if !AllValid(dark, n) then None
    else
      var mask := ClearMask(AllTrue(n), dark);
      ColumnsWhere(RowsWhere(m, mask), mask)
  }

  /** Dimension law: an n x n matrix loses one row and one column per distinct dark position. */
  lemma FilteredDimension<T>(m: Matrix<T>, dark: seq<int>)
    requires AllValid(dark, |m.rows|) && m.Square()
    ensures RemoveDarkBins(m, dark).Some?
    ensures |RemoveDarkBins(m, dark).value.rows| == |m.rows| - |DarkPositions(dark, |m.rows|)|
  {
    KeptBinsCount(|m.rows|, dark);
  }

  /** With no dark bin every position survives, in order. */
  lemma {:induction false} KeptAllTrue(n: nat)
    ensures Kept(AllTrue(n)) == seq(n, p => p)
  {
    if n > 0 {
      assert AllTrue(n)[..n - 1] == AllTrue(n - 1);
      KeptAllTrue(n - 1);
    }
  }

  /** An empty dark-bin list returns a square input unchanged. */
  lemma NoDarkBinsIsIdentity<T>(m: Matrix<T>)
    requires m.Square()
    ensures RemoveDarkBins(m, []) == Some(m)
  {
    var n := |m.rows|;
    assert ClearMask(AllTrue(n), []) == AllTrue(n);
    KeptAllTrue(n);
    var r := RemoveDarkBins(m, []).value;
    assert forall a :: 0 <= a < n ==> r.rows[a] == m.rows[a];
    assert r.rows == m.rows;
  }

  /** Filtering an already filtered matrix with no dark bins changes nothing. */
  lemma FilterIdempotent<T>(m: Matrix<T>, dark: seq<int>)
    requires RemoveDarkBins(m, dark).Some?
    ensures RemoveDarkBins(RemoveDarkBins(m, dark).value, []) == RemoveDarkBins(m, dark)
  {
    NoDarkBinsIsIdentity(RemoveDarkBins(m, dark).value);
  }

  /** Only the set of dark indices matters: duplicates and reordering give the same result. */
  lemma DarkBinsAsSet<T>(m: Matrix<T>, dark1: seq<int>, dark2: seq<int>)
    requires forall d :: d in dark1 <==> d in dark2
    ensures RemoveDarkBins(m, dark1) == RemoveDarkBins(m, dark2)
  {
    var n := |m.rows|;
    if AllValid(dark1, n) {
      var mask1 := ClearMask(AllTrue(n), dark1);
      var mask2 := ClearMask(AllTrue(n), dark2);
      assert DarkPositions(dark1, n) == DarkPositions(dark2, n);
      assert mask1 == mask2;
    }
  }

  /** When every bin is dark the result is the empty 0 x 0 matrix. */
  lemma AllDarkGivesEmpty<T>(m: Matrix<T>, dark: seq<int>)
    requires AllValid(dark, |m.rows|) && m.Square()
    requires forall p :: 0 <= p < |m.rows| ==> p in DarkPositions(dark, |m.rows|)
    ensures RemoveDarkBins(m, dark) == Some(Array2(0, []))
  {
    KeptNoneWhenAllCleared(ClearMask(AllTrue(|m.rows|), dark));
  }
}
