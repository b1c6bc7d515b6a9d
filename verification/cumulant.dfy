/** The normalised third joint central moment of matrix rows
    (`compute_degree_2_cumulant` in utilities/process_hic_files.py), over
    exact reals. The square root is a parameter: the lemmas assume only the
    properties stated by SqrtLike. */
module Cumulant {
  import opened Matrices

  /** Sum of a vector (`np.sum`). */
  function Sum(xs: seq<real>): real {
    if xs == [] then 0.0 else xs[0] + Sum(xs[1..])
  }

  /** Row mean (`np.mean(matrix, axis=1)`). numpy yields NaN for a row with
      no columns; such a row has no centred values, so the value chosen here is never used. */
  function Mean(row: seq<real>): real {
    if |row| == 0 then 0.0 else Sum(row) / (|row| as real)
  }

  /** Every entry of a vector less a constant. */
  function Minus(xs: seq<real>, c: real): (r: seq<real>)
    ensures |r| == |xs|
  {
    seq(|xs|, t requires 0 <= t < |xs| => xs[t] - c)
  }

  /** A row less its mean (`matrix[i] - mean_vec[i]`). */
  function Centred(row: seq<real>): (c: seq<real>)
    ensures |c| == |row|
  {
    Minus(row, Mean(row))
  }

  /** `a * b`, kept behind a name so that products stay uninterpreted
      unless a lemma below is called. */
  function Mul(a: real, b: real): real {
    a * b
  }

  /** The product of two positive reals is positive. */
  lemma MulPositive(a: real, b: real)
    requires a > 0.0 && b > 0.0
    ensures Mul(a, b) > 0.0
  {
  }

  /** A square is never negative, and is zero only at zero. */
  lemma SquareSign(x: real)
    ensures Mul(x, x) >= 0.0
    ensures Mul(x, x) == 0.0 <==> x == 0.0
  {
    if x > 0.0 {
      MulPositive(x, x);
    } else if x < 0.0 {
      MulPositive(-x, -x);
      assert Mul(-x, -x) == Mul(x, x);
    }
  }

  /** Cancelling a positive factor. */
  lemma MulDivCancel(n: real, v: real)
    requires n > 0.0
    ensures Mul(n, v) / n == v
  {
    var q := Mul(n, v) / n;
    assert q * n == n * v;
    assert n * (q - v) == 0.0;
  }

  /** The square of a real (`x**2`): never negative, and zero only at zero. */
  function Square(x: real): (r: real)
    ensures r >= 0.0
    ensures r == 0.0 <==> x == 0.0
  {
    SquareSign(x);
    Mul(x, x)
  }

  /** Sum of squares (`np.sum(x**2)`); never negative. */
  function SumOfSquares(xs: seq<real>): (r: real)
    ensures r >= 0.0
  {
    if xs == [] then 0.0 else Square(xs[0]) + SumOfSquares(xs[1..])
  }

  /** Sum of the elementwise product of three vectors (`np.sum(a * b * c)`). */
  function TripleProductSum(a: seq<real>, b: seq<real>, c: seq<real>): real
    requires |a| == |b| == |c|
  {
    if a == [] then 0.0 else a[0] * b[0] * c[0] + TripleProductSum(a[1..], b[1..], c[1..])
  }

  /** What the model assumes of `np.sqrt` on the non-negative reals. */
  ghost predicate SqrtLike(sqrt: real -> real) {
    forall x :: x >= 0.0 ==> sqrt(x) >= 0.0 && (sqrt(x) == 0.0 <==> x == 0.0)
  }

  /** All entries of a row are equal. */
  predicate Constant(row: seq<real>) {
    forall t :: 0 <= t < |row| ==> row[t] == row[0]
  }

  /** The centred sum of squares of row i. */
  function Spread(m: Matrix<real>, i: nat): real
    requires i < |m.rows|
  {
    SumOfSquares(Centred(m.rows[i]))
  }

  /** The summed product of the centred rows i, j and k. */
  function Numerator(m: Matrix<real>, i: nat, j: nat, k: nat): real
    requires i < |m.rows| && j < |m.rows| && k < |m.rows|
  {
    TripleProductSum(Centred(m.rows[i]), Centred(m.rows[j]), Centred(m.rows[k]))
  }

  /** `a * b * c` */
  function Product3(a: real, b: real, c: real): real {
    a * b * c
  }

  /** The product of the spreads of rows i, j and k. */
  function SpreadProduct(m: Matrix<real>, i: nat, j: nat, k: nat): real
    requires i < |m.rows| && j < |m.rows| && k < |m.rows|
  {
    Product3(Spread(m, i), Spread(m, j), Spread(m, k))
  }

  /** `numerator / denominator if denominator != 0 else 0`. */
  function Guarded(numerator: real, denominator: real): real {
    if denominator != 0.0 then numerator / denominator else 0.0
  }

  /** Entry (i, j, k) of the tensor: the value that, multiplied by the
      denominator, gives the numerator, and 0 when the denominator is 0 or
      the three rows have no joint spread. */
  function Entry(sqrt: real -> real, m: Matrix<real>, i: nat, j: nat, k: nat): (r: real)
    requires i < |m.rows| && j < |m.rows| && k < |m.rows|
    ensures sqrt(SpreadProduct(m, i, j, k)) != 0.0 ==> Mul(r, sqrt(SpreadProduct(m, i, j, k))) == Numerator(m, i, j, k)
    ensures sqrt(SpreadProduct(m, i, j, k)) == 0.0 ==> r == 0.0
    ensures Numerator(m, i, j, k) == 0.0 ==> r == 0.0
  {
    var d := sqrt(SpreadProduct(m, i, j, k));
    if d != 0.0 then DivMulCancel(Numerator(m, i, j, k), d); Guarded(Numerator(m, i, j, k), d)
    else Guarded(Numerator(m, i, j, k), d)
  }

  /** Dividing by a non-zero value and multiplying back gives the dividend. */
  lemma DivMulCancel(n: real, d: real)
    requires d != 0.0
    ensures Mul(n / d, d) == n
  {
  }

  /** The n x n x n cumulant tensor of an n-row matrix; an input with no rows gives the empty tensor. */
  function CumulantTensor(sqrt: real -> real, m: Matrix<real>): (t: Tensor3)
    ensures |t| == |m.rows|
    ensures forall i :: 0 <= i < |t| ==> |t[i]| == |m.rows|
    ensures forall i, j :: 0 <= i < |t| && 0 <= j < |t[i]| ==> |t[i][j]| == |m.rows|
  {
    var n := |m.rows|;
    seq(n, i requires 0 <= i < n =>
      seq(n, j requires 0 <= j < n =>
        seq(n, k requires 0 <= k < n => Entry(sqrt, m, i, j, k))))
  }

  /** Entry (i, j, k) of the tensor is given by the formula. */
  lemma TensorEntry(sqrt: real -> real, m: Matrix<real>, i: nat, j: nat, k: nat)
    requires i < |m.rows| && j < |m.rows| && k < |m.rows|
    ensures CumulantTensor(sqrt, m)[i][j][k] == Entry(sqrt, m, i, j, k)
  {
  }

  /** The centred rows and their spreads, computed once per row. */
  predicate Precomputed(m: Matrix<real>, centred: seq<seq<real>>, spread: seq<real>) {
    && |centred| == |m.rows| && |spread| == |m.rows|
    && forall a :: 0 <= a < |m.rows| ==> centred[a] == Centred(m.rows[a]) && spread[a] == Spread(m, a)
  }

  /** The innermost loop: entries (i, j, 0) .. (i, j, n-1). */
  method ComputeLine(sqrt: real -> real, m: Matrix<real>, centred: seq<seq<real>>, spread: seq<real>, i: nat, j: nat)
    returns (line: seq<real>)
    requires Precomputed(m, centred, spread)
    requires i < |m.rows| && j < |m.rows|
    ensures |line| == |m.rows|
    ensures forall k :: 0 <= k < |line| ==> line[k] == Entry(sqrt, m, i, j, k)
  {
    var n := |m.rows|;
    line := [];
    var k := 0;
    while k < n
      invariant 0 <= k <= n
      invariant |line| == k
      invariant forall c :: 0 <= c < k ==> line[c] == Entry(sqrt, m, i, j, c)
    {
      var numerator := TripleProductSum(centred[i], centred[j], centred[k]);
      var denominator := sqrt(Product3(spread[i], spread[j], spread[k]));
      assert numerator == Numerator(m, i, j, k);
      assert spread[i] == Spread(m, i) && spread[j] == Spread(m, j) && spread[k] == Spread(m, k);
      assert denominator == sqrt(SpreadProduct(m, i, j, k));
      line := line + [Guarded(numerator, denominator)];
      k := k + 1;
    }
  }

  /** The middle loop: entries (i, 0, 0) .. (i, n-1, n-1). */
  method ComputePlane(sqrt: real -> real, m: Matrix<real>, centred: seq<seq<real>>, spread: seq<real>, i: nat)
    returns (plane: seq<seq<real>>)
    requires Precomputed(m, centred, spread)
    requires i < |m.rows|
    ensures |plane| == |m.rows|
    ensures forall j :: 0 <= j < |plane| ==> plane[j] == CumulantTensor(sqrt, m)[i][j]
  {
    var n := |m.rows|;
    plane := [];
    var j := 0;
    while j < n
      invariant 0 <= j <= n
      invariant |plane| == j
      invariant forall b :: 0 <= b < j ==> plane[b] == CumulantTensor(sqrt, m)[i][b]
    {
      var line := ComputeLine(sqrt, m, centred, spread, i, j);
      assert line == CumulantTensor(sqrt, m)[i][j];
      plane := plane + [line];
      j := j + 1;
    }
  }

  /** The triple loop of `compute_degree_2_cumulant`, with the centred rows
      and their spreads computed once up front; it yields exactly the tensor
      of the formula. */
  method ComputeCumulant(sqrt: real -> real, m: Matrix<real>) returns (t: Tensor3)
    ensures t == CumulantTensor(sqrt, m)
  {
    var n := |m.rows|;
    var centred: seq<seq<real>> := [];
    var spread: seq<real> := [];
    var r := 0;
    while r < n
      invariant 0 <= r <= n
      invariant |centred| == r && |spread| == r
      invariant forall a :: 0 <= a < r ==> centred[a] == Centred(m.rows[a]) && spread[a] == Spread(m, a)
    {
      centred := centred + [Centred(m.rows[r])];
      spread := spread + [Spread(m, r)];
      r := r + 1;
    }
    t := [];
    var i := 0;
    while i < n
      invariant 0 <= i <= n
      invariant |t| == i
      invariant forall a :: 0 <= a < i ==> t[a] == CumulantTensor(sqrt, m)[a]
    {
      var plane := ComputePlane(sqrt, m, centred, spread, i);
      assert plane == CumulantTensor(sqrt, m)[i];
      t := t + [plane];
      i := i + 1;
    }
  }

  /** A sum of squares is zero exactly when every entry is zero. */
  lemma {:induction false} SumOfSquaresZero(xs: seq<real>)
    ensures SumOfSquares(xs) == 0.0 <==> forall t :: 0 <= t < |xs| ==> xs[t] == 0.0
  {
    if xs != [] {
      var rest := xs[1..];
      SumOfSquaresZero(rest);
      assert forall t :: 0 <= t < |rest| ==> rest[t] == xs[t + 1];
      assert SumOfSquares(xs) == Square(xs[0]) + SumOfSquares(rest);
    }
  }

  /** The sum of n copies of v is n * v. */
  lemma {:induction false} SumOfConstant(row: seq<real>, v: real)
    requires forall t :: 0 <= t < |row| ==> row[t] == v
    ensures Sum(row) == Mul(|row| as real, v)
  {
    if row != [] {
      SumOfConstant(row[1..], v);
    }
  }

  /** A row has zero spread exactly when it is constant. */
  lemma ZeroSpreadIffConstant(row: seq<real>)
    ensures SumOfSquares(Centred(row)) == 0.0 <==> Constant(row)
  {
    SumOfSquaresZero(Centred(row));
    if Constant(row) && row != [] {
      SumOfConstant(row, row[0]);
      var n := |row| as real;
      MulDivCancel(n, row[0]);
      assert Mean(row) == Mul(n, row[0]) / n;
    }
    if SumOfSquares(Centred(row)) == 0.0 && row != [] {
      forall t | 0 <= t < |row|
        ensures row[t] == Mean(row)
      {
        assert Centred(row)[t] == row[t] - Mean(row);
      }
    }
  }

  /** The zero guard: an entry is 0 when the product of the three spreads is 0,
      and otherwise the summed product over a positive root of that product. */
  lemma EntryGuard(sqrt: real -> real, m: Matrix<real>, i: nat, j: nat, k: nat)
    requires SqrtLike(sqrt)
    requires i < |m.rows| && j < |m.rows| && k < |m.rows|
    ensures SpreadProduct(m, i, j, k) == 0.0 ==> CumulantTensor(sqrt, m)[i][j][k] == 0.0
    ensures SpreadProduct(m, i, j, k) != 0.0 ==>
      && sqrt(SpreadProduct(m, i, j, k)) > 0.0
      && CumulantTensor(sqrt, m)[i][j][k] == Numerator(m, i, j, k) / sqrt(SpreadProduct(m, i, j, k))
  {
    var si, sj, sk := Spread(m, i), Spread(m, j), Spread(m, k);
    assert si * sj >= 0.0;
    assert SpreadProduct(m, i, j, k) >= 0.0;
    TensorEntry(sqrt, m, i, j, k);
  }

  /** Every entry that involves a constant row is 0. */
  lemma ConstantRowGivesZero(sqrt: real -> real, m: Matrix<real>, i: nat, j: nat, k: nat)
    requires SqrtLike(sqrt)
    requires i < |m.rows| && j < |m.rows| && k < |m.rows|
    requires Constant(m.rows[i]) || Constant(m.rows[j]) || Constant(m.rows[k])
    ensures CumulantTensor(sqrt, m)[i][j][k] == 0.0
  {
    ZeroSpreadIffConstant(m.rows[i]);
    ZeroSpreadIffConstant(m.rows[j]);
    ZeroSpreadIffConstant(m.rows[k]);
    EntryGuard(sqrt, m, i, j, k);
  }

  /** Swapping the first two vectors does not change the summed product. */
  lemma {:induction false} TripleProductSwapFirst(a: seq<real>, b: seq<real>, c: seq<real>)
    requires |a| == |b| == |c|
    ensures TripleProductSum(a, b, c) == TripleProductSum(b, a, c)
  {
    if a != [] {
      TripleProductSwapFirst(a[1..], b[1..], c[1..]);
    }
  }

  /** Swapping the last two vectors does not change the summed product. */
  lemma {:induction false} TripleProductSwapLast(a: seq<real>, b: seq<real>, c: seq<real>)
    requires |a| == |b| == |c|
    ensures TripleProductSum(a, b, c) == TripleProductSum(a, c, b)
  {
    if a != [] {
      TripleProductSwapLast(a[1..], b[1..], c[1..]);
    }
  }

  /** Swapping the first two indices does not change an entry. */
  lemma EntrySwapFirst(sqrt: real -> real, m: Matrix<real>, i: nat, j: nat, k: nat)
    requires i < |m.rows| && j < |m.rows| && k < |m.rows|
    ensures Entry(sqrt, m, i, j, k) == Entry(sqrt, m, j, i, k)
  {
    TripleProductSwapFirst(Centred(m.rows[i]), Centred(m.rows[j]), Centred(m.rows[k]));
    assert SpreadProduct(m, i, j, k) == SpreadProduct(m, j, i, k);
  }

  /** Swapping the last two indices does not change an entry. */
  lemma EntrySwapLast(sqrt: real -> real, m: Matrix<real>, i: nat, j: nat, k: nat)
    requires i < |m.rows| && j < |m.rows| && k < |m.rows|
    ensures Entry(sqrt, m, i, j, k) == Entry(sqrt, m, i, k, j)
  {
    TripleProductSwapLast(Centred(m.rows[i]), Centred(m.rows[j]), Centred(m.rows[k]));
    assert SpreadProduct(m, i, j, k) == SpreadProduct(m, i, k, j);
  }

  /** An entry is the same under every permutation of its three indices. */
  lemma CumulantSymmetric(sqrt: real -> real, m: Matrix<real>, i: nat, j: nat, k: nat)
    requires i < |m.rows| && j < |m.rows| && k < |m.rows|
    ensures var t := CumulantTensor(sqrt, m);
      && t[i][j][k] == t[j][i][k]
      && t[i][j][k] == t[i][k][j]
      && t[i][j][k] == t[k][j][i]
      && t[i][j][k] == t[j][k][i]
      && t[i][j][k] == t[k][i][j]
  {
    EntrySwapFirst(sqrt, m, i, j, k);
    EntrySwapLast(sqrt, m, i, j, k);
    EntrySwapLast(sqrt, m, j, i, k);
    EntrySwapFirst(sqrt, m, i, k, j);
    EntrySwapFirst(sqrt, m, j, k, i);
  }

  /** An entry depends on rows i, j and k alone: two matrices that share those
      rows (at any positions) agree on the corresponding entries. */
  lemma EntryDependsOnlyOnItsRows(sqrt: real -> real, m1: Matrix<real>, m2: Matrix<real>,
                                  i1: nat, j1: nat, k1: nat, i2: nat, j2: nat, k2: nat)
    requires i1 < |m1.rows| && j1 < |m1.rows| && k1 < |m1.rows|
    requires i2 < |m2.rows| && j2 < |m2.rows| && k2 < |m2.rows|
    requires m1.rows[i1] == m2.rows[i2] && m1.rows[j1] == m2.rows[j2] && m1.rows[k1] == m2.rows[k2]
    ensures CumulantTensor(sqrt, m1)[i1][j1][k1] == CumulantTensor(sqrt, m2)[i2][j2][k2]
  {
    TensorEntry(sqrt, m1, i1, j1, k1);
    TensorEntry(sqrt, m2, i2, j2, k2);
    assert Numerator(m1, i1, j1, k1) == Numerator(m2, i2, j2, k2);
    assert Spread(m1, i1) == Spread(m2, i2) && Spread(m1, j1) == Spread(m2, j2) && Spread(m1, k1) == Spread(m2, k2);
    assert SpreadProduct(m1, i1, j1, k1) == SpreadProduct(m2, i2, j2, k2);
  }
}
