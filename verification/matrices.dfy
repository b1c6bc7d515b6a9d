/** Two- and three-dimensional arrays as the Hi-C pipeline holds them. */
module Matrices {

  /** A two-dimensional array: its rows and the column count they share.
      The column count is kept separately so that an array with no rows
      still has a width, as a numpy array of shape (0, w) does. */
  datatype Array2<T> = Array2(cols: nat, rows: seq<seq<T>>) {

    /** Every row has the declared number of columns. */
    predicate Rectangular() {
      forall i :: 0 <= i < |rows| ==> |rows[i]| == cols
    }

    /** The matrix has as many columns as rows. */
    predicate Square() {
      cols == |rows|
    }
  }

  /** A numpy matrix: never ragged. */
  type Matrix<T> = a: Array2<T> | a.Rectangular() witness Array2(0, [])

  /** A dense n x n x n tensor of reals, indexed [i][j][k]. */
  type Tensor3 = seq<seq<seq<real>>>
}
