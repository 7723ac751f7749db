/**
 * Sparse matrices as the simulator uses Eigen's `SparseMatrix<float>`: a map
 * from `(row, column)` to the stored value, every position without a stored
 * entry reading as zero. `insert`, `coeffRef(i, j) +=` and `setZero` change a
 * matrix in place; `SetBlock` adds a dense block into one.
 */
module Sparse {

  type Entries = map<(nat, nat), real>

  /** The value at `(i, j)`: the stored entry, or zero where none is stored. */
  function Entry(m: Entries, i: nat, j: nat): real {
    if (i, j) in m then m[(i, j)] else 0.0
  }

  /** Every stored entry lies inside a `rows` by `cols` matrix. */
  predicate InBounds(m: Entries, rows: nat, cols: nat) {
    forall key :: key in m ==> key.0 < rows && key.1 < cols
  }

  /**
   * The dense `rows` by `cols` view of `m`: what a solver sees, independent
   * of which zeros happen to be stored.
   */
  function Dense(m: Entries, rows: nat, cols: nat): (d: seq<seq<real>>)
    ensures |d| == rows
    ensures forall r :: 0 <= r < rows ==> |d[r]| == cols
    ensures forall r, c :: 0 <= r < rows && 0 <= c < cols ==> d[r][c] == Entry(m, r, c)
  {
    seq(rows, r requires 0 <= r < rows => seq(cols, c requires 0 <= c < cols => Entry(m, r, c)))
  }

  /** `A + s B`, entry by entry (Eigen's `A + s * B` on sparse matrices). */
  function Combine(a: Entries, b: Entries, s: real): (m: Entries)
    ensures forall i, j :: Entry(m, i, j) == Entry(a, i, j) + s * Entry(b, i, j)
    ensures forall rows, cols :: InBounds(a, rows, cols) && InBounds(b, rows, cols) ==> InBounds(m, rows, cols)
  {
    map key | key in a.Keys + b.Keys :: Entry(a, key.0, key.1) + s * Entry(b, key.0, key.1)
  }

  /** Row `r` of `m` times `v`, over the columns below `n`. */
  function RowDot(m: Entries, r: nat, v: seq<real>, n: nat): real
    requires n <= |v|
  {
    if n == 0 then 0.0 else RowDot(m, r, v, n - 1) + Entry(m, r, n - 1) * v[n - 1]
  }

  /** The product `m * v` of a square matrix of size `|v|` with `v`. */
  function MulVec(m: Entries, v: seq<real>): (w: seq<real>)
    ensures |w| == |v|
    ensures forall r :: 0 <= r < |v| ==> w[r] == RowDot(m, r, v, |v|)
  {
    seq(|v|, r requires 0 <= r < |v| => RowDot(m, r, v, |v|))
  }

  /**
   * A row with nothing off the diagonal: its product with `v` is its
   * diagonal entry times the matching component of `v`.
   */
  lemma {:induction false} RowDotDiagonal(m: Entries, r: nat, v: seq<real>, n: nat)
    requires n <= |v|
    requires forall c :: 0 <= c < n && c != r ==> Entry(m, r, c) == 0.0
    ensures RowDot(m, r, v, n) == if r < n then Entry(m, r, r) * v[r] else 0.0
  {
    if n > 0 {
      RowDotDiagonal(m, r, v, n - 1);
    }
  }

  /** A matrix that is zero off its diagonal scales `v` component by component. */
  lemma MulVecDiagonal(m: Entries, v: seq<real>)
    requires forall r, c :: r != c ==> Entry(m, r, c) == 0.0
    ensures forall r :: 0 <= r < |v| ==> MulVec(m, v)[r] == Entry(m, r, r) * v[r]
  {
    forall r | 0 <= r < |v|
      ensures MulVec(m, v)[r] == Entry(m, r, r) * v[r]
    {
      RowDotDiagonal(m, r, v, |v|);
    }
  }

  class SparseMatrix {
    const rows: nat
    const cols: nat
    var entries: Entries

    ghost predicate Valid()
      reads this
    {
      InBounds(entries, rows, cols)
    }

    /** `m.coeff(i, j)`. */
    function At(i: nat, j: nat): real
      reads this
    {
      Entry(entries, i, j)
    }

    /** `SparseMatrix<float>(rows, cols)`: all zero, nothing stored. */
    constructor (rows: nat, cols: nat)
      ensures this.rows == rows && this.cols == cols
      ensures entries == map[] && Valid()
    {
      this.rows := rows;
      this.cols := cols;
      entries := map[];
    }

    /** `setZero()`: drops every stored entry. */
    method SetZero()
      modifies this
      ensures entries == map[] && Valid()
    {
      entries := map[];
    }

    /** `insert(i, j) = v`: Eigen demands that nothing is stored at `(i, j)` yet. */
    method Insert(i: nat, j: nat, v: real)
      requires Valid() && i < rows && j < cols
      requires (i, j) !in entries
      modifies this
      ensures Valid()
      ensures entries == old(entries)[(i, j) := v]
    {
      entries := entries[(i, j) := v];
    }

    /** `coeffRef(i, j) += v`: stores the entry first if it was absent. */
    method AddAt(i: nat, j: nat, v: real)
      requires Valid() && i < rows && j < cols
      modifies this
      ensures Valid()
      ensures entries == old(entries)[(i, j) := old(At(i, j)) + v]
    {
      entries := entries[(i, j) := At(i, j) + v];
    }
  }

  /** A block of `r` rows and `c` columns taken from the dense matrix `b`. */
  predicate HasBlock(b: seq<seq<real>>, r: nat, c: nat) {
    r <= |b| && forall t :: 0 <= t < r ==> c <= |b[t]|
  }

  /**
   * `SetBlock(m, si, sj, r, c, b)`: adds `b(i - si, j - sj)` to every entry of
   * rows `[si, si + r)` and columns `[sj, sj + c)` and leaves every other
   * entry as it was.
   */
  method SetBlock(m: SparseMatrix, si: nat, sj: nat, r: nat, c: nat, b: seq<seq<real>>)
    requires m.Valid() && si + r <= m.rows && sj + c <= m.cols
    requires HasBlock(b, r, c)
    modifies m
    ensures m.Valid()
    ensures forall i: nat, j: nat :: m.At(i, j) == old(m.At(i, j)) +
              (if si <= i < si + r && sj <= j < sj + c then b[i - si][j - sj] else 0.0)
  {
    var i := si;
    while i < si + r
      invariant si <= i <= si + r
      invariant m.Valid()
      invariant forall p: nat, q: nat :: m.At(p, q) == old(m.At(p, q)) +
                  (if si <= p < i && sj <= q < sj + c then b[p - si][q - sj] else 0.0)
    {
      var j := sj;
      while j < sj + c
        invariant sj <= j <= sj + c
        invariant m.Valid()
        invariant forall p: nat, q: nat :: m.At(p, q) == old(m.At(p, q)) +
                    (if (si <= p < i && sj <= q < sj + c) || (p == i && sj <= q < j) then b[p - si][q - sj] else 0.0)
      {
        m.AddAt(i, j, b[i - si][j - sj]);
        j := j + 1;
      }
      i := i + 1;
    }
  }
}
