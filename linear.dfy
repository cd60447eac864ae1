/** The matrix arithmetic behind a rank-k reconstruction, in exact (real)
    arithmetic. The factors U, S, Vh of a channel are inputs: they stand for
    what a reduced singular value decomposition returns for that channel. */
module Linear {

  type Grid = seq<seq<real>>

  /** `g` has `rows` rows of `cols` entries each. */
  predicate IsGrid(g: Grid, rows: nat, cols: nat)
  {
    |g| == rows && forall i :: 0 <= i < rows ==> |g[i]| == cols
  }

  /** A 2-D array together with its shape (the shape is kept even when there
      are no rows, as in numpy). */
  datatype Matrix = Matrix(rows: nat, cols: nat, cells: Grid)

  predicate WellShaped(m: Matrix)
  {
    IsGrid(m.cells, m.rows, m.cols)
  }

  /** The factors of a `rows` x `cols` channel: U is rows x r, S has r
      entries, Vh is r x cols. */
  datatype Factors = Factors(rows: nat, cols: nat, u: Grid, s: seq<real>, vh: Grid)

  predicate Conformable(f: Factors)
  {
    IsGrid(f.u, f.rows, |f.s|) && IsGrid(f.vh, |f.s|, f.cols)
  }

  /** The shapes a reduced decomposition returns always fit together; the
      number r of singular values is not fixed here. */
  type Svd = f: Factors | Conformable(f) witness Factors(0, 0, [], [], [])

  function Rank(f: Svd): nat
  {
    |f.s|
  }

  /** The rank-k sum for entry (i, j): the sum over t < k of U[i][t] * S[t] * Vh[t][j]. */
  function Term(f: Svd, i: nat, j: nat, k: nat): real
    requires i < f.rows && j < f.cols && k <= Rank(f)
  {
    if k == 0 then 0.0 else Term(f, i, j, k - 1) + f.u[i][k - 1] * f.s[k - 1] * f.vh[k - 1][j]
  }

  /** The sum over t < n of row[t] * b[t][j]: one entry of a matrix product. */
  function RowCol(row: seq<real>, b: Grid, j: nat, n: nat): real
    requires n <= |row| && n <= |b|
    requires forall t :: 0 <= t < n ==> j < |b[t]|
  {
    if n == 0 then 0.0 else RowCol(row, b, j, n - 1) + row[n - 1] * b[n - 1][j]
  }

  /** `a @ b` for an |a| x n matrix a and an n x cols matrix b. */
  function MatMul(a: Grid, b: Grid, n: nat, cols: nat): (c: Grid)
    requires IsGrid(a, |a|, n) && IsGrid(b, n, cols)
    ensures IsGrid(c, |a|, cols)
  {
    seq(|a|, i requires 0 <= i < |a| =>
      seq(cols, j requires 0 <= j < cols => RowCol(a[i], b, j, n)))
  }

  /** `np.diag(s)`: the square matrix with `s` on its diagonal. */
  function Diag(s: seq<real>): (d: Grid)
    ensures IsGrid(d, |s|, |s|)
  {
    seq(|s|, i requires 0 <= i < |s| =>
      seq(|s|, j requires 0 <= j < |s| => if i == j then s[i] else 0.0))
  }

  /** `U @ np.diag(S) @ Vh`. */
  function Product(f: Svd): (p: Grid)
    ensures IsGrid(p, f.rows, f.cols)
  {
    MatMul(MatMul(f.u, Diag(f.s), Rank(f), Rank(f)), f.vh, Rank(f), f.cols)
  }

  /** The leading k factors: `U[:, :k]`, `S[:k]`, `Vh[:k, :]`. */
  function Truncate(f: Svd, k: nat): (g: Svd)
    requires k <= Rank(f)
    ensures g.rows == f.rows && g.cols == f.cols && Rank(g) == k
  {
    var u := seq(f.rows, i requires 0 <= i < f.rows => f.u[i][..k]);
    assert IsGrid(u, f.rows, k);
    assert IsGrid(f.vh[..k], k, f.cols);
    Factors(f.rows, f.cols, u, f.s[..k], f.vh[..k])
  }

  /** Column t of `row @ np.diag(s)`, summed over the first n terms. */
  lemma {:induction false} DiagColumn(row: seq<real>, s: seq<real>, t: nat, n: nat)
    requires n <= |row| && n <= |s| && t < |s|
    ensures RowCol(row, Diag(s), t, n) == if t < n then row[t] * s[t] else 0.0
  {
    if n > 0 {
      DiagColumn(row, s, t, n - 1);
    }
  }

  /** Multiplying a row by Vh, when the row is U[i] scaled by S, gives the rank-n sum. */
  lemma {:induction false} ScaledRowTimesVh(f: Svd, i: nat, j: nat, row: seq<real>, n: nat)
    requires i < f.rows && j < f.cols && n <= Rank(f) && n <= |row|
    requires forall t :: 0 <= t < n ==> row[t] == f.u[i][t] * f.s[t]
    ensures RowCol(row, f.vh, j, n) == Term(f, i, j, n)
  {
    if n > 0 {
      ScaledRowTimesVh(f, i, j, row, n - 1);
    }
  }

  /** Every entry of `U @ np.diag(S) @ Vh` is the sum over all r factors. */
  lemma ProductEntry(f: Svd, i: nat, j: nat)
    requires i < f.rows && j < f.cols
    ensures IsGrid(Product(f), f.rows, f.cols)
    ensures Product(f)[i][j] == Term(f, i, j, Rank(f))
  {
    var r := Rank(f);
    var us := MatMul(f.u, Diag(f.s), r, r);
    forall t | 0 <= t < r
      ensures us[i][t] == f.u[i][t] * f.s[t]
    {
      DiagColumn(f.u[i], f.s, t, r);
    }
    ScaledRowTimesVh(f, i, j, us[i], r);
  }

  /** The leading k factors give the same partial sums as the full factors. */
  lemma {:induction false} TruncateTerm(f: Svd, k: nat, i: nat, j: nat, m: nat)
    requires k <= Rank(f) && m <= k && i < f.rows && j < f.cols
    ensures Term(Truncate(f, k), i, j, m) == Term(f, i, j, m)
  {
    if m > 0 {
      TruncateTerm(f, k, i, j, m - 1);
    }
  }

  /** Every entry of `U[:, :k] @ np.diag(S[:k]) @ Vh[:k, :]` is the rank-k sum. */
  lemma TruncatedEntry(f: Svd, k: nat, i: nat, j: nat)
    requires k <= Rank(f) && i < f.rows && j < f.cols
    ensures IsGrid(Product(Truncate(f, k)), f.rows, f.cols)
    ensures Product(Truncate(f, k))[i][j] == Term(f, i, j, k)
  {
    ProductEntry(Truncate(f, k), i, j);
    TruncateTerm(f, k, i, j, k);
  }

  /** Keeping all r factors keeps the factors unchanged, so the truncated
      product at k = r is the full product. */
  lemma TruncateAll(f: Svd)
    ensures Truncate(f, Rank(f)) == f
    ensures Product(Truncate(f, Rank(f))) == Product(f)
  {
    var g := Truncate(f, Rank(f));
    assert g.u == f.u by {
      forall i | 0 <= i < f.rows ensures g.u[i] == f.u[i] {
        assert f.u[i][..Rank(f)] == f.u[i];
      }
    }
    assert f.s[..Rank(f)] == f.s;
    assert f.vh[..Rank(f)] == f.vh;
  }
}
