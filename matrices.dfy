/**
 * Two-dimensional numeric arrays as numpy holds them: a list of rows of
 * equal length. The width is kept separately so that an array with no
 * rows still has a column count (numpy's shape (0, n)).
 */
module Matrices {

  datatype Grid<T> = Grid(rows: seq<seq<T>>, width: nat) {
    predicate Rectangular() {
      forall r :: 0 <= r < |rows| ==> |rows[r]| == width
    }
  }

  /** A 2-D array: every row has `width` entries. */
  type Matrix<T> = g: Grid<T> | g.Rectangular() witness Grid([], 0)

  /** `m[:, j]`: column `j`, one entry per row. */
  function Column<T>(m: Matrix<T>, j: nat): (col: seq<T>)
    requires j < m.width
    ensures |col| == |m.rows|
  {
    seq(|m.rows|, r requires 0 <= r < |m.rows| => m.rows[r][j])
  }

  /** `m[:, lo:hi]` for `0 <= lo <= hi <= width`: the contiguous block of columns from `lo` up to `hi`. */
  function Columns<T>(m: Matrix<T>, lo: nat, hi: nat): (b: Matrix<T>)
    requires lo <= hi <= m.width
    ensures |b.rows| == |m.rows| && b.width == hi - lo
    ensures forall r, j :: 0 <= r < |m.rows| && 0 <= j < hi - lo ==> b.rows[r][j] == m.rows[r][lo + j]
  {
    Grid(seq(|m.rows|, r requires 0 <= r < |m.rows| => m.rows[r][lo..hi]), hi - lo)
  }

  /** `np.hstack((a, b))`: the columns of `a` followed by those of `b`, row by row. */
  function Beside<T>(a: Matrix<T>, b: Matrix<T>): (c: Matrix<T>)
    requires |a.rows| == |b.rows|
    ensures |c.rows| == |a.rows| && c.width == a.width + b.width
  {
    Grid(seq(|a.rows|, r requires 0 <= r < |a.rows| => a.rows[r] + b.rows[r]), a.width + b.width)
  }

  /** `m[:, idx]` (numpy fancy indexing) when every index is in range: column `j` of the result is column `idx[j]` of `m`. */
  function PickColumns<T>(m: Matrix<T>, idx: seq<nat>): (p: Matrix<T>)
    requires forall j :: 0 <= j < |idx| ==> idx[j] < m.width
    ensures |p.rows| == |m.rows| && p.width == |idx|
    ensures forall j :: 0 <= j < |idx| ==> Column(p, j) == Column(m, idx[j])
  {
    Grid(seq(|m.rows|, r requires 0 <= r < |m.rows| => seq(|idx|, j requires 0 <= j < |idx| => m.rows[r][idx[j]])), |idx|)
  }

  /** Two adjacent column blocks side by side are the block that spans both. */
  lemma AdjacentColumns<T>(m: Matrix<T>, lo: nat, mid: nat, hi: nat)
    requires lo <= mid <= hi <= m.width
    ensures Beside(Columns(m, lo, mid), Columns(m, mid, hi)) == Columns(m, lo, hi)
  {
    var left, right, whole := Columns(m, lo, mid), Columns(m, mid, hi), Columns(m, lo, hi);
    var joined := Beside(left, right);
    forall r | 0 <= r < |m.rows| ensures joined.rows[r] == whole.rows[r] {
      calc {
        joined.rows[r];
        m.rows[r][lo..mid] + m.rows[r][mid..hi];
        { assert m.rows[r][lo..hi] == m.rows[r][lo..mid] + m.rows[r][mid..hi]; }
        m.rows[r][lo..hi];
      }
    }
  }

  /** Picking every column, in order, gives the matrix back. */
  lemma PickAllColumns<T>(m: Matrix<T>, idx: seq<nat>)
    requires |idx| == m.width && forall j :: 0 <= j < |idx| ==> idx[j] == j
    ensures PickColumns(m, idx) == m
  {
    var p := PickColumns(m, idx);
    forall r | 0 <= r < |m.rows| ensures p.rows[r] == m.rows[r] {
      forall j | 0 <= j < |idx| ensures p.rows[r][j] == m.rows[r][j] {
        assert Column(p, j)[r] == p.rows[r][j];
        assert Column(m, idx[j])[r] == m.rows[r][j];
      }
    }
  }
}
