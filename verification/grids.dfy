/** Row-major indexing of a grid: the arithmetic behind the tile grid, the cell
    grid and the pixels of the mirror. */
module Grids {

  function Col(i: nat, cols: nat): nat
    requires cols > 0
  {
    i % cols
  }

  function Row(i: nat, cols: nat): nat
    requires cols > 0
  {
    i / cols
  }

  lemma MulMono(a: nat, b: nat, c: nat)
    requires a <= b
    ensures a * c <= b * c && c * a <= c * b
  {
  }

  lemma Distributes(a: nat, b: nat, c: nat)
    ensures (a + b) * c == a * c + b * c && c * (a + b) == c * a + c * b
  {
  }

  lemma DivModUnique(i: nat, d: nat, q: nat, r: nat)
    requires d > 0 && i == d * q + r && r < d
    ensures i / d == q && i % d == r
  {
    var q2, r2 := i / d, i % d;
    assert i == d * q2 + r2;
    Distributes(q2, 1, d);
    Distributes(q, 1, d);
    if q2 < q {
      MulMono(q2 + 1, q, d);
      assert false;
    } else if q < q2 {
      MulMono(q + 1, q2, d);
      assert false;
    }
  }

  lemma DivBounds(n: nat, d: nat)
    requires d > 0
    ensures d * (n / d) <= n < d * (n / d) + d
  {
  }

  lemma DivAtMost(n: nat, d: nat, k: nat)
    requires d > 0 && n < d * k + d
    ensures n / d <= k
  {
    var q := n / d;
    Distributes(k, 1, d);
    if q > k {
      MulMono(k + 1, q, d);
      assert false;
    }
  }

  lemma DivAtLeast(n: nat, d: nat, k: nat)
    requires d > 0 && d * k <= n
    ensures k <= n / d
  {
    var q := n / d;
    Distributes(q, 1, d);
    if q < k {
      MulMono(q + 1, k, d);
      assert false;
    }
  }

  /** The index of a cell is in range, and gives its column and row back. */
  lemma IndexOfCell(col: nat, row: nat, cols: nat, rows: nat)
    requires col < cols && row < rows
    ensures row * cols + col < cols * rows
    ensures Col(row * cols + col, cols) == col && Row(row * cols + col, cols) == row
  {
    DivModUnique(row * cols + col, cols, row, col);
    MulMono(row + 1, rows, cols);
    Distributes(row, 1, cols);
  }

  /** Every index in range is the index of its column and row. */
  lemma CellOfIndex(i: nat, cols: nat, rows: nat)
    requires i < cols * rows
    ensures cols > 0 && Row(i, cols) * cols + Col(i, cols) == i
    ensures Col(i, cols) < cols && Row(i, cols) < rows
  {
    assert i == cols * (i / cols) + i % cols;
    if i / cols >= rows {
      MulMono(rows, i / cols, cols);
      assert false;
    }
  }
}
