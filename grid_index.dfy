/**
 * Row-major grid indices, the arithmetic shared by the buffer-filling loops
 * whose row width is a parameter.
 */
module GridIndex {

  /**
   * Cell (y, x) of a row-major grid `width` wide and `height` tall sits at
   * `y * width + x`, inside the grid, and decodes back to (y, x).
   */
  lemma RowMajor(width: nat, height: nat, y: nat, x: nat)
    requires y < height && x < width
    ensures 0 <= y * width + x < width * height
    ensures (y * width + x) / width == y && (y * width + x) % width == x
  {
    assert y * width + x < (y + 1) * width;
    MulMonotone(y + 1, height, width);
    DivUnique(y * width + x, width, y, x);
  }

  lemma MulMonotone(a: nat, b: nat, n: nat)
    requires a <= b
    ensures a * n <= b * n
  {
  }

  lemma DivUnique(k: int, n: int, q: int, r: int)
    requires n > 0 && 0 <= r < n && k == q * n + r
    ensures k / n == q && k % n == r
  {
    var q', r' := k / n, k % n;
    assert q' * n + r' == q * n + r;
    if q' > q {
      assert (q' - q) * n == r - r';
      MulMonotone(1, q' - q, n);
    } else if q' < q {
      assert (q - q') * n == r' - r;
      MulMonotone(1, q - q', n);
    }
  }
}
