/**
 * The index arithmetic of the parallel builder's segment buffer: the slot
 * formula, the first slot of a cell, and the buffer size.
 */
module SlotArith {

  /** The slot of the segment that starts at position k of the table row, for cell (i, j) and isovalue m. */
  function SlotIndex(i: int, j: int, m: int, k: int, dataSize_j: int, n: int): int
  {
    ((i * dataSize_j + j) * n + m) * 2 + k / 2
  }

  /** The first slot of cell (i, j). */
  function CellBase(i: int, j: int, dataSize_j: int, n: int): int
  {
    (i * dataSize_j + j) * n * 2
  }

  /** The first of the two slots of isovalue m in the cell whose slots start at CellBase(i, j, dataSize_j, n). */
  function IsoBase(i: int, j: int, dataSize_j: int, n: int, m: int): int
  {
    CellBase(i, j, dataSize_j, n) + 2 * m
  }

  /** One more row or cell of the same size. */
  lemma {:induction false} MulStep(k: int, d: int)
    ensures (k - 1) * d + d == k * d
  {
  }

  /** The buffer size, counted row by row. */
  lemma {:induction false} EdgeSizeByRows(di: int, dj: int, n: int)
    ensures di * (dj * (2 * n)) == di * dj * n * 2
  {
    assert dj * (2 * n) == 2 * (dj * n);
    assert di * (2 * (dj * n)) == 2 * (di * (dj * n));
  }

  /** The first slot of cell (i, j) comes after i full rows and j cells of row i. */
  lemma {:induction false} CellBaseByRows(i: int, j: int, dj: int, n: int)
    ensures i * (dj * (2 * n)) + j * (2 * n) == CellBase(i, j, dj, n)
  {
    var c := i * dj;
    assert i * (dj * (2 * n)) == c * (2 * n);
    assert (c + j) * (2 * n) == c * (2 * n) + j * (2 * n);
    assert (c + j) * n * 2 == (c + j) * (2 * n);
  }

  /**
   * The slot formula is the position in the buffer: slot k / 2 of cell
   * (i, j) and isovalue m is 2 m + k / 2 places after the cell's first slot.
   */
  lemma {:induction false} SlotIndexIsOffset(i: int, j: int, m: int, k: int, dataSize_j: int, n: int)
    requires k == 0 || k == 2
    ensures SlotIndex(i, j, m, k, dataSize_j, n) == IsoBase(i, j, dataSize_j, n, m) + k / 2
  {
  }

  /**
   * For in-range cells, isovalues and table positions 0 and 2, the slot is
   * within the buffer.
   */
  lemma {:induction false} SlotIndexInRange(i: int, j: int, m: int, k: int, dataSize_i: int, dataSize_j: int, n: int)
    requires 0 <= i < dataSize_i && 0 <= j < dataSize_j && 0 <= m < n && (k == 0 || k == 2)
    ensures 0 <= SlotIndex(i, j, m, k, dataSize_j, n) < dataSize_i * dataSize_j * n * 2
  {
    var c := i * dataSize_j + j;
    MulNonneg(i, dataSize_j);
    MulMono(i + 1, dataSize_i, dataSize_j);
    MulSucc(i, dataSize_j);
    assert 0 <= c < dataSize_i * dataSize_j;
    var t := c * n + m;
    MulNonneg(c, n);
    MulMono(c + 1, dataSize_i * dataSize_j, n);
    MulSucc(c, n);
    assert 0 <= t < dataSize_i * dataSize_j * n;
  }

  /** The 2 n slots of an in-range cell lie within the buffer, counted row by row. */
  lemma {:induction false} CellSlotsInRange(i: int, j: int, dataSize_i: int, dataSize_j: int, n: int)
    requires 0 <= i < dataSize_i && 0 <= j < dataSize_j && 0 <= n
    ensures 0 <= CellBase(i, j, dataSize_j, n)
    ensures CellBase(i, j, dataSize_j, n) + 2 * n <= dataSize_i * (dataSize_j * (2 * n))
  {
    var w := 2 * n;
    var d := dataSize_j * w;
    CellBaseByRows(i, j, dataSize_j, n);
    MulNonneg(dataSize_j, w);
    MulNonneg(i, d);
    MulNonneg(j, w);
    RowFits(j, dataSize_j, w);
    RowFits(i, dataSize_i, d);
  }

  lemma {:induction false} MulNonneg(a: int, b: int)
    requires 0 <= a && 0 <= b
    ensures 0 <= a * b
  {
  }

  lemma {:induction false} MulMono(a: int, b: int, d: int)
    requires a <= b && 0 <= d
    ensures a * d <= b * d
  {
    assert b * d - a * d == (b - a) * d;
    MulNonneg(b - a, d);
  }

  /** The first cell of row i comes after i full rows. */
  lemma {:induction false} RowBase(i: int, dj: int, n: int)
    ensures CellBase(i, 0, dj, n) == i * (dj * (2 * n))
  {
    CellBaseByRows(i, 0, dj, n);
    assert 0 * (2 * n) == 0;
  }

  /** Cell j of row i comes j cells after the row's first cell. */
  lemma {:induction false} CellBaseInRow(i: int, j: int, dj: int, n: int)
    ensures CellBase(i, 0, dj, n) + j * (2 * n) == CellBase(i, j, dj, n)
  {
    CellBaseByRows(i, 0, dj, n);
    CellBaseByRows(i, j, dj, n);
    assert i * (dj * (2 * n)) + 0 * (2 * n) == CellBase(i, 0, dj, n);
    assert i * (dj * (2 * n)) + j * (2 * n) == CellBase(i, j, dj, n);
  }

  /** Row i of rows of size d ends within di rows. */
  lemma {:induction false} RowFits(i: int, di: int, d: int)
    requires 0 <= i < di && 0 <= d
    ensures i * d + d <= di * d
  {
    MulSucc(i, d);
    MulMono(i + 1, di, d);
  }

  lemma {:induction false} MulSucc(a: int, d: int)
    ensures (a + 1) * d == a * d + d
  {
  }

  /** Different (cell, isovalue, table position) triples have different slots. */
  lemma {:induction false} SlotIndexInjective(i: int, j: int, m: int, k: int, i': int, j': int, m': int, k': int, dataSize_j: int, n: int)
    requires 0 <= i && 0 <= j < dataSize_j && 0 <= m < n && (k == 0 || k == 2)
    requires 0 <= i' && 0 <= j' < dataSize_j && 0 <= m' < n && (k' == 0 || k' == 2)
    requires SlotIndex(i, j, m, k, dataSize_j, n) == SlotIndex(i', j', m', k', dataSize_j, n)
    ensures i == i' && j == j' && m == m' && k == k'
  {
    var c, c' := i * dataSize_j + j, i' * dataSize_j + j';
    var t, t' := c * n + m, c' * n + m';
    assert t == t' && k == k';
    DivModUnique(t, n, c, m);
    DivModUnique(t, n, c', m');
    DivModUnique(c, dataSize_j, i, j);
    DivModUnique(c, dataSize_j, i', j');
  }

  /** Quotient and remainder are unique. */
  lemma {:induction false} DivModUnique(a: int, d: int, q: int, r: int)
    requires d > 0 && 0 <= r < d && a == q * d + r
    ensures a / d == q && a % d == r
  {
    var q0, r0 := a / d, a % d;
    assert a == q0 * d + r0 && 0 <= r0 < d;
    if q0 > q {
      assert q0 * d - q * d == (q0 - q) * d;
      MulAtLeast(q0 - q, d);
    } else if q0 < q {
      assert q * d - q0 * d == (q - q0) * d;
      MulAtLeast(q - q0, d);
    }
  }

  lemma {:induction false} MulAtLeast(x: int, d: int)
    requires x >= 1 && d > 0
    ensures x * d >= d
  {
    assert x * d == (x - 1) * d + d;
  }
}
