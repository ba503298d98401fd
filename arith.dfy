/** Small facts about real multiplication that the solver does not find on
    its own inside larger proofs. */
module Arith {

  lemma MulNonneg(a: real, b: real)
    requires a >= 0.0 && b >= 0.0
    ensures a * b >= 0.0
  {
  }

  lemma MulMono(a: real, b: real, c: real)
    requires a <= b && c >= 0.0
    ensures a * c <= b * c
  {
    MulNonneg(b - a, c);
  }

  lemma MulAssoc(a: real, b: real, c: real)
    ensures a * b * c == a * (b * c)
  {
  }

  /** The bounds of s * j for s in [-1, 1] and j in [0, 1]. */
  lemma ProductFacts(s: real, j: real)
    requires -1.0 <= s <= 1.0 && 0.0 <= j <= 1.0
    ensures s + j - 1.0 <= s * j <= j
    ensures -j <= s * j <= s + 1.0 - j
    ensures s >= 0.0 ==> 0.0 <= s * j <= s
    ensures s < 0.0 ==> s <= s * j <= 0.0
  {
    MulNonneg(1.0 - s, 1.0 - j);
    MulNonneg(1.0 - s, j);
    MulNonneg(1.0 + s, j);
    MulNonneg(1.0 + s, 1.0 - j);
    if s >= 0.0 {
      MulNonneg(s, j);
      MulNonneg(s, 1.0 - j);
    } else {
      MulNonneg(-s, j);
      MulNonneg(-s, 1.0 - j);
    }
  }

  /** A value s in [-1, 1] scaled by 1 - j, for j in [0, 1], keeps its sign
      and stays within 1 - j of zero. */
  lemma SquashFacts(s: real, j: real)
    requires -1.0 <= s <= 1.0 && 0.0 <= j <= 1.0
    ensures s >= 0.0 ==> 0.0 <= s * (1.0 - j) <= 1.0 - j
    ensures s < 0.0 ==> -(1.0 - j) <= s * (1.0 - j) <= 0.0
  {
    ProductFacts(s, j);
    var p := s * j;
    assert s * (1.0 - j) == s - p;
    if s >= 0.0 {
      assert p >= s + j - 1.0 && p <= s;
      assert 0.0 <= s - p <= 1.0 - j;
    } else {
      assert p <= s + 1.0 - j && p >= s;
      assert -(1.0 - j) <= s - p <= 0.0;
    }
  }

  /** Scaling by a positive t keeps the sign. */
  lemma MulSign(x: real, t: real)
    requires t > 0.0
    ensures x * t >= 0.0 <==> x >= 0.0
  {
    if x >= 0.0 {
      MulNonneg(x, t);
    } else {
      MulNonneg(-x, t);
      assert (-x) * t == -(x * t);
      assert (-x) * t != 0.0;
    }
  }

  /** Row i of a rows-by-cols block, stored row after row, ends inside it. */
  lemma RowFits(i: int, rows: int, cols: int)
    requires 0 <= i < rows && cols >= 0
    ensures 0 <= i * cols && i * cols + cols <= rows * cols
  {
    var e := rows - i - 1;
    assert rows * cols == i * cols + cols + e * cols;
    assert e * cols >= 0 && i * cols >= 0;
  }

  /** Dividing by a positive number keeps the order. */
  lemma DivMono(a1: real, a2: real, p: real)
    requires a1 <= a2 && p > 0.0
    ensures a1 / p <= a2 / p
  {
    assert a2 / p - a1 / p == (a2 - a1) / p;
  }

  /** A multiple of a positive c that lies strictly between -c and c is 0. */
  lemma SmallMultiple(e: int, c: int)
    requires c > 0 && -c < e * c < c
    ensures e == 0
  {
  }

  /** Cell (i, j) of a rows-by-cols block, stored row after row, and its
      flat position k determine each other. */
  lemma CellIndex(i: int, j: int, rows: int, cols: int)
    requires 0 <= i < rows && 0 <= j < cols
    ensures 0 <= i * cols + j < rows * cols
    ensures (i * cols + j) / cols == i && (i * cols + j) % cols == j
  {
    RowFits(i, rows, cols);
    var k := i * cols + j;
    var d, m := k / cols, k % cols;
    assert k == d * cols + m;
    assert (d - i) * cols == j - m;
    SmallMultiple(d - i, cols);
  }

  lemma FlatIndex(k: int, rows: int, cols: int)
    requires 0 <= k < rows * cols && cols > 0
    ensures 0 <= k / cols < rows && 0 <= k % cols < cols
    ensures (k / cols) * cols + k % cols == k
  {
  }

  /** A multiple of c is c times its quotient. */
  lemma DivExact(n: int, c: int)
    requires c > 0 && n % c == 0
    ensures n == (n / c) * c
  {
  }
}
