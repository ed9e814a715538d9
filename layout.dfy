/**
 * The canonical cell layout of a sigil: an equilateral triangle of side
 * WARP_SIZE, apex at the top, cut into four rows of small triangles.  Row r
 * holds 2r+1 cells; the k-th cell of a row points up when k is even and down
 * when k is odd.  Cells are numbered row-major, left to right, so that cell k
 * of row r has index r*r + k.
 */
module Layout {

  /** Side of the square canvas a detected triangle is warped into (WARP_SIZE). */
  const WarpSize: real := 200.0

  /** Height of the canonical triangle: WARP_SIZE * sqrt(3) / 2 rounded down (WARP_H). */
  const WarpH: int := 173

  /** Horizontal centre line of the canonical triangle (WARP_XC). */
  const WarpXc: real := WarpSize / 2.0

  /** Height of one of the four rows (dy in generateCentroids). */
  const RowHeight: real := WarpH as real / 4.0

  /** Number of cells of a sigil (TOTAL_SUB_TRIS). */
  const CellCount: nat := 16

  /** One entry of the centroid table: a position and the cell's index. */
  datatype Centroid = Centroid(x: real, y: real, index: int)

  /** WARP_H is the integer part of WARP_SIZE * sqrt(3) / 2, i.e. of sqrt(30000). */
  lemma WarpHIsFloorOfHeight()
    ensures WarpH >= 0
    ensures 4 * WarpH * WarpH <= 3 * 200 * 200 < 4 * (WarpH + 1) * (WarpH + 1)
  {
  }

  /** Index of cell k of row r in the row-major numbering. */
  function Index(r: nat, k: nat): nat
  {
    r * r + k
  }

  /** Row of the cell with index i (i < 16). */
  function RowOf(i: nat): nat
  {
    if i < 1 then 0 else if i < 4 then 1 else if i < 9 then 2 else 3
  }

  /** Position within its row of the cell with index i (i < 16). */
  function PosOf(i: nat): nat
    requires i < CellCount
  {
    i - RowOf(i) * RowOf(i)
  }

  /** An even position in a row is an upward cell, an odd one a downward cell. */
  predicate IsUp(k: nat)
  {
    k % 2 == 0
  }

  /** x of the centroid of cell k of row r: the row is centred on WARP_XC, neighbours half a base apart. */
  function CellX(r: nat, k: nat): real
  {
    var wTri := WarpSize / 4.0;
    WarpXc + (k as real - r as real) * (wTri / 2.0)
  }

  /** y of the centroid of cell k of row r: 2/3 down the row for an upward cell, 1/3 for a downward one. */
  function CellY(r: nat, k: nat): real
  {
    var yTop := r as real * RowHeight;
    if IsUp(k) then yTop + RowHeight * (2.0 / 3.0) else yTop + RowHeight * (1.0 / 3.0)
  }

  function Cell(r: nat, k: nat, index: int): Centroid
  {
    Centroid(CellX(r, k), CellY(r, k), index)
  }

  /** The 2r+1 entries pushed for row r, numbered from start. */
  function Row(r: nat, start: int): seq<Centroid>
  {
    seq(2 * r + 1, k requires 0 <= k < 2 * r + 1 => Cell(r, k, start + k))
  }

  /** The entries pushed for rows 0 .. n-1. */
  function RowsUpTo(n: nat): seq<Centroid>
  {
    if n == 0 then [] else RowsUpTo(n - 1) + Row(n - 1, (n - 1) * (n - 1))
  }

  /** The table generateCentroids builds. */
  function CanonicalLayout(): seq<Centroid>
  {
    RowsUpTo(4)
  }

  /** Rows 0 .. n-1 hold n*n entries, row n-1 contributing the last 2(n-1)+1 of them. */
  lemma {:induction false} RowsUpToLength(n: nat)
    ensures |RowsUpTo(n)| == n * n
  {
    if n > 0 {
      RowsUpToLength(n - 1);
      assert n * n == (n - 1) * (n - 1) + 2 * (n - 1) + 1;
    }
  }

  /** Cell k of row r sits at index r*r + k of the entries for rows 0 .. n-1. */
  lemma {:induction false} RowsUpToAt(n: nat, r: nat, k: nat)
    requires r < n && k <= 2 * r
    ensures |RowsUpTo(n)| == n * n
    ensures RowsUpTo(n)[Index(r, k)] == Cell(r, k, Index(r, k))
  {
    var m := n - 1;
    RowsUpToLength(n);
    RowsUpToLength(m);
    var prev, last := RowsUpTo(m), Row(m, m * m);
    assert RowsUpTo(n) == prev + last;
    if r < m {
      RowsUpToAt(m, r, k);
      IndexBelowNextRow(r, k, m);
      assert (prev + last)[Index(r, k)] == prev[Index(r, k)];
    } else {
      assert Index(r, k) == |prev| + k;
      assert (prev + last)[Index(r, k)] == last[k];
    }
  }

  /** A cell of row r comes before every cell of any later row m. */
  lemma IndexBelowNextRow(r: nat, k: nat, m: nat)
    requires r < m && k <= 2 * r
    ensures Index(r, k) < m * m
  {
    assert Index(r, k) < (r + 1) * (r + 1);
    MulMonotone(r + 1, m);
  }

  lemma MulMonotone(a: nat, b: nat)
    requires a <= b
    ensures a * a <= b * b
  {
    assert a * a <= a * b <= b * b;
  }

  /** Each index below 16 is cell PosOf(i) of row RowOf(i). */
  lemma IndexDecomposition(i: nat)
    requires i < CellCount
    ensures RowOf(i) < 4 && PosOf(i) <= 2 * RowOf(i)
    ensures Index(RowOf(i), PosOf(i)) == i
  {
  }

  /**
   * generateCentroids yields exactly 16 entries, 1 + 3 + 5 + 7 by rows, each
   * entry's index field is its position in the table, and entry i is the
   * centroid of cell PosOf(i) of row RowOf(i).
   */
  lemma LayoutShape()
    ensures |CanonicalLayout()| == CellCount
    ensures forall r: nat :: r < 4 ==> |RowsUpTo(r + 1)| - |RowsUpTo(r)| == 2 * r + 1
    ensures forall i :: 0 <= i < CellCount ==> CanonicalLayout()[i].index == i
    ensures forall i :: 0 <= i < CellCount ==>
      CanonicalLayout()[i] == Cell(RowOf(i), PosOf(i), i)
  {
    RowsUpToLength(4);
    forall r: nat | r < 4 ensures |RowsUpTo(r + 1)| - |RowsUpTo(r)| == 2 * r + 1 {
      RowsUpToLength(r);
      RowsUpToLength(r + 1);
    }
    forall i | 0 <= i < CellCount
      ensures CanonicalLayout()[i] == Cell(RowOf(i), PosOf(i), i)
    {
      LayoutAt(i);
    }
  }

  /** Entry i of the table is the centroid of cell PosOf(i) of row RowOf(i), with index i. */
  lemma LayoutAt(i: nat)
    requires i < CellCount
    ensures |CanonicalLayout()| == CellCount
    ensures CanonicalLayout()[i] == Cell(RowOf(i), PosOf(i), i)
  {
    IndexDecomposition(i);
    RowsUpToAt(4, RowOf(i), PosOf(i));
  }

  /**
   * Position formulas: cell k of row r lies at x = WARP_XC + (k - r) * WARP_SIZE / 8;
   * an upward cell at y = r*dy + (2/3)*dy, a downward one at y = r*dy + (1/3)*dy,
   * so it lies inside its row's band (r*dy, (r+1)*dy).
   */
  lemma CellPosition(r: nat, k: nat)
    requires r < 4 && k <= 2 * r
    ensures |CanonicalLayout()| == CellCount && Index(r, k) < CellCount
    ensures CanonicalLayout()[Index(r, k)].x == WarpXc + (k as real - r as real) * WarpSize / 8.0
    ensures k % 2 == 0 ==> CanonicalLayout()[Index(r, k)].y == (r as real + 2.0 / 3.0) * RowHeight
    ensures k % 2 == 1 ==> CanonicalLayout()[Index(r, k)].y == (r as real + 1.0 / 3.0) * RowHeight
    ensures r as real * RowHeight < CanonicalLayout()[Index(r, k)].y < (r as real + 1.0) * RowHeight
  {
    RowsUpToAt(4, r, k);
    IndexBelowNextRow(r, k, 4);
  }

  /** Cell 2r-k of row r is the mirror image of cell k about WARP_XC. */
  lemma CellMirror(r: nat, k: nat)
    requires k <= 2 * r
    ensures CellY(r, 2 * r - k) == CellY(r, k)
    ensures CellX(r, 2 * r - k) - WarpXc == WarpXc - CellX(r, k)
  {
    MirrorParity(r, k);
    var m := 2 * r - k;
    assert m as real - r as real == -(k as real - r as real);
  }

  /** Positions k and 2r-k of a row are both even or both odd. */
  lemma MirrorParity(r: nat, k: nat)
    requires k <= 2 * r
    ensures IsUp(2 * r - k) == IsUp(k)
  {
    var h := k / 2;
    assert k == 2 * h + k % 2;
    assert 2 * r - k == 2 * (r - h) - k % 2;
  }

  /** Each cell's centroid lies strictly inside its row's band (r*dy, (r+1)*dy). */
  lemma CellInBand(r: nat, k: nat)
    ensures r as real * RowHeight < CellY(r, k) < (r as real + 1.0) * RowHeight
  {
  }

  /** Distinct cells have distinct centroids: rows occupy disjoint bands and x separates cells of a row. */
  lemma CellsDistinct(r1: nat, k1: nat, r2: nat, k2: nat)
    requires r1 != r2 || k1 != k2
    ensures CellX(r1, k1) != CellX(r2, k2) || CellY(r1, k1) != CellY(r2, k2)
  {
    CellInBand(r1, k1);
    CellInBand(r2, k2);
    if r1 < r2 {
      assert (r1 as real + 1.0) * RowHeight <= r2 as real * RowHeight;
    } else if r2 < r1 {
      assert (r2 as real + 1.0) * RowHeight <= r1 as real * RowHeight;
    }
  }

  /** No two entries of the table share a centroid. */
  lemma CentroidsDistinct(i: int, j: int)
    requires 0 <= i < CellCount && 0 <= j < CellCount && i != j
    ensures |CanonicalLayout()| == CellCount
    ensures CanonicalLayout()[i].x != CanonicalLayout()[j].x || CanonicalLayout()[i].y != CanonicalLayout()[j].y
  {
    LayoutAt(i);
    LayoutAt(j);
    IndexDecomposition(i);
    IndexDecomposition(j);
    CellsDistinct(RowOf(i), PosOf(i), RowOf(j), PosOf(j));
  }

  /** A cell of the four rows lies strictly inside the triangle (WARP_XC, 0), (0, WARP_H), (WARP_SIZE, WARP_H). */
  lemma CellInsideTriangle(r: nat, k: nat)
    requires r < 4 && k <= 2 * r
    ensures InsideTriangle(Cell(r, k, Index(r, k)))
  {
    CellInBand(r, k);
  }

  /** Strictly inside the triangle (WARP_XC, 0), (0, WARP_H), (WARP_SIZE, WARP_H). */
  predicate InsideTriangle(c: Centroid)
  {
    0.0 < c.y < WarpH as real &&
    WarpH as real * (WarpXc - c.x) < WarpXc * c.y &&
    WarpH as real * (c.x - WarpXc) < WarpXc * c.y
  }

  /**
   * Every centroid lies strictly inside the canonical triangle TRI_PTS, whose
   * vertices are (WARP_XC, 0), (0, WARP_H) and (WARP_SIZE, WARP_H).
   */
  lemma CentroidsInsideTriangle(i: int)
    requires 0 <= i < CellCount
    ensures |CanonicalLayout()| == CellCount
    ensures InsideTriangle(CanonicalLayout()[i])
  {
    LayoutAt(i);
    IndexDecomposition(i);
    CellInsideTriangle(RowOf(i), PosOf(i));
  }

  /** y of the upward (2/3 down) and downward (1/3 down) cells of row r, written out. */
  function UpY(r: nat): real { 173.0 * (3.0 * r as real + 2.0) / 12.0 }
  function DownY(r: nat): real { 173.0 * (3.0 * r as real + 1.0) / 12.0 }

  /** The canonical layout row by row, with every coordinate written out. */
  function TableRow0(): seq<Centroid>
  {
    [Centroid(100.0, UpY(0), 0)]
  }

  function TableRow1(): seq<Centroid>
  {
    [Centroid(75.0, UpY(1), 1), Centroid(100.0, DownY(1), 2), Centroid(125.0, UpY(1), 3)]
  }

  function TableRow2(): seq<Centroid>
  {
    [ Centroid(50.0, UpY(2), 4), Centroid(75.0, DownY(2), 5), Centroid(100.0, UpY(2), 6),
      Centroid(125.0, DownY(2), 7), Centroid(150.0, UpY(2), 8) ]
  }

  function TableRow3(): seq<Centroid>
  {
    [ Centroid(25.0, UpY(3), 9), Centroid(50.0, DownY(3), 10), Centroid(75.0, UpY(3), 11),
      Centroid(100.0, DownY(3), 12), Centroid(125.0, UpY(3), 13), Centroid(150.0, DownY(3), 14),
      Centroid(175.0, UpY(3), 15) ]
  }

  function LayoutTable(): seq<Centroid>
  {
    TableRow0() + TableRow1() + TableRow2() + TableRow3()
  }

  /** The table generateCentroids builds, entry by entry. */
  lemma LayoutIsTable()
    ensures CanonicalLayout() == LayoutTable()
  {
    var r0, r1, r2, r3 := Row(0, 0), Row(1, 1), Row(2, 4), Row(3, 9);
    assert r0[0] == TableRow0()[0];
    assert r0 == TableRow0();
    assert r1[0] == TableRow1()[0] && r1[1] == TableRow1()[1] && r1[2] == TableRow1()[2];
    assert r1 == TableRow1();
    assert r2[0] == TableRow2()[0] && r2[1] == TableRow2()[1] && r2[2] == TableRow2()[2];
    assert r2[3] == TableRow2()[3] && r2[4] == TableRow2()[4];
    assert r2 == TableRow2();
    assert r3[0] == TableRow3()[0] && r3[1] == TableRow3()[1] && r3[2] == TableRow3()[2];
    assert r3[3] == TableRow3()[3] && r3[4] == TableRow3()[4] && r3[5] == TableRow3()[5];
    assert r3[6] == TableRow3()[6];
    assert r3 == TableRow3();
    assert RowsUpTo(1) == r0;
    assert RowsUpTo(2) == r0 + r1;
    assert RowsUpTo(3) == r0 + r1 + r2;
    assert RowsUpTo(4) == r0 + r1 + r2 + r3;
  }

  /** A cell index is one of 0, 1, ..., 15. */
  lemma SmallIndex(i: int)
    requires 0 <= i < CellCount
    ensures i == 0 || i == 1 || i == 2 || i == 3 || i == 4 || i == 5 || i == 6 || i == 7 ||
            i == 8 || i == 9 || i == 10 || i == 11 || i == 12 || i == 13 || i == 14 || i == 15
  {
  }
}
