/**
 * The sigil reader: the two tables it builds at start-up (the centroid table
 * and the rotation maps) and decodeSigil, which orders the vertices of a
 * detected triangle, samples the warped image at the 16 centroids,
 * thresholds the samples and searches for the rotation.
 */
module Decoder {
  import opened Layout
  import opened Rotation
  import opened Threshold
  import opened Orientation

  /** The warped grey image: its size and its 8-bit pixels, read at (row, column). */
  datatype Image = Image(rows: int, cols: int, pixel: (int, int) -> Sample)

  /** The warp is WARP_SIZE columns wide and WARP_SIZE + 20 rows high. */
  const WarpCols: int := 200
  const WarpRows: int := 220

  /** Point c lies on the image: 0 <= x < cols and 0 <= y < rows. */
  predicate OnImage(img: Image, c: Centroid)
  {
    0.0 <= c.x < img.cols as real && 0.0 <= c.y < img.rows as real
  }

  /**
   * The sample of decodeSigil at centroid c: 0 off the image, otherwise the
   * pixel at the row and column that hold c (coordinates rounded down).
   */
  function SampleAt(img: Image, c: Centroid): (v: Sample)
    ensures !OnImage(img, c) ==> v == 0
    ensures OnImage(img, c) ==>
      0 <= c.y.Floor < img.rows && 0 <= c.x.Floor < img.cols && v == img.pixel(c.y.Floor, c.x.Floor)
  {
    if c.x < 0.0 || c.x >= img.cols as real || c.y < 0.0 || c.y >= img.rows as real then
      0
    else
      img.pixel(c.y.Floor, c.x.Floor)
  }

  /** The 16 samples of decodeSigil, one per centroid. */
  function SamplesOf(img: Image, cs: seq<Centroid>): (samples: seq<Sample>)
    requires |cs| >= CellCount
    ensures |samples| == CellCount
    ensures forall i :: 0 <= i < CellCount ==> samples[i] == SampleAt(img, cs[i])
  {
    seq(CellCount, i requires 0 <= i < CellCount => SampleAt(img, cs[i]))
  }

  /** The sampling loop of decodeSigil. */
  method SampleCentroids(img: Image, cs: seq<Centroid>) returns (samples: seq<Sample>)
    requires |cs| >= CellCount
    ensures samples == SamplesOf(img, cs)
  {
    samples := [];
    for i := 0 to CellCount
      invariant |samples| == i
      invariant forall i' :: 0 <= i' < i ==> samples[i'] == SampleAt(img, cs[i'])
    {
      var p := cs[i];
      if p.x < 0.0 || p.x >= img.cols as real || p.y < 0.0 || p.y >= img.rows as real {
        samples := samples + [0];
      } else {
        var pixel := img.pixel(p.y.Floor, p.x.Floor);
        samples := samples + [pixel];
      }
    }
  }

  /** A point strictly inside the canonical triangle lies on a warp-sized image. */
  lemma InsideTriangleOnWarp(img: Image, c: Centroid)
    requires img.rows == WarpRows && img.cols == WarpCols
    requires InsideTriangle(c)
    ensures OnImage(img, c)
  {
  }

  /**
   * On the warp-sized image every canonical centroid lies on the image, so
   * no sample of the canonical layout falls back to 0: each is the pixel
   * holding its centroid.
   */
  lemma CanonicalSamplesOnWarp(img: Image, i: int)
    requires img.rows == WarpRows && img.cols == WarpCols && 0 <= i < CellCount
    ensures |CanonicalLayout()| == CellCount
    ensures OnImage(img, CanonicalLayout()[i])
    ensures SamplesOf(img, CanonicalLayout())[i] ==
      img.pixel(CanonicalLayout()[i].y.Floor, CanonicalLayout()[i].x.Floor)
  {
    CentroidsInsideTriangle(i);
    InsideTriangleOnWarp(img, CanonicalLayout()[i]);
  }

  /** The index of the first vertex of least y. */
  function TopIndex(p: seq<Point>): (t: int)
    requires |p| == 3
    ensures 0 <= t < 3
    ensures forall i :: 0 <= i < 3 ==> p[t].y <= p[i].y
    ensures forall i :: 0 <= i < t ==> p[t].y < p[i].y
  {
    if p[0].y <= p[1].y && p[0].y <= p[2].y then 0 else if p[1].y <= p[2].y then 1 else 2
  }

  /** o lists each of the positions 0, 1, 2 exactly once. */
  predicate IsOrder3(o: seq<int>)
  {
    && |o| == 3
    && (forall i :: 0 <= i < 3 ==> 0 <= o[i] < 3)
    && o[0] != o[1] && o[0] != o[2] && o[1] != o[2]
  }

  /** The points of p taken in the order o. */
  function Reorder(p: seq<Point>, o: seq<int>): seq<Point>
    requires |p| == 3 && IsOrder3(o)
  {
    [p[o[0]], p[o[1]], p[o[2]]]
  }

  /**
   * The order in which a stable sort by y (trianglePts.sort with the
   * comparator a.y - b.y) leaves the three vertices: ascending in y, and
   * vertices of equal y in their original order.
   */
  function YOrder(p: seq<Point>): (o: seq<int>)
    requires |p| == 3
    ensures IsOrder3(o)
    ensures p[o[0]].y <= p[o[1]].y <= p[o[2]].y
    ensures forall i, j :: 0 <= i < j < 3 && p[o[i]].y == p[o[j]].y ==> o[i] < o[j]
    ensures o[0] == TopIndex(p)
  {
    var t := TopIndex(p);
    var a := if t == 0 then 1 else 0;
    var b := if t == 2 then 1 else 2;
    if p[b].y < p[a].y then [t, b, a] else [t, a, b]
  }

  /** Stability makes the sorted order unique: any stable ascending order of p is YOrder(p). */
  lemma {:induction false} YOrderUnique(p: seq<Point>, o: seq<int>)
    requires |p| == 3 && IsOrder3(o)
    requires p[o[0]].y <= p[o[1]].y <= p[o[2]].y
    requires forall i, j :: 0 <= i < j < 3 && p[o[i]].y == p[o[j]].y ==> o[i] < o[j]
    ensures o == YOrder(p)
  {
    var y := YOrder(p);
    assert o[0] == y[0];
    assert o[1] == y[1];
  }

  /**
   * Step 1 of decodeSigil: the order of the vertices after the sort by y and
   * the swap that puts the two lower vertices in order of x.  The first
   * vertex is the first of least y, and the second lies left of the third.
   */
  function VertexOrder(p: seq<Point>): (o: seq<int>)
    requires |p| == 3
    ensures IsOrder3(o)
    ensures o[0] == TopIndex(p)
    ensures p[o[0]].y <= p[o[1]].y && p[o[0]].y <= p[o[2]].y
    ensures p[o[1]].x <= p[o[2]].x
    ensures o[1..] == YOrder(p)[1..] || o[1..] == [YOrder(p)[2], YOrder(p)[1]]
  {
    var o := YOrder(p);
    if p[o[1]].x > p[o[2]].x then [o[0], o[2], o[1]] else o
  }

  /** Step 1 of decodeSigil, in place on the vertex array. */
  method OrderVertices(pts: array<Point>)
    requires pts.Length == 3
    modifies pts
    ensures pts[..] == Reorder(old(pts[..]), VertexOrder(old(pts[..])))
  {
    // Stable sort of the vertices by y.
    var sorted := Reorder(pts[..], YOrder(pts[..]));
    pts[0], pts[1], pts[2] := sorted[0], sorted[1], sorted[2];
    if pts[1].x > pts[2].x {
      var tmp := pts[1];
      pts[1] := pts[2];
      pts[2] := tmp;
    }
  }

  /**
   * A fresh reader, set up as onOpenCvReady does (centroids, then rotation
   * maps), never reports a turn: any result is rotation 0 with the bits as read.
   */
  method FreshReaderNeverTurns(s: real, pts: array<Point>, warp: seq<Point> -> ((int, int) -> Sample))
    returns (res: Option<Decoded>)
    requires IsSin120(s) && pts.Length == 3
    modifies pts
    ensures res.Some? ==> res.value.rotation == 0 && res.value.bits == res.value.raw
  {
    var reader := new SigilReader();
    reader.GenerateCentroids();
    LayoutShape();
    assert reader.centroids[..CellCount] == CanonicalLayout();
    reader.GenerateRotationMaps(s);
    assert reader.rotationMaps == StandardMaps();
    res := reader.DecodeSigil(pts, warp);
    AsWrittenNeverTurns(BitsOf(SamplesOf(Image(WarpRows, WarpCols, warp(pts[..])), reader.centroids)));
  }

  /** The centroid table and the rotation maps, built once at start-up. */
  class SigilReader {
    var centroids: seq<Centroid>
    var rotationMaps: map<int, seq<int>>

    /** Both tables start empty. */
    constructor ()
      ensures centroids == [] && rotationMaps == map[]
    {
      centroids := [];
      rotationMaps := map[];
    }

    /** generateCentroids: pushes the 16 centroids, row by row, left to right. */
    method GenerateCentroids()
      modifies this
      ensures centroids == old(centroids) + CanonicalLayout()
      ensures rotationMaps == old(rotationMaps)
    {
      var index := 0;
      var dy := WarpH as real / 4.0;
      for r := 0 to 4
        invariant index == r * r
        invariant centroids == old(centroids) + RowsUpTo(r)
        invariant rotationMaps == old(rotationMaps)
      {
        ghost var before := centroids;
        ghost var row := Row(r, r * r);
        var yTop := r as real * dy;
        for k := 0 to 2 * r + 1
          invariant index == r * r + k
          invariant centroids == before + row[..k]
          invariant rotationMaps == old(rotationMaps)
        {
          var cy;
          if k % 2 == 0 {
            cy := yTop + dy * (2.0 / 3.0);
          } else {
            cy := yTop + dy * (1.0 / 3.0);
          }
          var wTri := WarpSize / 4.0;
          var cx := WarpXc + (k - r) as real * (wTri / 2.0);
          RowPrefixGrows(r, k);
          LoopComputesCell(r, k, dy, yTop, cx, cy);
          centroids := centroids + [Centroid(cx, cy, index)];
          index := index + 1;
        }
        RowCompletes(r);
      }
    }

    /**
     * generateRotationMaps: key 0 gets the identity, keys 1 and 2 the maps of
     * the turns by 120 and 240 degrees; other keys are kept.  On the
     * canonical centroids the two turn maps are Map120 and Map240.
     */
    method GenerateRotationMaps(s: real)
      requires |centroids| >= CellCount && IsSin120(s)
      modifies this
      ensures centroids == old(centroids)
      ensures MapsBuilt(centroids, s, rotationMaps)
      ensures rotationMaps == old(rotationMaps)[0 := IdentityMap()][1 := rotationMaps[1]][2 := rotationMaps[2]]
      ensures centroids[..CellCount] == CanonicalLayout() ==>
        rotationMaps[1] == Map120() && rotationMaps[2] == Map240()
    {
      var cs := centroids;
      var m0 := IdentityMap();
      var m1 := GetMap(cs, Turn120(s));
      var m2 := GetMap(cs, Turn240(s));
      var maps := rotationMaps[0 := m0][1 := m1][2 := m2];
      BuildMaps(cs, s, maps);
      TurnMapsOfLayout(cs, s, m1, m2);
      rotationMaps := maps;
    }

    /**
     * decodeSigil: orders the vertices in place, samples the image warped
     * from them, thresholds at the median and searches for the rotation.
     * The warp itself is the collaborator warp, applied to the ordered
     * vertices.
     */
    method DecodeSigil(pts: array<Point>, warp: seq<Point> -> ((int, int) -> Sample)) returns (res: Option<Decoded>)
      requires pts.Length == 3 && |centroids| >= CellCount && ValidMaps(rotationMaps)
      modifies pts
      ensures pts[..] == Reorder(old(pts[..]), VertexOrder(old(pts[..])))
      ensures res == SearchFrom(SumIsTwo, BitsOf(SamplesOf(Image(WarpRows, WarpCols, warp(pts[..])), centroids)), rotationMaps, 0)
    {
      OrderVertices(pts);
      var warped := Image(WarpRows, WarpCols, warp(pts[..]));
      var samples := SampleCentroids(warped, centroids);
      var bits := Binarize(samples);
      res := FindOrientation(bits, rotationMaps);
    }
  }

  /** The coordinates generateCentroids computes for cell k of row r are those of Cell(r, k). */
  lemma LoopComputesCell(r: nat, k: nat, dy: real, yTop: real, cx: real, cy: real)
    requires dy == WarpH as real / 4.0 && yTop == r as real * dy
    requires cy == if k % 2 == 0 then yTop + dy * (2.0 / 3.0) else yTop + dy * (1.0 / 3.0)
    requires cx == WarpXc + (k - r) as real * (WarpSize / 4.0 / 2.0)
    ensures Cell(r, k, r * r + k) == Centroid(cx, cy, r * r + k)
  {
  }

  /**
   * maps holds what generateRotationMaps stores for centroid table cs: the
   * identity under key 0 and the maps of the turns by 120 and 240 degrees
   * under keys 1 and 2.
   */
  predicate MapsBuilt(cs: seq<Centroid>, s: real, maps: map<int, seq<int>>)
    requires |cs| >= CellCount
  {
    && ValidMaps(maps)
    && maps[0] == IdentityMap()
    && IsRotationMap(cs, Turn120(s), maps[1])
    && IsRotationMap(cs, Turn240(s), maps[2])
  }

  /** The three tables of generateRotationMaps, put under their keys, are what it promises to store. */
  lemma BuildMaps(cs: seq<Centroid>, s: real, maps: map<int, seq<int>>)
    requires |cs| >= CellCount
    requires 0 in maps && 1 in maps && 2 in maps && maps[0] == IdentityMap()
    requires IsRotationMap(cs, Turn120(s), maps[1]) && IsRotationMap(cs, Turn240(s), maps[2])
    ensures MapsBuilt(cs, s, maps)
  {
    RotationMapInRange(cs, Turn120(s), maps[1]);
    RotationMapInRange(cs, Turn240(s), maps[2]);
  }

  /** The first k + 1 cells of row r are its first k cells and then cell k. */
  lemma RowPrefixGrows(r: nat, k: nat)
    requires k < 2 * r + 1
    ensures Row(r, r * r)[..k + 1] == Row(r, r * r)[..k] + [Cell(r, k, r * r + k)]
  {
  }

  /** Once all 2r + 1 cells of row r are pushed, the table holds rows 0 .. r. */
  lemma RowCompletes(r: nat)
    ensures r * r + 2 * r + 1 == (r + 1) * (r + 1)
    ensures Row(r, r * r)[..2 * r + 1] == Row(r, r * r)
    ensures RowsUpTo(r + 1) == RowsUpTo(r) + Row(r, r * r)
  {
    RowsUpToLength(r + 1);
  }

  /** Only the first 16 centroids matter to the nearest search. */
  lemma PrefixNearest(cs: seq<Centroid>, p: Point, b: int)
    requires |cs| >= CellCount && IsNearest(cs, p, b)
    ensures IsNearest(cs[..CellCount], p, b)
  {
    var c16 := cs[..CellCount];
    assert forall j :: 0 <= j < CellCount ==> c16[j] == cs[j];
  }

  /** Only the first 16 centroids matter to a rotation map. */
  lemma PrefixRotationMap(cs: seq<Centroid>, t: Turn, m: seq<int>)
    requires |cs| >= CellCount && IsRotationMap(cs, t, m)
    ensures IsRotationMap(cs[..CellCount], t, m)
  {
    var c16 := cs[..CellCount];
    forall i | 0 <= i < CellCount ensures IsNearest(c16, Rotate(c16[i], Center(), t), m[i]) {
      assert c16[i] == cs[i];
      PrefixNearest(cs, Rotate(cs[i], Center(), t), m[i]);
    }
  }

  /** A centroid table that starts with the canonical layout yields Map120 and Map240. */
  lemma TurnMapsOfLayout(cs: seq<Centroid>, s: real, m1: seq<int>, m2: seq<int>)
    requires |cs| >= CellCount && IsSin120(s)
    requires IsRotationMap(cs, Turn120(s), m1) && IsRotationMap(cs, Turn240(s), m2)
    ensures cs[..CellCount] == CanonicalLayout() ==> m1 == Map120() && m2 == Map240()
  {
    if cs[..CellCount] != CanonicalLayout() {
      return;
    }
    PrefixRotationMap(cs, Turn120(s), m1);
    PrefixRotationMap(cs, Turn240(s), m2);
    Map120OfLayout(s);
    Map240OfLayout(s);
  }
}
