/**
 * The rotation maps of the sigil reader: for a turn of the canonical triangle
 * about its own centroid, each cell is sent to the cell whose centroid lies
 * nearest to the turned position (generateRotationMaps / getMap).
 */
module Rotation {
  import opened Layout

  datatype Point = Point(x: real, y: real)

  /** A turn, given by the cosine and sine of its angle. */
  datatype Turn = Turn(cos: real, sin: real)

  /** The centroid of the canonical triangle, (WARP_XC, WARP_H * 2/3), about which cells are turned. */
  function Center(): Point
  {
    Point(WarpXc, WarpH as real * (2.0 / 3.0))
  }

  /** The position of centroid c after turning it by t about the point about. */
  function Rotate(c: Centroid, about: Point, t: Turn): Point
  {
    var dx := c.x - about.x;
    var dy := c.y - about.y;
    var rx := dx * t.cos - dy * t.sin;
    var ry := dx * t.sin + dy * t.cos;
    Point(rx + about.x, ry + about.y)
  }

  /** Squared Euclidean distance of centroid c from point p. */
  function Dist2(c: Centroid, p: Point): real
  {
    (c.x - p.x) * (c.x - p.x) + (c.y - p.y) * (c.y - p.y)
  }

  /**
   * b is the index, among the first 16 centroids of cs, of one nearest to p,
   * and the lowest such index: an earlier centroid is strictly farther.
   */
  predicate IsNearest(cs: seq<Centroid>, p: Point, b: int)
    requires |cs| >= CellCount
  {
    && 0 <= b < CellCount
    && (forall j :: 0 <= j < CellCount ==> Dist2(cs[b], p) <= Dist2(cs[j], p))
    && (forall j :: 0 <= j < b ==> Dist2(cs[b], p) < Dist2(cs[j], p))
  }

  /** At most one index is the lowest nearest one. */
  lemma NearestIsUnique(cs: seq<Centroid>, p: Point, b1: int, b2: int)
    requires |cs| >= CellCount
    requires IsNearest(cs, p, b1) && IsNearest(cs, p, b2)
    ensures b1 == b2
  {
    assert Dist2(cs[b1], p) <= Dist2(cs[b2], p) && Dist2(cs[b2], p) <= Dist2(cs[b1], p);
  }

  /** An index strictly nearer than every other one is the lowest nearest index, and the only one. */
  lemma StrictlyNearest(cs: seq<Centroid>, p: Point, b: int)
    requires |cs| >= CellCount && 0 <= b < CellCount
    requires forall j :: 0 <= j < CellCount && j != b ==> Dist2(cs[b], p) < Dist2(cs[j], p)
    ensures IsNearest(cs, p, b)
    ensures forall b' :: IsNearest(cs, p, b') ==> b' == b
  {
  }

  /**
   * The inner loop of getMap: a linear search over the 16 centroids that keeps
   * the first one of least squared distance.
   */
  method NearestCentroid(cs: seq<Centroid>, p: Point) returns (best: int)
    requires |cs| >= CellCount
    ensures IsNearest(cs, p, best)
  {
    best := -1;
    // getMap starts minDist at Infinity, which every distance undercuts;
    // here minDist is read only once best >= 0.
    var minDist := 0.0;
    for j := 0 to CellCount
      invariant j == 0 <==> best == -1
      invariant j > 0 ==> 0 <= best < j && minDist == Dist2(cs[best], p)
      invariant forall j' :: 0 <= j' < j ==> minDist <= Dist2(cs[j'], p)
      invariant forall j' :: 0 <= j' < best ==> minDist < Dist2(cs[j'], p)
    {
      var d := Dist2(cs[j], p);
      if best == -1 || d < minDist {
        minDist := d;
        best := j;
      }
    }
  }

  /** m sends each cell i to the lowest index of a centroid nearest to cell i turned by t about Center(). */
  predicate IsRotationMap(cs: seq<Centroid>, t: Turn, m: seq<int>)
    requires |cs| >= CellCount
  {
    |m| == CellCount &&
    forall i :: 0 <= i < CellCount ==> IsNearest(cs, Rotate(cs[i], Center(), t), m[i])
  }

  /** Every entry of a map built by nearest search is a cell index. */
  lemma RotationMapInRange(cs: seq<Centroid>, t: Turn, m: seq<int>)
    requires |cs| >= CellCount && IsRotationMap(cs, t, m)
    ensures forall i :: 0 <= i < CellCount ==> 0 <= m[i] < CellCount
  {
    forall i | 0 <= i < CellCount ensures 0 <= m[i] < CellCount {
      assert IsNearest(cs, Rotate(cs[i], Center(), t), m[i]);
    }
  }

  /** getMap: the map for one turn, filled in cell by cell. */
  method GetMap(cs: seq<Centroid>, t: Turn) returns (m: seq<int>)
    requires |cs| >= CellCount
    ensures IsRotationMap(cs, t, m)
  {
    var a := new int[CellCount];
    for i := 0 to CellCount
      invariant forall i' :: 0 <= i' < i ==> IsNearest(cs, Rotate(cs[i'], Center(), t), a[i'])
    {
      var p := Rotate(cs[i], Center(), t);
      var best := NearestCentroid(cs, p);
      a[i] := best;
    }
    // getMap never writes the table again once it is built, so its
    // contents are handed back.
    m := a[..];
  }

  /** rotationMaps[0]: the identity on 0..15. */
  function IdentityMap(): (m: seq<int>)
    ensures |m| == CellCount
  {
    seq(CellCount, i => i)
  }

  /** The zero turn leaves every point where it is. */
  lemma ZeroTurnFixes(c: Centroid)
    ensures Rotate(c, Center(), Turn(1.0, 0.0)) == Point(c.x, c.y)
  {
  }

  /**
   * The identity table is exactly what the nearest search yields for the zero
   * turn on the canonical layout, since no two cells share a centroid.
   */
  lemma IdentityIsZeroTurnMap()
    ensures |CanonicalLayout()| == CellCount
    ensures IsRotationMap(CanonicalLayout(), Turn(1.0, 0.0), IdentityMap())
  {
    LayoutShape();
    forall i | 0 <= i < CellCount
      ensures IsNearest(CanonicalLayout(), Rotate(CanonicalLayout()[i], Center(), Turn(1.0, 0.0)), i)
    {
      ZeroTurnNearestIsSelf(i);
    }
  }

  /** Under the zero turn, cell i is its own unique nearest cell. */
  lemma ZeroTurnNearestIsSelf(i: int)
    requires 0 <= i < CellCount
    ensures |CanonicalLayout()| == CellCount
    ensures IsNearest(CanonicalLayout(), Rotate(CanonicalLayout()[i], Center(), Turn(1.0, 0.0)), i)
  {
    LayoutShape();
    var cs := CanonicalLayout();
    var p := Rotate(cs[i], Center(), Turn(1.0, 0.0));
    ZeroTurnFixes(cs[i]);
    assert p == Point(cs[i].x, cs[i].y);
    forall j | 0 <= j < CellCount && j != i ensures Dist2(cs[i], p) < Dist2(cs[j], p) {
      CentroidsDistinct(i, j);
      DistinctPointsApart(cs[i], cs[j]);
    }
    StrictlyNearest(cs, p, i);
  }

  /** A centroid is at distance 0 from its own position and at positive distance from any other. */
  lemma DistinctPointsApart(c: Centroid, d: Centroid)
    requires c.x != d.x || c.y != d.y
    ensures Dist2(c, Point(c.x, c.y)) == 0.0
    ensures Dist2(d, Point(c.x, c.y)) > 0.0
  {
    var p := Point(c.x, c.y);
    assert Dist2(c, p) == 0.0 * 0.0 + 0.0 * 0.0;
    var a, b := d.x - c.x, d.y - c.y;
    calc {
      Dist2(d, p);
    ==
      a * a + b * b;
    > { SquaresPositive(a, b); }
      0.0;
    }
  }

  lemma SquaresPositive(a: real, b: real)
    requires a != 0.0 || b != 0.0
    ensures a * a + b * b > 0.0
  {
    if a != 0.0 {
      assert a * a > 0.0;
    } else {
      assert b * b > 0.0;
    }
  }

  /** s is the sine of 120 degrees: s > 0 and s * s = 3/4 (Math.sin(2 * Math.PI / 3)). */
  predicate IsSin120(s: real)
  {
    s > 0.0 && s * s == 0.75
  }

  /** The turn by 120 degrees: cosine -1/2, sine s. */
  function Turn120(s: real): Turn
  {
    Turn(-0.5, s)
  }

  /** The turn by 240 degrees: cosine -1/2, sine -s. */
  function Turn240(s: real): Turn
  {
    Turn(-0.5, -s)
  }

  /** sqrt(3)/2 lies between 0.866 and 0.8661. */
  lemma Sin120Bounds(s: real)
    requires IsSin120(s)
    ensures 0.866 < s < 0.8661
  {
  }

  /** Expanding both squares: the difference of two squared distances is affine in the point. */
  lemma Dist2Difference(c: Centroid, b: Centroid, p: Point)
    ensures Dist2(c, p) - Dist2(b, p) ==
      (c.x * c.x + c.y * c.y - b.x * b.x - b.y * b.y) - 2.0 * ((c.x - b.x) * p.x + (c.y - b.y) * p.y)
  {
  }

  /** Cell b is strictly nearer to p than every other of the 16 cells. */
  predicate StrictlyNearer(cs: seq<Centroid>, p: Point, b: int)
    requires |cs| >= CellCount
  {
    0 <= b < CellCount &&
    forall j :: 0 <= j < CellCount && j != b ==> Dist2(cs[b], p) < Dist2(cs[j], p)
  }

  /** The cell that cell k lands nearest to under the 120-degree turn of the canonical layout. */
  function Turned120Cell(k: int): int
  {
    match k
    case 0 => 15 case 1 => 8 case 2 => 14 case 3 => 13
    case 4 => 3 case 5 => 7 case 6 => 6 case 7 => 12
    case 8 => 11 case 9 => 0 case 10 => 2 case 11 => 1
    case 12 => 5 case 13 => 4 case 14 => 10 case _ => 9
  }

  /** The cell that cell k lands nearest to under the 240-degree turn of the canonical layout. */
  function Turned240Cell(k: int): int
  {
    match k
    case 0 => 9 case 1 => 11 case 2 => 10 case 3 => 4
    case 4 => 13 case 5 => 12 case 6 => 6 case 7 => 5
    case 8 => 1 case 9 => 15 case 10 => 14 case 11 => 8
    case 12 => 7 case 13 => 3 case 14 => 2 case _ => 0
  }

  /** The map the 120-degree turn yields on the canonical layout. */
  function Map120(): seq<int>
  {
    seq(CellCount, Turned120Cell)
  }

  /** The map the 240-degree turn yields on the canonical layout. */
  function Map240(): seq<int>
  {
    seq(CellCount, Turned240Cell)
  }

  /** Cell i turned by 120 degrees lies strictly nearest to cell Map120()[i]; cells 0 to 3. */
  lemma Turned120Cells0To3(s: real, i: int)
    requires 0.866 < s < 0.8661
    requires 0 <= i < 4
    ensures StrictlyNearer(LayoutTable(), Rotate(LayoutTable()[i], Center(), Turn120(s)), Map120()[i])
  {
    var cs, b := LayoutTable(), Map120()[i];
    var p := Rotate(cs[i], Center(), Turn120(s));
    SmallIndex(i);
    forall j | 0 <= j < CellCount && j != b ensures Dist2(cs[b], p) < Dist2(cs[j], p) {
      SmallIndex(j);
      Dist2Difference(cs[j], cs[b], p);
    }
  }

  /** As above, cells 4 to 7. */
  lemma Turned120Cells4To7(s: real, i: int)
    requires 0.866 < s < 0.8661
    requires 4 <= i < 8
    ensures StrictlyNearer(LayoutTable(), Rotate(LayoutTable()[i], Center(), Turn120(s)), Map120()[i])
  {
    var cs, b := LayoutTable(), Map120()[i];
    var p := Rotate(cs[i], Center(), Turn120(s));
    SmallIndex(i);
    forall j | 0 <= j < CellCount && j != b ensures Dist2(cs[b], p) < Dist2(cs[j], p) {
      SmallIndex(j);
      Dist2Difference(cs[j], cs[b], p);
    }
  }

  /** As above, cells 8 to 11. */
  lemma Turned120Cells8To11(s: real, i: int)
    requires 0.866 < s < 0.8661
    requires 8 <= i < 12
    ensures StrictlyNearer(LayoutTable(), Rotate(LayoutTable()[i], Center(), Turn120(s)), Map120()[i])
  {
    var cs, b := LayoutTable(), Map120()[i];
    var p := Rotate(cs[i], Center(), Turn120(s));
    SmallIndex(i);
    forall j | 0 <= j < CellCount && j != b ensures Dist2(cs[b], p) < Dist2(cs[j], p) {
      SmallIndex(j);
      Dist2Difference(cs[j], cs[b], p);
    }
  }

  /** As above, cells 12 to 15. */
  lemma Turned120Cells12To15(s: real, i: int)
    requires 0.866 < s < 0.8661
    requires 12 <= i < 16
    ensures StrictlyNearer(LayoutTable(), Rotate(LayoutTable()[i], Center(), Turn120(s)), Map120()[i])
  {
    var cs, b := LayoutTable(), Map120()[i];
    var p := Rotate(cs[i], Center(), Turn120(s));
    SmallIndex(i);
    forall j | 0 <= j < CellCount && j != b ensures Dist2(cs[b], p) < Dist2(cs[j], p) {
      SmallIndex(j);
      Dist2Difference(cs[j], cs[b], p);
    }
  }

  /** Every cell turned by 120 degrees lies strictly nearest to cell Map120()[i]. */
  lemma Turned120(s: real, i: int)
    requires 0.866 < s < 0.8661
    requires 0 <= i < CellCount
    ensures StrictlyNearer(LayoutTable(), Rotate(LayoutTable()[i], Center(), Turn120(s)), Map120()[i])
  {
    if i < 4 {
      Turned120Cells0To3(s, i);
    } else if i < 8 {
      Turned120Cells4To7(s, i);
    } else if i < 12 {
      Turned120Cells8To11(s, i);
    } else {
      Turned120Cells12To15(s, i);
    }
  }

  /** Cell i turned by 240 degrees lies strictly nearest to cell Map240()[i]; cells 0 to 3. */
  lemma Turned240Cells0To3(s: real, i: int)
    requires 0.866 < s < 0.8661
    requires 0 <= i < 4
    ensures StrictlyNearer(LayoutTable(), Rotate(LayoutTable()[i], Center(), Turn240(s)), Map240()[i])
  {
    var cs, b := LayoutTable(), Map240()[i];
    var p := Rotate(cs[i], Center(), Turn240(s));
    SmallIndex(i);
    forall j | 0 <= j < CellCount && j != b ensures Dist2(cs[b], p) < Dist2(cs[j], p) {
      SmallIndex(j);
      Dist2Difference(cs[j], cs[b], p);
    }
  }

  /** As above, cells 4 to 7. */
  lemma Turned240Cells4To7(s: real, i: int)
    requires 0.866 < s < 0.8661
    requires 4 <= i < 8
    ensures StrictlyNearer(LayoutTable(), Rotate(LayoutTable()[i], Center(), Turn240(s)), Map240()[i])
  {
    var cs, b := LayoutTable(), Map240()[i];
    var p := Rotate(cs[i], Center(), Turn240(s));
    SmallIndex(i);
    forall j | 0 <= j < CellCount && j != b ensures Dist2(cs[b], p) < Dist2(cs[j], p) {
      SmallIndex(j);
      Dist2Difference(cs[j], cs[b], p);
    }
  }

  /** As above, cells 8 to 11. */
  lemma Turned240Cells8To11(s: real, i: int)
    requires 0.866 < s < 0.8661
    requires 8 <= i < 12
    ensures StrictlyNearer(LayoutTable(), Rotate(LayoutTable()[i], Center(), Turn240(s)), Map240()[i])
  {
    var cs, b := LayoutTable(), Map240()[i];
    var p := Rotate(cs[i], Center(), Turn240(s));
    SmallIndex(i);
    forall j | 0 <= j < CellCount && j != b ensures Dist2(cs[b], p) < Dist2(cs[j], p) {
      SmallIndex(j);
      Dist2Difference(cs[j], cs[b], p);
    }
  }

  /** As above, cells 12 to 15. */
  lemma Turned240Cells12To15(s: real, i: int)
    requires 0.866 < s < 0.8661
    requires 12 <= i < 16
    ensures StrictlyNearer(LayoutTable(), Rotate(LayoutTable()[i], Center(), Turn240(s)), Map240()[i])
  {
    var cs, b := LayoutTable(), Map240()[i];
    var p := Rotate(cs[i], Center(), Turn240(s));
    SmallIndex(i);
    forall j | 0 <= j < CellCount && j != b ensures Dist2(cs[b], p) < Dist2(cs[j], p) {
      SmallIndex(j);
      Dist2Difference(cs[j], cs[b], p);
    }
  }

  /** Every cell turned by 240 degrees lies strictly nearest to cell Map240()[i]. */
  lemma Turned240(s: real, i: int)
    requires 0.866 < s < 0.8661
    requires 0 <= i < CellCount
    ensures StrictlyNearer(LayoutTable(), Rotate(LayoutTable()[i], Center(), Turn240(s)), Map240()[i])
  {
    if i < 4 {
      Turned240Cells0To3(s, i);
    } else if i < 8 {
      Turned240Cells4To7(s, i);
    } else if i < 12 {
      Turned240Cells8To11(s, i);
    } else {
      Turned240Cells12To15(s, i);
    }
  }

  /** A map whose every entry is the strictly nearest cell is the only map the nearest search can yield. */
  lemma StrictMapIsOnlyMap(cs: seq<Centroid>, t: Turn, m: seq<int>)
    requires |cs| >= CellCount && |m| == CellCount
    requires forall i :: 0 <= i < CellCount ==> StrictlyNearer(cs, Rotate(cs[i], Center(), t), m[i])
    ensures IsRotationMap(cs, t, m)
    ensures forall m' :: IsRotationMap(cs, t, m') ==> m' == m
  {
    forall i | 0 <= i < CellCount
      ensures IsNearest(cs, Rotate(cs[i], Center(), t), m[i])
      ensures forall b :: IsNearest(cs, Rotate(cs[i], Center(), t), b) ==> b == m[i]
    {
      StrictlyNearest(cs, Rotate(cs[i], Center(), t), m[i]);
    }
    forall m' | IsRotationMap(cs, t, m') ensures m' == m {
      forall i | 0 <= i < CellCount ensures m'[i] == m[i] {
        assert IsNearest(cs, Rotate(cs[i], Center(), t), m'[i]);
      }
    }
  }

  /** On the canonical layout the 120-degree turn yields Map120 and nothing else. */
  lemma Map120OfLayout(s: real)
    requires IsSin120(s)
    ensures |CanonicalLayout()| == CellCount
    ensures IsRotationMap(CanonicalLayout(), Turn120(s), Map120())
    ensures forall m :: IsRotationMap(CanonicalLayout(), Turn120(s), m) ==> m == Map120()
  {
    Sin120Bounds(s);
    LayoutIsTable();
    var cs := LayoutTable();
    forall i | 0 <= i < CellCount ensures StrictlyNearer(cs, Rotate(cs[i], Center(), Turn120(s)), Map120()[i]) {
      Turned120(s, i);
    }
    StrictMapIsOnlyMap(cs, Turn120(s), Map120());
  }

  /** On the canonical layout the 240-degree turn yields Map240 and nothing else. */
  lemma Map240OfLayout(s: real)
    requires IsSin120(s)
    ensures |CanonicalLayout()| == CellCount
    ensures IsRotationMap(CanonicalLayout(), Turn240(s), Map240())
    ensures forall m :: IsRotationMap(CanonicalLayout(), Turn240(s), m) ==> m == Map240()
  {
    Sin120Bounds(s);
    LayoutIsTable();
    var cs := LayoutTable();
    forall i | 0 <= i < CellCount ensures StrictlyNearer(cs, Rotate(cs[i], Center(), Turn240(s)), Map240()[i]) {
      Turned240(s, i);
    }
    StrictMapIsOnlyMap(cs, Turn240(s), Map240());
  }
}
