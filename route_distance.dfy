/**
 * The route's length as App computes it: `calculateTotalDistance` adds the
 * leg distances of consecutive waypoints from left to right. The leg
 * distance itself (the Haversine formula `calculateDistance`, in nautical
 * miles) is taken as a given function `dist` and never looked into.
 */
module RouteDistance {
  import JsArray

  /** A waypoint `{ lat, lng }` in degrees. */
  datatype Waypoint = Waypoint(lat: real, lng: real)

  /** The great-circle distance between two waypoints, as `calculateDistance` gives it. */
  type LegDistance = (Waypoint, Waypoint) -> real

  /** The sum of the leg distances of consecutive waypoints, adding the legs from first to last. */
  function PathLength(points: seq<Waypoint>, dist: LegDistance): real
  {
    if |points| < 2 then 0.0
    else PathLength(points[..|points| - 1], dist) + dist(points[|points| - 2], points[|points| - 1])
  }

  /** `calculateTotalDistance(points)`: 0 for fewer than two points, else the running total of all legs. */
  method CalculateTotalDistance(points: seq<Waypoint>, dist: LegDistance) returns (total: real)
    ensures total == PathLength(points, dist)
    ensures |points| < 2 ==> total == 0.0
  {
    if |points| < 2 {
      return 0.0;
    }
    total := 0.0;
    for i := 0 to |points| - 1
      invariant total == PathLength(points[..i + 1], dist)
    {
      assert points[..i + 2][..i + 1] == points[..i + 1];
      total := total + dist(points[i], points[i + 1]);
    }
    assert points[..|points|] == points;
  }

  /** The legs of a leg-distance function are never negative (the Haversine distance is `R * c` with `c >= 0`). */
  ghost predicate NonNegative(dist: LegDistance)
  {
    forall a, b :: dist(a, b) >= 0.0
  }

  /** The leg-distance function respects the triangle inequality, as the great-circle distance on a sphere does. */
  ghost predicate Triangle(dist: LegDistance)
  {
    forall a, b, c :: dist(a, c) <= dist(a, b) + dist(b, c)
  }

  /** A route whose legs are never negative has a total that is never negative. */
  lemma {:induction false} PathLengthNonNegative(points: seq<Waypoint>, dist: LegDistance)
    requires NonNegative(dist)
    ensures PathLength(points, dist) >= 0.0
  {
    if |points| >= 2 {
      PathLengthNonNegative(points[..|points| - 1], dist);
    }
  }

  /** Appending a waypoint adds exactly the one new leg. */
  lemma PathLengthAppend(points: seq<Waypoint>, p: Waypoint, dist: LegDistance)
    requires |points| >= 1
    ensures PathLength(points + [p], dist) == PathLength(points, dist) + dist(points[|points| - 1], p)
  {
    assert (points + [p])[..|points|] == points;
  }

  /** The length of two routes joined end to start: both lengths plus the leg that joins them. */
  lemma {:induction false} PathLengthConcat(a: seq<Waypoint>, b: seq<Waypoint>, dist: LegDistance)
    requires |a| >= 1 && |b| >= 1
    ensures PathLength(a + b, dist) == PathLength(a, dist) + dist(a[|a| - 1], b[0]) + PathLength(b, dist)
    decreases |b|
  {
    if |b| == 1 {
      PathLengthAppend(a, b[0], dist);
      assert a + b == a + [b[0]];
    } else {
      var init := b[..|b| - 1];
      assert a + b == (a + init) + [b[|b| - 1]];
      PathLengthAppend(a + init, b[|b| - 1], dist);
      PathLengthConcat(a, init, dist);
      assert (a + init)[|a + init| - 1] == b[|b| - 2];
    }
  }

  /** The length of a route is its first leg plus the length of the rest. */
  lemma PathLengthFront(points: seq<Waypoint>, dist: LegDistance)
    requires |points| >= 2
    ensures PathLength(points, dist) == dist(points[0], points[1]) + PathLength(points[1..], dist)
  {
    PathLengthConcat([points[0]], points[1..], dist);
    assert [points[0]] + points[1..] == points;
  }

  /** The length of `s` split around position `i`: the part up to `i`, the part from `i`, meeting at `s[i]`. */
  lemma PathLengthSplit(s: seq<Waypoint>, i: nat, dist: LegDistance)
    requires i < |s|
    ensures PathLength(s, dist) == PathLength(s[..i + 1], dist) + PathLength(s[i..], dist)
  {
    if i == 0 {
      assert s[0..] == s;
    } else if i == |s| - 1 {
      assert s[..i + 1] == s;
    } else {
      PathLengthConcat(s[..i + 1], s[i + 1..], dist);
      assert s[..i + 1] + s[i + 1..] == s;
      PathLengthFront(s[i..], dist);
      assert s[i..][1..] == s[i + 1..];
    }
  }

  /**
   * Removing an interior waypoint replaces its two legs by the one leg that
   * joins its neighbours; removing the first or the last drops one leg.
   */
  lemma RemoveLength(s: seq<Waypoint>, i: nat, dist: LegDistance)
    requires i < |s| && |s| >= 2
    ensures 0 < i < |s| - 1 ==>
      PathLength(JsArray.WithoutIndex(s, i), dist)
        == PathLength(s, dist) - dist(s[i - 1], s[i]) - dist(s[i], s[i + 1]) + dist(s[i - 1], s[i + 1])
    ensures i == 0 ==> PathLength(JsArray.WithoutIndex(s, i), dist) == PathLength(s, dist) - dist(s[0], s[1])
    ensures i == |s| - 1 ==>
      PathLength(JsArray.WithoutIndex(s, i), dist) == PathLength(s, dist) - dist(s[i - 1], s[i])
  {
    var r := JsArray.WithoutIndex(s, i);
    if i == 0 {
      assert r == s[1..];
      PathLengthFront(s, dist);
    } else if i == |s| - 1 {
      assert r == s[..i];
      assert s[..i + 1] == s;
    } else {
      PathLengthSplit(s, i, dist);
      PathLengthFront(s[i..], dist);
      assert s[i..][1..] == s[i + 1..];
      assert s[..i + 1] == s[..i] + [s[i]];
      PathLengthAppend(s[..i], s[i], dist);
      PathLengthConcat(s[..i], s[i + 1..], dist);
    }
  }

  /** Inserting a waypoint inside a route replaces the leg it falls on by the two legs through it. */
  lemma InsertLength(s: seq<Waypoint>, i: nat, p: Waypoint, dist: LegDistance)
    requires 0 < i < |s|
    ensures PathLength(JsArray.SpliceInsert(s, i, p), dist)
         == PathLength(s, dist) - dist(s[i - 1], s[i]) + dist(s[i - 1], p) + dist(p, s[i])
  {
    var front, back := s[..i], s[i..];
    var withP := front + [p];
    assert JsArray.SpliceInsert(s, i, p) == withP + back;
    assert front[|front| - 1] == s[i - 1] && back[0] == s[i] && withP[|withP| - 1] == p;
    PathLengthAppend(front, p, dist);
    PathLengthConcat(withP, back, dist);
    PathLengthConcat(front, back, dist);
    assert front + back == s;
  }

  /** Moving an interior waypoint changes only the two legs that touch it. */
  lemma UpdateLength(s: seq<Waypoint>, i: nat, p: Waypoint, dist: LegDistance)
    requires 0 < i < |s| - 1
    ensures PathLength(s[i := p], dist)
         == PathLength(s, dist) - dist(s[i - 1], s[i]) - dist(s[i], s[i + 1]) + dist(s[i - 1], p) + dist(p, s[i + 1])
  {
    var t := s[i := p];
    RemoveLength(s, i, dist);
    RemoveLength(t, i, dist);
    assert JsArray.WithoutIndex(t, i) == JsArray.WithoutIndex(s, i);
  }

  /** Under the triangle inequality, removing a waypoint never makes the route longer. */
  lemma RemoveNeverLengthens(s: seq<Waypoint>, i: nat, dist: LegDistance)
    requires i < |s| && |s| >= 2
    requires NonNegative(dist) && Triangle(dist)
    ensures PathLength(JsArray.WithoutIndex(s, i), dist) <= PathLength(s, dist)
  {
    RemoveLength(s, i, dist);
    if 0 < i < |s| - 1 {
      assert dist(s[i - 1], s[i + 1]) <= dist(s[i - 1], s[i]) + dist(s[i], s[i + 1]);
    } else if i == 0 {
      assert dist(s[0], s[1]) >= 0.0;
    } else {
      assert dist(s[i - 1], s[i]) >= 0.0;
    }
  }

  /** Under the triangle inequality, inserting a waypoint inside the route never makes it shorter. */
  lemma InsertNeverShortens(s: seq<Waypoint>, i: nat, p: Waypoint, dist: LegDistance)
    requires 0 < i < |s|
    requires Triangle(dist)
    ensures PathLength(JsArray.SpliceInsert(s, i, p), dist) >= PathLength(s, dist)
  {
    InsertLength(s, i, p, dist);
    assert dist(s[i - 1], s[i]) <= dist(s[i - 1], p) + dist(p, s[i]);
  }
}
