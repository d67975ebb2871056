/** Even-odd ray casting (pkg/geofence/fence.go), over exact reals. */
module Polygons {
  datatype Vertex = Vertex(lat: real, lng: real)

  predicate Xor(a: bool, b: bool) { a != b }

  /** The edge between a and b straddles the latitude (half-open: a vertex on it counts as below). */
  predicate Straddles(a: Vertex, b: Vertex, lat: real) {
    (a.lat > lat) != (b.lat > lat)
  }

  /** The longitude at which the line through a and b meets the latitude. */
  function Meets(a: Vertex, b: Vertex, lat: real): real
    requires a.lat != b.lat
  {
    (b.lng - a.lng) * (lat - a.lat) / (b.lat - a.lat) + a.lng
  }

  /** The test of one edge, as the loop of Contains makes it for vi == a and vj == b. */
  predicate Crosses(a: Vertex, b: Vertex, lat: real, lng: real) {
    Straddles(a, b, lat) && lng < Meets(a, b, lat)
  }

  /** Parity of the crossings of the open chain s[0], s[1], ..., each edge taken from its later end. */
  predicate Chain(s: seq<Vertex>, lat: real, lng: real) {
    if |s| < 2 then false
    else Xor(Chain(s[..|s| - 1], lat, lng), Crosses(s[|s| - 1], s[|s| - 2], lat, lng))
  }

  /** Parity of the crossings of the closed chain. */
  predicate Inside(s: seq<Vertex>, lat: real, lng: real) {
    |s| >= 3 && Xor(Crosses(s[0], s[|s| - 1], lat, lng), Chain(s, lat, lng))
  }

  method Contains(vertices: seq<Vertex>, lat: real, lng: real) returns (inside: bool)
    ensures inside == Inside(vertices, lat, lng)
  {
    hide Crosses;
    var n := |vertices|;
    if n < 3 {
      return false;
    }
    inside := false;
    var j := n - 1;
    var i := 0;
    while i < n
      invariant 0 <= i <= n
      invariant j == if i == 0 then n - 1 else i - 1
      invariant inside ==
                (i > 0 && Xor(Crosses(vertices[0], vertices[n - 1], lat, lng), Chain(vertices[..i], lat, lng)))
    {
      var vi, vj := vertices[i], vertices[j];
      if Crosses(vi, vj, lat, lng) {
        inside := !inside;
      }
      assert vertices[..i + 1][..i] == vertices[..i];
      j := i;
      i := i + 1;
    }
    assert vertices[..n] == vertices;
  }

  // ----- one edge -----

  lemma DivideBack(p: real, d: real)
    requires d != 0.0
    ensures p / d * d == p
  {
  }

  /** The defining equation of the meeting point. */
  lemma MeetsEquation(a: Vertex, b: Vertex, lat: real)
    requires a.lat != b.lat
    ensures (Meets(a, b, lat) - a.lng) * (b.lat - a.lat) == (b.lng - a.lng) * (lat - a.lat)
  {
    DivideBack((b.lng - a.lng) * (lat - a.lat), b.lat - a.lat);
  }

  /** It does not matter from which end an edge is looked at. */
  lemma MeetsSymmetric(a: Vertex, b: Vertex, lat: real)
    requires a.lat != b.lat
    ensures Meets(a, b, lat) == Meets(b, a, lat)
  {
  }

  lemma CrossesSymmetric(a: Vertex, b: Vertex, lat: real, lng: real)
    ensures Crosses(a, b, lat, lng) == Crosses(b, a, lat, lng)
  {
    hide Meets;
    if a.lat != b.lat {
      MeetsSymmetric(a, b, lat);
    }
  }

  lemma ProductNonNegative(x: real, y: real)
    requires x >= 0.0 && y >= 0.0
    ensures x * y >= 0.0
  {
  }

  lemma FactorNonNegative(x: real, y: real)
    requires y > 0.0 && x * y >= 0.0
    ensures x >= 0.0
  {
  }

  lemma MeanAbove(m: real, x: real, y: real, t: real, u: real, low: real)
    requires t >= 0.0 && u > 0.0
    requires (m - x) * (t + u) == (y - x) * t
    requires low <= x && low <= y
    ensures low <= m
  {
    ProductNonNegative(x - low, u);
    ProductNonNegative(y - low, t);
    calc {
      (m - low) * (t + u);
    ==
      (m - x) * (t + u) + (x - low) * (t + u);
    ==
      (y - x) * t + (x - low) * (t + u);
    ==
      (x - low) * u + (y - low) * t;
    }
    FactorNonNegative(m - low, t + u);
  }

  /** A weighted mean of x and y, with weights u and t, lies between them. */
  lemma Between(m: real, x: real, y: real, t: real, u: real, low: real, high: real)
    requires t >= 0.0 && u > 0.0
    requires (m - x) * (t + u) == (y - x) * t
    requires low <= x <= high && low <= y <= high
    ensures low <= m <= high
  {
    MeanAbove(m, x, y, t, u, low);
    MeanAbove(-m, -x, -y, t, u, -high);
  }

  lemma MeetsBetweenUpward(a: Vertex, b: Vertex, lat: real, low: real, high: real)
    requires a.lat <= lat < b.lat
    requires low <= a.lng <= high && low <= b.lng <= high
    ensures low <= Meets(a, b, lat) <= high
  {
    MeetsEquation(a, b, lat);
    Between(Meets(a, b, lat), a.lng, b.lng, lat - a.lat, b.lat - lat, low, high);
  }

  /** A straddling edge meets the latitude between its ends. */
  lemma MeetsBetween(a: Vertex, b: Vertex, lat: real, low: real, high: real)
    requires Straddles(a, b, lat)
    requires low <= a.lng <= high && low <= b.lng <= high
    ensures low <= Meets(a, b, lat) <= high
  {
    if a.lat > b.lat {
      MeetsSymmetric(a, b, lat);
      MeetsBetweenUpward(b, a, lat, low, high);
    } else {
      MeetsBetweenUpward(a, b, lat, low, high);
    }
  }

  // ----- which side of an edge -----

  /** Positive on one side of the line through a and b, negative on the other, 0 on the line. */
  function Side(a: Vertex, b: Vertex, lat: real, lng: real): real {
    (b.lng - a.lng) * (lat - a.lat) - (lng - a.lng) * (b.lat - a.lat)
  }

  lemma SideSwapped(a: Vertex, b: Vertex, lat: real, lng: real)
    ensures Side(b, a, lat, lng) == -Side(a, b, lat, lng)
  {
  }

  lemma SameSign(x: real, y: real)
    requires y > 0.0
    ensures x * y > 0.0 <==> x > 0.0
  {
  }

  lemma CrossesUpward(a: Vertex, b: Vertex, lat: real, lng: real)
    requires a.lat < b.lat
    ensures Crosses(a, b, lat, lng) <==> a.lat <= lat < b.lat && Side(a, b, lat, lng) > 0.0
  {
    MeetsEquation(a, b, lat);
    var m, d := Meets(a, b, lat), b.lat - a.lat;
    calc {
      (m - lng) * d;
    ==
      (m - a.lng) * d - (lng - a.lng) * d;
    ==
      Side(a, b, lat, lng);
    }
    SameSign(m - lng, d);
  }

  /** Without dividing: an edge is crossed iff its latitudes hold that of the point, the upper one excluded, and the
      point is on the western side of its line. */
  lemma CrossesIff(a: Vertex, b: Vertex, lat: real, lng: real)
    ensures Crosses(a, b, lat, lng) <==>
            || (a.lat <= lat < b.lat && Side(a, b, lat, lng) > 0.0)
            || (b.lat <= lat < a.lat && Side(a, b, lat, lng) < 0.0)
  {
    hide Side;
    if a.lat < b.lat {
      CrossesUpward(a, b, lat, lng);
    } else if b.lat < a.lat {
      CrossesUpward(b, a, lat, lng);
      CrossesSymmetric(a, b, lat, lng);
      SideSwapped(a, b, lat, lng);
    }
  }

  lemma Cancel(xa: real, ya: real, xb: real, yb: real, xc: real, yc: real)
    ensures (xb * yc - xc * yb) * ya + (xc * ya - xa * yc) * yb + (xa * yb - xb * ya) * yc == 0.0
  {
  }

  /** The sides of a triangle's edges, as weights, balance its vertices around the point. */
  lemma Barycentre(a: Vertex, b: Vertex, c: Vertex, lat: real, lng: real)
    ensures Side(b, c, lat, lng) * (a.lat - lat) + Side(c, a, lat, lng) * (b.lat - lat) +
            Side(a, b, lat, lng) * (c.lat - lat) == 0.0
  {
    var xa, xb, xc := a.lng - lng, b.lng - lng, c.lng - lng;
    var ya, yb, yc := a.lat - lat, b.lat - lat, c.lat - lat;
    assert Side(a, b, lat, lng) == xa * yb - xb * ya;
    assert Side(b, c, lat, lng) == xb * yc - xc * yb;
    assert Side(c, a, lat, lng) == xc * ya - xa * yc;
    Cancel(xa, ya, xb, yb, xc, yc);
  }

  lemma SignOfProduct(w: real, y: real)
    ensures w > 0.0 && y > 0.0 ==> w * y > 0.0
    ensures w < 0.0 && y > 0.0 ==> w * y < 0.0
    ensures w > 0.0 && y < 0.0 ==> w * y < 0.0
    ensures w < 0.0 && y < 0.0 ==> w * y > 0.0
    ensures w == 0.0 || y == 0.0 ==> w * y == 0.0
  {
  }

  /** What weights of one sign, or of both, mean for the latitudes that they balance. */
  lemma BalancedSigns(wa: real, ya: real, wb: real, yb: real, wc: real, yc: real)
    requires wa * ya + wb * yb + wc * yc == 0.0
    requires wa > 0.0 && wb > 0.0 && wc > 0.0
    ensures !(ya > 0.0 && yb > 0.0 && yc > 0.0)
    ensures ya <= 0.0 && yb <= 0.0 && yc <= 0.0 ==> ya == 0.0 && yb == 0.0 && yc == 0.0
  {
    SignOfProduct(wa, ya);
    SignOfProduct(wb, yb);
    SignOfProduct(wc, yc);
  }

  /** v is the vertex that lies alone above, or alone not above, the latitude; weights of both signs. */
  lemma LoneVertex(wu: real, yu: real, wv: real, yv: real, ww: real, yw: real)
    requires wu * yu + wv * yv + ww * yw == 0.0
    requires wu > 0.0 || wv > 0.0 || ww > 0.0
    requires wu < 0.0 || wv < 0.0 || ww < 0.0
    ensures yv > 0.0 && yu <= 0.0 && yw <= 0.0 ==> (ww > 0.0 <==> wu < 0.0)
    ensures yv <= 0.0 && yu > 0.0 && yw > 0.0 ==> (ww < 0.0 <==> wu > 0.0)
  {
    SignOfProduct(wu, yu);
    SignOfProduct(wv, yv);
    SignOfProduct(ww, yw);
  }

  predicate AllPositive(x: real, y: real, z: real) {
    x > 0.0 && y > 0.0 && z > 0.0
  }

  lemma TriangleParity(a: Vertex, b: Vertex, c: Vertex, lat: real, lng: real)
    ensures Inside([a, b, c], lat, lng) ==
            Xor(Crosses(a, b, lat, lng), Xor(Crosses(b, c, lat, lng), Crosses(c, a, lat, lng)))
  {
    hide Crosses;
    var s := [a, b, c];
    assert s[..2] == [a, b] && s[..2][..1] == [a];
    assert Chain(s[..2], lat, lng) == Crosses(b, a, lat, lng);
    CrossesSymmetric(a, b, lat, lng);
    CrossesSymmetric(b, c, lat, lng);
    CrossesSymmetric(c, a, lat, lng);
  }

  lemma OnTheLatitude(a: Vertex, b: Vertex, lat: real, lng: real)
    ensures a.lat == lat && b.lat == lat ==> Side(a, b, lat, lng) == 0.0
  {
  }

  lemma PositiveSides(a: Vertex, b: Vertex, c: Vertex, lat: real, lng: real)
    requires AllPositive(Side(a, b, lat, lng), Side(b, c, lat, lng), Side(c, a, lat, lng))
    ensures Inside([a, b, c], lat, lng)
  {
    Barycentre(a, b, c, lat, lng);
    BalancedSigns(Side(b, c, lat, lng), a.lat - lat, Side(c, a, lat, lng), b.lat - lat, Side(a, b, lat, lng),
                  c.lat - lat);
    TriangleParity(a, b, c, lat, lng);
    CrossesIff(a, b, lat, lng);
    CrossesIff(b, c, lat, lng);
    CrossesIff(c, a, lat, lng);
    OnTheLatitude(a, b, lat, lng);
  }

  /** A triangle of either orientation contains every point that is strictly on the same side of its three edges, and
      no point that is strictly on different sides of two of them. */
  lemma TriangleIsItsSides(a: Vertex, b: Vertex, c: Vertex, lat: real, lng: real)
    ensures
      var x, y, z := Side(a, b, lat, lng), Side(b, c, lat, lng), Side(c, a, lat, lng);
      && (AllPositive(x, y, z) || AllPositive(-x, -y, -z) ==> Inside([a, b, c], lat, lng))
      && ((x > 0.0 || y > 0.0 || z > 0.0) && (x < 0.0 || y < 0.0 || z < 0.0) ==> !Inside([a, b, c], lat, lng))
  {
    var x, y, z := Side(a, b, lat, lng), Side(b, c, lat, lng), Side(c, a, lat, lng);
    hide Side, Crosses, Inside;
    if AllPositive(x, y, z) {
      PositiveSides(a, b, c, lat, lng);
    } else if AllPositive(-x, -y, -z) {
      SideSwapped(a, b, lat, lng);
      SideSwapped(b, c, lat, lng);
      SideSwapped(c, a, lat, lng);
      PositiveSides(c, b, a, lat, lng);
      TriangleParity(a, b, c, lat, lng);
      TriangleParity(c, b, a, lat, lng);
      CrossesSymmetric(a, b, lat, lng);
      CrossesSymmetric(b, c, lat, lng);
      CrossesSymmetric(c, a, lat, lng);
    } else if (x > 0.0 || y > 0.0 || z > 0.0) && (x < 0.0 || y < 0.0 || z < 0.0) {
      Barycentre(a, b, c, lat, lng);
      var ya, yb, yc := a.lat - lat, b.lat - lat, c.lat - lat;
      LoneVertex(y, ya, z, yb, x, yc);
      LoneVertex(z, yb, x, yc, y, ya);
      LoneVertex(x, yc, y, ya, z, yb);
      TriangleParity(a, b, c, lat, lng);
      CrossesIff(a, b, lat, lng);
      CrossesIff(b, c, lat, lng);
      CrossesIff(c, a, lat, lng);
    }
  }

  // ----- invariances of the whole polygon -----

  lemma {:induction false} ChainAppend(s: seq<Vertex>, t: seq<Vertex>, lat: real, lng: real)
    requires s != [] && t != []
    ensures Chain(s + t, lat, lng) ==
            Xor(Xor(Chain(s, lat, lng), Crosses(t[0], s[|s| - 1], lat, lng)), Chain(t, lat, lng))
  {
    hide Crosses;
    var all := s + t;
    if |t| == 1 {
      assert all[..|all| - 1] == s;
    } else {
      ChainAppend(s, t[..|t| - 1], lat, lng);
      assert all[..|all| - 1] == s + t[..|t| - 1];
    }
  }

  function Reversed(s: seq<Vertex>): (r: seq<Vertex>)
    ensures |r| == |s|
  {
    if s == [] then [] else [s[|s| - 1]] + Reversed(s[..|s| - 1])
  }

  lemma {:induction false} ReversedEnds(s: seq<Vertex>)
    requires s != []
    ensures Reversed(s)[|s| - 1] == s[0]
  {
    if |s| > 1 {
      ReversedEnds(s[..|s| - 1]);
    }
  }

  lemma {:induction false} ChainReversed(s: seq<Vertex>, lat: real, lng: real)
    ensures Chain(Reversed(s), lat, lng) == Chain(s, lat, lng)
  {
    hide Crosses;
    if |s| >= 2 {
      var init := s[..|s| - 1];
      ChainReversed(init, lat, lng);
      ChainAppend([s[|s| - 1]], Reversed(init), lat, lng);
      CrossesSymmetric(s[|s| - 1], s[|s| - 2], lat, lng);
    } else if |s| == 1 {
      assert Reversed(s) == s;
    }
  }

  /** Listing the vertices backwards does not change the polygon. */
  lemma ReversalInvariant(s: seq<Vertex>, lat: real, lng: real)
    ensures Inside(Reversed(s), lat, lng) == Inside(s, lat, lng)
  {
    hide Crosses;
    if |s| >= 3 {
      ReversedEnds(s);
      ChainReversed(s, lat, lng);
      CrossesSymmetric(s[0], s[|s| - 1], lat, lng);
    }
  }

  /** Starting the list at another vertex does not change the polygon. */
  lemma RotationInvariant(s: seq<Vertex>, k: nat, lat: real, lng: real)
    requires k <= |s|
    ensures Inside(s[k..] + s[..k], lat, lng) == Inside(s, lat, lng)
  {
    hide Crosses;
    if |s| >= 3 && 0 < k < |s| {
      ChainAppend(s[k..], s[..k], lat, lng);
      ChainAppend(s[..k], s[k..], lat, lng);
      assert s[..k] + s[k..] == s;
      CrossesSymmetric(s[0], s[|s| - 1], lat, lng);
      CrossesSymmetric(s[k - 1], s[k], lat, lng);
    } else if k == 0 {
      assert s[k..] + s[..k] == s;
    } else if k == |s| {
      assert s[k..] + s[..k] == s;
    }
  }

  // ----- cutting a polygon -----

  /** Cutting along any diagonal s[0] -- s[k]: a point is inside the polygon iff it is inside exactly one
      of the two parts, whatever the shape of the polygon. */
  lemma DiagonalCut(s: seq<Vertex>, k: nat, lat: real, lng: real)
    requires 2 <= k && k + 2 <= |s|
    ensures Inside(s, lat, lng) == Xor(Inside(s[..k + 1], lat, lng), Inside([s[0]] + s[k..], lat, lng))
  {
    hide Crosses;
    var left, right := s[..k + 1], [s[0]] + s[k..];
    ChainAppend(s[..k], s[k..], lat, lng);
    assert s[..k] + s[k..] == s;
    assert left[..k] == s[..k];
    ChainAppend([s[0]], s[k..], lat, lng);
    CrossesSymmetric(s[0], s[k], lat, lng);
  }

  /** Parity over the fan triangles (s[0], s[i], s[i + 1]) for 1 <= i < k. */
  predicate Fan(s: seq<Vertex>, k: nat, lat: real, lng: real)
    requires 1 <= k < |s|
  {
    k > 1 && Xor(Fan(s, k - 1, lat, lng), Inside([s[0], s[k - 1], s[k]], lat, lng))
  }

  lemma {:induction false} FanOfPrefix(s: seq<Vertex>, k: nat, lat: real, lng: real)
    requires 2 <= k < |s|
    ensures Inside(s[..k + 1], lat, lng) == Fan(s, k, lat, lng)
  {
    hide Crosses, Chain, Inside;
    if k == 2 {
      assert s[..3] == [s[0], s[1], s[2]];
    } else {
      FanOfPrefix(s, k - 1, lat, lng);
      var p := s[..k + 1];
      DiagonalCut(p, k - 1, lat, lng);
      assert p[..k] == s[..k];
      assert [p[0]] + p[k - 1..] == [s[0], s[k - 1], s[k]];
    }
  }

  /** Ray casting equals the exclusive or over the fan triangles of any vertex list, convex or not. */
  lemma FanDecomposition(s: seq<Vertex>, lat: real, lng: real)
    requires |s| >= 3
    ensures Inside(s, lat, lng) == Fan(s, |s| - 1, lat, lng)
  {
    FanOfPrefix(s, |s| - 1, lat, lng);
    assert s[..|s|] == s;
  }

  // ----- the bounding box -----

  /** Parity of the straddling edges of the open chain. */
  predicate StraddleChain(s: seq<Vertex>, lat: real) {
    if |s| < 2 then false
    else Xor(StraddleChain(s[..|s| - 1], lat), Straddles(s[|s| - 1], s[|s| - 2], lat))
  }

  /** A chain straddles a latitude an odd number of times iff its ends lie on different sides. */
  lemma {:induction false} StraddleParity(s: seq<Vertex>, lat: real)
    requires s != []
    ensures StraddleChain(s, lat) == Straddles(s[|s| - 1], s[0], lat)
  {
    if |s| >= 2 {
      StraddleParity(s[..|s| - 1], lat);
    }
  }

  lemma EdgeWest(a: Vertex, b: Vertex, lat: real, lng: real)
    requires lng < a.lng && lng < b.lng
    ensures Crosses(a, b, lat, lng) == Straddles(a, b, lat)
  {
    if Straddles(a, b, lat) {
      MeetsBetween(a, b, lat, if a.lng < b.lng then a.lng else b.lng, if a.lng < b.lng then b.lng else a.lng);
    }
  }

  /** West of every vertex, every straddling edge is crossed. */
  lemma {:induction false} WestCrossesAll(s: seq<Vertex>, lat: real, lng: real)
    requires forall i :: 0 <= i < |s| ==> lng < s[i].lng
    ensures Chain(s, lat, lng) == StraddleChain(s, lat)
    ensures s != [] ==> Crosses(s[0], s[|s| - 1], lat, lng) == Straddles(s[0], s[|s| - 1], lat)
  {
    hide Meets;
    if s == [] {
    } else {
      EdgeWest(s[0], s[|s| - 1], lat, lng);
    }
    if |s| >= 2 {
      WestCrossesAll(s[..|s| - 1], lat, lng);
      EdgeWest(s[|s| - 1], s[|s| - 2], lat, lng);
    }
  }

  lemma EdgeEast(a: Vertex, b: Vertex, lat: real, lng: real)
    requires a.lng <= lng && b.lng <= lng
    ensures !Crosses(a, b, lat, lng)
  {
    if Straddles(a, b, lat) {
      MeetsBetween(a, b, lat, if a.lng < b.lng then a.lng else b.lng, if a.lng < b.lng then b.lng else a.lng);
    }
  }

  /** East of every vertex, or beside them, no edge is crossed. */
  lemma {:induction false} EastCrossesNone(s: seq<Vertex>, lat: real, lng: real)
    requires forall i :: 0 <= i < |s| ==> s[i].lng <= lng
    ensures !Chain(s, lat, lng)
    ensures s != [] ==> !Crosses(s[0], s[|s| - 1], lat, lng)
  {
    hide Meets;
    if s == [] {
    } else {
      EdgeEast(s[0], s[|s| - 1], lat, lng);
    }
    if |s| >= 2 {
      EastCrossesNone(s[..|s| - 1], lat, lng);
      EdgeEast(s[|s| - 1], s[|s| - 2], lat, lng);
    }
  }

  /** If all vertices are on one side of the latitude, no edge is crossed. */
  lemma {:induction false} OneSideCrossesNone(s: seq<Vertex>, lat: real, lng: real, above: bool)
    requires forall i :: 0 <= i < |s| ==> (s[i].lat > lat) == above
    ensures !Chain(s, lat, lng)
    ensures s != [] ==> !Crosses(s[0], s[|s| - 1], lat, lng)
  {
    hide Meets;
    if |s| >= 2 {
      OneSideCrossesNone(s[..|s| - 1], lat, lng, above);
    }
  }

  /** A polygon contains no point outside the half-open bounding box of its vertices: a contained point has
      a vertex at or below it and one above it, one at or west of it and one east of it. */
  lemma ContainedInBoundingBox(s: seq<Vertex>, lat: real, lng: real)
    requires Inside(s, lat, lng)
    ensures exists i :: 0 <= i < |s| && s[i].lat <= lat
    ensures exists i :: 0 <= i < |s| && lat < s[i].lat
    ensures exists i :: 0 <= i < |s| && s[i].lng <= lng
    ensures exists i :: 0 <= i < |s| && lng < s[i].lng
  {
    hide Meets;
    if forall i :: 0 <= i < |s| ==> s[i].lat > lat {
      OneSideCrossesNone(s, lat, lng, true);
    }
    if forall i :: 0 <= i < |s| ==> !(s[i].lat > lat) {
      OneSideCrossesNone(s, lat, lng, false);
    }
    if forall i :: 0 <= i < |s| ==> s[i].lng <= lng {
      EastCrossesNone(s, lat, lng);
    }
    if forall i :: 0 <= i < |s| ==> lng < s[i].lng {
      WestCrossesAll(s, lat, lng);
      StraddleParity(s, lat);
    }
  }

  lemma UprightEdge(a: Vertex, b: Vertex, lat: real, lng: real)
    requires a.lng == b.lng
    ensures Crosses(a, b, lat, lng) == (Straddles(a, b, lat) && lng < a.lng)
  {
  }

  /** An axis-parallel rectangle contains exactly its half-open box. */
  lemma RectangleIsBox(south: real, north: real, west: real, east: real, lat: real, lng: real)
    requires south < north && west < east
    ensures Inside([Vertex(south, west), Vertex(south, east), Vertex(north, east), Vertex(north, west)], lat, lng) <==>
            south <= lat < north && west <= lng < east
  {
    var sw, se, ne, nw := Vertex(south, west), Vertex(south, east), Vertex(north, east), Vertex(north, west);
    var s := [sw, se, ne, nw];
    assert s[..3] == [sw, se, ne] && s[..3][..2] == [sw, se];
    assert Chain(s[..3][..2], lat, lng) == Crosses(se, sw, lat, lng);
    assert Chain(s, lat, lng) ==
           Xor(Xor(Crosses(se, sw, lat, lng), Crosses(ne, se, lat, lng)), Crosses(nw, ne, lat, lng));
    UprightEdge(ne, se, lat, lng);
    UprightEdge(sw, nw, lat, lng);
  }
}
