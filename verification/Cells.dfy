/** Cell arithmetic (pkg/spatial/hash.go): the 16 x 16 grid over latitude and longitude. */
module Cells {
  import opened Words
  import opened Seqs

  const LAT_STEP: real := 11.25  // 180 / 16
  const LNG_STEP: real := 22.5   // 360 / 16

  /** Go's conversion from float64 to int32, which truncates toward zero. */
  function Trunc(r: real): int {
    if r >= 0.0 then r.Floor else -((-r).Floor)
  }

  function Clamp(x: int): (c: nat)
    ensures c < 16
  {
    if x > 15 then 15 else if x < 0 then 0 else x
  }

  function RowOf(lat: real): (r: nat)
    ensures r < 16
  {
    Clamp(Trunc((lat + 90.0) / 180.0 * 16.0))
  }

  function ColumnOf(lng: real): (c: nat)
    ensures c < 16
  {
    Clamp(Trunc((lng + 180.0) / 360.0 * 16.0))
  }

  function ShardKey(lat: real, lng: real): UInt8 {
    16 * RowOf(lat) + ColumnOf(lng)
  }

  /** The key of row ix and column iy; masking with 0x0F is the Euclidean remainder, also below 0. */
  function Key(ix: int, iy: int): UInt8 {
    16 * (ix % 16) + iy % 16
  }

  /** The latitude-longitude box that ShardsForRadius covers. */
  datatype Box = Box(latMin: real, latMax: real, lngMin: real, lngMax: real) {
    function FirstRow(): int { ((latMin + 90.0) / LAT_STEP).Floor }
    function LastRow(): int { ((latMax + 90.0) / LAT_STEP).Floor }
    function FirstColumn(): int { ((lngMin + 180.0) / LNG_STEP).Floor }
    function LastColumn(): int { ((lngMax + 180.0) / LNG_STEP).Floor }
    function Rows(): nat { if LastRow() < FirstRow() then 0 else LastRow() - FirstRow() + 1 }
    function Columns(): nat { if LastColumn() < FirstColumn() then 0 else LastColumn() - FirstColumn() + 1 }
  }

  function BoxAround(lat: real, lng: real, radiusM: real, cosLat: real): Box
    requires cosLat != 0.0
  {
    var dLat := radiusM * (1.0 / 111320.0);
    var dLng := radiusM * (1.0 / (111320.0 * cosLat));
    Box(if lat - dLat < -90.0 then -90.0 else lat - dLat,
        if lat + dLat > 90.0 then 90.0 else lat + dLat,
        lng - dLng, lng + dLng)
  }

  function Visit(seen: seq<UInt8>, key: UInt8): seq<UInt8> {
    if key in seen then seen else seen + [key]
  }

  /** seen after visiting n columns of row ix, from column iy on. */
  function SweepRow(seen: seq<UInt8>, ix: int, iy: int, n: nat): seq<UInt8> {
    if n == 0 then seen else Visit(SweepRow(seen, ix, iy, n - 1), Key(ix, iy + n - 1))
  }

  /** seen after visiting m rows of n columns each. */
  function Sweep(seen: seq<UInt8>, ix: int, m: nat, iy: int, n: nat): seq<UInt8> {
    if m == 0 then seen else SweepRow(Sweep(seen, ix, m - 1, iy, n), ix + m - 1, iy, n)
  }

  /** The cells of a box, in the order in which ShardsForRadius finds them. */
  function Cover(b: Box): seq<UInt8> {
    Sweep([], b.FirstRow(), b.Rows(), b.FirstColumn(), b.Columns())
  }

  // ----- what the sweep finds -----

  lemma {:induction false} SweepRowFinds(seen: seq<UInt8>, ix: int, iy: int, n: nat, key: UInt8)
    requires NoDuplicates(seen)
    ensures NoDuplicates(SweepRow(seen, ix, iy, n))
    ensures key in SweepRow(seen, ix, iy, n) <==>
            key in seen || exists j :: iy <= j < iy + n && key == Key(ix, j)
  {
    if n == 0 {
    } else {
      SweepRowFinds(seen, ix, iy, n - 1, key);
      assert key == Key(ix, iy + n - 1) ==> exists j :: iy <= j < iy + n && key == Key(ix, j);
    }
  }

  lemma {:induction false} SweepFinds(seen: seq<UInt8>, ix: int, m: nat, iy: int, n: nat, key: UInt8)
    requires NoDuplicates(seen)
    ensures NoDuplicates(Sweep(seen, ix, m, iy, n))
    ensures key in Sweep(seen, ix, m, iy, n) <==>
            key in seen || exists i, j :: ix <= i < ix + m && iy <= j < iy + n && key == Key(i, j)
  {
    if m == 0 {
    } else {
      var earlier := Sweep(seen, ix, m - 1, iy, n);
      SweepFinds(seen, ix, m - 1, iy, n, key);
      SweepRowFinds(earlier, ix + m - 1, iy, n, key);
    }
  }

  /** The cover holds exactly the masked keys of the box's rows and columns, none twice. */
  lemma CoverFinds(b: Box, key: UInt8)
    ensures NoDuplicates(Cover(b))
    ensures key in Cover(b) <==>
            exists i, j ::
              b.FirstRow() <= i <= b.LastRow() && b.FirstColumn() <= j <= b.LastColumn() && key == Key(i, j)
  {
    SweepFinds([], b.FirstRow(), b.Rows(), b.FirstColumn(), b.Columns(), key);
  }

  // ----- how many cells it finds -----

  /** Fewer than 16 consecutive columns before iy + n have other keys. */
  lemma OtherColumns(ix: int, iy: int, n: nat)
    requires n < 16
    ensures forall j :: iy <= j < iy + n ==> Key(ix, j) != Key(ix, iy + n)
  {
  }

  /** Sweeping a row that seen does not touch adds one cell for each of up to 16 columns. */
  lemma {:induction false} FreshRowLength(seen: seq<UInt8>, ix: int, iy: int, n: nat)
    requires NoDuplicates(seen)
    requires forall j :: Key(ix, j) !in seen
    ensures |SweepRow(seen, ix, iy, n)| == |seen| + Min(16, n)
  {
    if n == 0 {
    } else {
      FreshRowLength(seen, ix, iy, n - 1);
      SweepRowFinds(seen, ix, iy, n - 1, Key(ix, iy + n - 1));
      if n <= 16 {
        OtherColumns(ix, iy, n - 1);
      } else {
        assert Key(ix, iy + n - 17) == Key(ix, iy + n - 1);
      }
    }
  }

  /** Sweeping a row whose cells have all been seen adds nothing. */
  lemma {:induction false} SeenRowLength(seen: seq<UInt8>, ix: int, iy: int, n: nat)
    requires forall j :: iy <= j < iy + n ==> Key(ix, j) in seen
    ensures SweepRow(seen, ix, iy, n) == seen
  {
    if n == 0 {
    } else {
      SeenRowLength(seen, ix, iy, n - 1);
    }
  }

  /** Fewer than 16 consecutive rows before row have other keys. */
  lemma OtherRows(row: int, ix: int, m: nat, j: int)
    requires row == ix + m && m < 16
    ensures forall i, j' :: ix <= i < row ==> Key(i, j') != Key(row, j)
  {
  }

  /** Each of the first 16 rows adds min(16, n) cells, and no later row adds any. */
  lemma NextRowLength(ix: int, m: nat, iy: int, n: nat)
    ensures |Sweep([], ix, m + 1, iy, n)| == |Sweep([], ix, m, iy, n)| + if m < 16 then Min(16, n) else 0
  {
    var earlier, row := Sweep([], ix, m, iy, n), ix + m;
    SweepFinds([], ix, m, iy, n, 0);
    if m < 16 {
      forall j ensures Key(row, j) !in earlier {
        SweepFinds([], ix, m, iy, n, Key(row, j));
        OtherRows(row, ix, m, j);
      }
      FreshRowLength(earlier, row, iy, n);
    } else {
      forall j | iy <= j < iy + n ensures Key(row, j) in earlier {
        SweepFinds([], ix, m, iy, n, Key(row, j));
        assert Key(row - 16, j) == Key(row, j);
      }
      SeenRowLength(earlier, row, iy, n);
    }
  }

  lemma OneMore(k: nat, c: nat)
    ensures (k + 1) * c == k * c + c
  {
  }

  lemma {:induction false} SweepLength(ix: int, m: nat, iy: int, n: nat)
    ensures |Sweep([], ix, m, iy, n)| == Min(16, m) * Min(16, n)
  {
    if m == 0 {
    } else {
      SweepLength(ix, m - 1, iy, n);
      NextRowLength(ix, m - 1, iy, n);
      OneMore(m - 1, Min(16, n));
    }
  }

  /** A cover has min(16, rows) * min(16, columns) cells, however wide the box is. */
  lemma CoverLength(b: Box)
    ensures |Cover(b)| == Min(16, b.Rows()) * Min(16, b.Columns())
  {
    SweepLength(b.FirstRow(), b.Rows(), b.FirstColumn(), b.Columns());
  }

  // ----- the cover against ShardKey -----

  /** Some 360-degree shift of the longitude lies in the box; the latitude does so itself. */
  ghost predicate InBox(b: Box, lat: real, lng: real, turns: int) {
    b.latMin <= lat <= b.latMax && b.lngMin <= lng + 360.0 * turns as real <= b.lngMax
  }

  /** A full turn is 16 columns. */
  lemma ShiftedColumn(lng: real, turns: int)
    ensures ((lng + 360.0 * turns as real + 180.0) / LNG_STEP).Floor == ((lng + 180.0) / LNG_STEP).Floor + 16 * turns
  {
  }

  /** Away from the two closing edges ShardKey is the masked row and column of the point. */
  lemma ShardKeyIsMasked(lat: real, lng: real, turns: int)
    requires -90.0 <= lat < 90.0 && -180.0 <= lng < 180.0
    ensures ShardKey(lat, lng) ==
            Key(((lat + 90.0) / LAT_STEP).Floor, ((lng + 360.0 * turns as real + 180.0) / LNG_STEP).Floor)
  {
    var column := ((lng + 180.0) / LNG_STEP).Floor;
    ShiftedColumn(lng, turns);
    assert 0 <= column <= 15;
    assert (column + 16 * turns) % 16 == column;
    assert (lat + 90.0) / 180.0 * 16.0 == (lat + 90.0) / LAT_STEP;
    assert (lng + 180.0) / 360.0 * 16.0 == (lng + 180.0) / LNG_STEP;
  }

  /** x is in band k of 16 bands of the given width, the first and last of which are open-ended. */
  predicate InBand(x: real, width: real, k: nat) {
    (k == 0 || k as real * width <= x) && (k == 15 || x < (k + 1) as real * width)
  }

  lemma BandOf(x: real, k: nat)
    requires k < 16
    ensures Clamp(Trunc(x)) == k <==> (k == 0 || k as real <= x) && (k == 15 || x < (k + 1) as real)
  {
  }

  /** Which points have a key, for any numbers whatever: 16 rows of 11.25 degrees from the south pole on, and in each 16
      columns of 22.5 degrees from -180 on; what lies beyond the map belongs to the cells at its edges. */
  lemma KeyLocates(lat: real, lng: real, r: nat, c: nat)
    requires r < 16 && c < 16
    ensures ShardKey(lat, lng) == 16 * r + c <==> InBand(lat + 90.0, 11.25, r) && InBand(lng + 180.0, 22.5, c)
  {
    BandOf((lat + 90.0) / 180.0 * 16.0, r);
    BandOf((lng + 180.0) / 360.0 * 16.0, c);
  }

  /** Some row, or some column, of the box masks to r, or to c. */
  ghost predicate ReachesRow(b: Box, r: nat) {
    exists i :: b.FirstRow() <= i <= b.LastRow() && i % 16 == r
  }

  ghost predicate ReachesColumn(b: Box, c: nat) {
    exists j :: b.FirstColumn() <= j <= b.LastColumn() && j % 16 == c
  }

  lemma CoverIsProduct(b: Box, r: nat, c: nat)
    requires r < 16 && c < 16
    ensures 16 * r + c in Cover(b) <==> ReachesRow(b, r) && ReachesColumn(b, c)
  {
    var key: UInt8 := 16 * r + c;
    CoverFinds(b, key);
    if ReachesRow(b, r) && ReachesColumn(b, c) {
      var i :| b.FirstRow() <= i <= b.LastRow() && i % 16 == r;
      var j :| b.FirstColumn() <= j <= b.LastColumn() && j % 16 == c;
      assert key == Key(i, j);
    }
    if key in Cover(b) {
      var i, j :| b.FirstRow() <= i <= b.LastRow() && b.FirstColumn() <= j <= b.LastColumn() && key == Key(i, j);
      assert i % 16 == r && j % 16 == c;
    }
  }

  /** The row that a latitude of the box clamps to is covered, but for the pole of a box that starts there. */
  lemma RowCovered(b: Box, lat: real)
    requires -90.0 <= b.latMin <= lat <= b.latMax && (lat < 90.0 || b.latMax <= 90.0)
    ensures ReachesRow(b, RowOf(lat)) <==> lat < 90.0 || b.latMin < 90.0
  {
    var i := ((lat + 90.0) / LAT_STEP).Floor;
    assert (lat + 90.0) / 180.0 * 16.0 == (lat + 90.0) / LAT_STEP;
    assert b.FirstRow() <= i <= b.LastRow();
    if lat < 90.0 {
      assert i % 16 == RowOf(lat);
    } else {
      assert RowOf(lat) == 15 && b.LastRow() == 16;
      assert b.latMin < 90.0 ==> b.FirstRow() <= 15 && 15 % 16 == 15;
    }
  }

  /** The column that a longitude of the box clamps to is covered if the longitude is on the map; beyond its edges
      it is the last or the first column, whatever the box reaches. */
  lemma ColumnCovered(b: Box, lng: real, turns: int)
    requires b.lngMin <= lng + 360.0 * turns as real <= b.lngMax
    ensures -180.0 <= lng < 180.0 ==> ReachesColumn(b, ColumnOf(lng))
    ensures lng >= 180.0 ==> ColumnOf(lng) == 15
    ensures lng < -180.0 ==> ColumnOf(lng) == 0
  {
    assert (lng + 180.0) / 360.0 * 16.0 == (lng + 180.0) / LNG_STEP;
    if -180.0 <= lng < 180.0 {
      var column := ((lng + 180.0) / LNG_STEP).Floor;
      ShiftedColumn(lng, turns);
      var j := column + 16 * turns;
      assert b.FirstColumn() <= j <= b.LastColumn();
      assert j % 16 == column;
    }
  }

  /** What it takes besides lying in the box: the pole's row and the edge columns are clamped to, but masked away. */
  ghost predicate Reaches(b: Box, lat: real, lng: real) {
    && (lat < 90.0 || b.latMin < 90.0)
    && (lng >= 180.0 ==> ReachesColumn(b, 15))
    && (lng < -180.0 ==> ReachesColumn(b, 0))
  }

  /** A point of the box, also across the antimeridian, is in a covered cell iff it is no pole of a box that starts
      there and, with a longitude beyond the map's edge, the box reaches the column that it clamps to. */
  lemma CoverContainsShardKey(b: Box, lat: real, lng: real, turns: int)
    requires -90.0 <= b.latMin && InBox(b, lat, lng, turns) && (lat < 90.0 || b.latMax <= 90.0)
    ensures ShardKey(lat, lng) in Cover(b) <==> Reaches(b, lat, lng)
  {
    hide Cover, RowOf, ColumnOf, ReachesRow, ReachesColumn;
    RowCovered(b, lat);
    ColumnCovered(b, lng, turns);
    CoverIsProduct(b, RowOf(lat), ColumnOf(lng));
  }

  /** The longitudes of column c, t full turns on, meet those of the box. */
  predicate Meets(b: Box, c: nat, t: int) {
    && c as real * LNG_STEP - 180.0 + 360.0 * t as real <= b.lngMax
    && b.lngMin < (c + 1) as real * LNG_STEP - 180.0 + 360.0 * t as real
  }

  lemma ColumnBound(lng: real, column: int)
    ensures ((lng + 180.0) / LNG_STEP).Floor < column <==> lng < column as real * LNG_STEP - 180.0
  {
  }

  lemma ColumnMeets(b: Box, c: nat, t: int)
    ensures Meets(b, c, t) <==> b.FirstColumn() <= 16 * t + c <= b.LastColumn()
  {
    ColumnBound(b.lngMin, 16 * t + c + 1);
    ColumnBound(b.lngMax, 16 * t + c);
  }

  /** The box reaches a column iff some full turn of the column's longitudes meets those of the box. */
  lemma ReachesColumnIff(b: Box, c: nat)
    requires c < 16
    ensures ReachesColumn(b, c) <==> exists t: int :: Meets(b, c, t)
  {
    if j :| b.FirstColumn() <= j <= b.LastColumn() && j % 16 == c {
      assert j == 16 * (j / 16) + c;
      ColumnMeets(b, c, j / 16);
      assert Meets(b, c, j / 16);
    }
    if t: int :| Meets(b, c, t) {
      ColumnMeets(b, c, t);
      assert (16 * t + c) % 16 == c;
    }
  }

  /** The box around a centre: latitudes are cut off at the poles, so no other hypothesis is left. */
  lemma RadiusCovers(lat: real, lng: real, radiusM: real, cosLat: real, plat: real, plng: real, turns: int)
    requires cosLat != 0.0 && InBox(BoxAround(lat, lng, radiusM, cosLat), plat, plng, turns)
    ensures
      var b := BoxAround(lat, lng, radiusM, cosLat);
      ShardKey(plat, plng) in Cover(b) <==> Reaches(b, plat, plng)
  {
    hide Cover, ShardKey, Reaches;
    CoverContainsShardKey(BoxAround(lat, lng, radiusM, cosLat), plat, plng, turns);
  }

  function Abs(x: real): real {
    if x < 0.0 then -x else x
  }

  /** A point between the poles is at most radiusM metres away in latitude, a degree of which is 111320 m, and some full
      turns on also in longitude, at the scale of the centre's latitude, whose cosine is cosLat. */
  predicate WithinMetres(lat: real, lng: real, radiusM: real, cosLat: real, plat: real, plng: real, turns: int) {
    && -90.0 <= plat <= 90.0
    && Abs(plat - lat) * 111320.0 <= radiusM
    && Abs(plng + 360.0 * turns as real - lng) * (111320.0 * Abs(cosLat)) <=
       if cosLat > 0.0 then radiusM else -radiusM
  }

  lemma Multiplied(x: real, y: real, d: real)
    requires x <= y && d > 0.0
    ensures x * d <= y * d
  {
  }

  lemma AtMost(x: real, r: real, scale: real)
    requires scale > 0.0
    ensures x <= r * (1.0 / scale) <==> x * scale <= r
  {
    var q := 1.0 / scale;
    assert q * scale == 1.0;
    assert q > 0.0;
    if x <= r * q {
      Multiplied(x, r * q, scale);
      assert r * q * scale == r * (q * scale);
    }
    if x * scale <= r {
      Multiplied(x * scale, r, q);
      assert x * scale * q == x * (q * scale);
    }
  }

  lemma AbsAtMost(x: real, r: real, scale: real)
    requires scale > 0.0
    ensures -(r * (1.0 / scale)) <= x <= r * (1.0 / scale) <==> Abs(x) * scale <= r
  {
    AtMost(x, r, scale);
    AtMost(-x, r, scale);
    if x < 0.0 {
      Multiplied(x, -x, scale);
    } else {
      Multiplied(-x, x, scale);
    }
  }

  lemma Reciprocal(x: real)
    requires x != 0.0
    ensures 1.0 / -x == -(1.0 / x)
  {
  }

  lemma LatitudeWithin(lat: real, plat: real, radiusM: real)
    ensures
      var dLat := radiusM * (1.0 / 111320.0);
      lat - dLat <= plat <= lat + dLat <==> Abs(plat - lat) * 111320.0 <= radiusM
  {
    AbsAtMost(plat - lat, radiusM, 111320.0);
  }

  lemma LongitudeWithin(lng: real, plng: real, radiusM: real, cosLat: real)
    requires cosLat != 0.0
    ensures
      var dLng := radiusM * (1.0 / (111320.0 * cosLat));
      lng - dLng <= plng <= lng + dLng <==>
        Abs(plng - lng) * (111320.0 * Abs(cosLat)) <= if cosLat > 0.0 then radiusM else -radiusM
  {
    var scale := 111320.0 * cosLat;
    if cosLat > 0.0 {
      AbsAtMost(plng - lng, radiusM, scale);
    } else {
      Reciprocal(scale);
      AbsAtMost(plng - lng, -radiusM, -scale);
      assert -radiusM * (1.0 / -scale) == radiusM * (1.0 / scale);
    }
  }

  /** The box of a circle in metres: its points are those within the radius in latitude and in longitude. A centre
      beyond a pole has a negative cosine; then no point is, unless the radius is 0. */
  lemma BoxIsWithinMetres(lat: real, lng: real, radiusM: real, cosLat: real, plat: real, plng: real, turns: int)
    requires cosLat != 0.0
    ensures InBox(BoxAround(lat, lng, radiusM, cosLat), plat, plng, turns) <==>
            WithinMetres(lat, lng, radiusM, cosLat, plat, plng, turns)
  {
    hide Abs;
    LatitudeWithin(lat, plat, radiusM);
    LongitudeWithin(lng, plng + 360.0 * turns as real, radiusM, cosLat);
  }

  /** The north pole clamps into row 15 but masks into row 0. */
  lemma NorthPoleCovered(b: Box, lng: real, turns: int)
    requires -90.0 <= b.latMin && b.latMax <= 90.0 && InBox(b, 90.0, lng, turns)
    ensures ShardKey(90.0, lng) in Cover(b) <==>
            b.latMin < 90.0 && (lng >= 180.0 ==> ReachesColumn(b, 15)) && (lng < -180.0 ==> ReachesColumn(b, 0))
  {
    hide Cover, ShardKey, ReachesColumn;
    CoverContainsShardKey(b, 90.0, lng, turns);
  }

  /** A range of columns around a multiple of 16 has a member congruent to 15 iff it reaches a neighbour of that
      kind. */
  lemma EdgeColumn(edge: int, turns: int, first: int, last: int)
    requires edge == 16 * turns + 16 && first <= edge <= last
    ensures (exists j :: first <= j <= last && j % 16 == 15) <==> first < edge || edge + 15 <= last
  {
    if first < edge {
      assert (edge - 1) % 16 == 15;
    } else if edge + 15 <= last {
      assert (edge + 15) % 16 == 15;
    }
  }

  /** Longitude 180 clamps into column 15 but masks into column 0: its key is covered iff the box reaches some column
      congruent to 15 on either side of it, and the latitude is covered. */
  lemma AntimeridianCovered(b: Box, lat: real, turns: int)
    requires -90.0 <= b.latMin && InBox(b, lat, 180.0, turns) && (lat < 90.0 || b.latMax <= 90.0)
    ensures ShardKey(lat, 180.0) in Cover(b) <==>
            && (lat < 90.0 || b.latMin < 90.0)
            && (b.lngMin < 180.0 + 360.0 * turns as real || 517.5 + 360.0 * turns as real <= b.lngMax)
  {
    var edge := 16 * turns + 16;
    hide Cover, ShardKey;
    CoverContainsShardKey(b, lat, 180.0, turns);
    ShiftedColumn(180.0, turns);
    assert b.FirstColumn() <= edge <= b.LastColumn();
    ColumnBound(b.lngMin, edge);
    ColumnBound(b.lngMax, edge + 15);
    EdgeColumn(edge, turns, b.FirstColumn(), b.LastColumn());
  }

  /** Beyond 180 the clamped key need not be covered: the point (0, 200) is the centre of a box that misses its key. */
  lemma BeyondTheEdge()
    ensures
      var b := BoxAround(0.0, 200.0, 100000.0, 1.0);
      InBox(b, 0.0, 200.0, 0) && ShardKey(0.0, 200.0) !in Cover(b)
  {
    hide Cover, ShardKey;
    var b := BoxAround(0.0, 200.0, 100000.0, 1.0);
    CoverContainsShardKey(b, 0.0, 200.0, 0);
    assert b.FirstColumn() == 16 && b.LastColumn() == 16;
  }

  // ----- the method -----

  lemma WithinMetresCovered(lat: real, lng: real, radiusM: real, cosLat: real)
    requires cosLat != 0.0
    ensures
      var b := BoxAround(lat, lng, radiusM, cosLat);
      forall plat, plng, turns: int :: WithinMetres(lat, lng, radiusM, cosLat, plat, plng, turns) ==>
        (ShardKey(plat, plng) in Cover(b) <==> Reaches(b, plat, plng))
  {
    hide Cover, ShardKey, Reaches, WithinMetres, BoxAround, InBox;
    forall plat, plng, turns: int | WithinMetres(lat, lng, radiusM, cosLat, plat, plng, turns)
      ensures ShardKey(plat, plng) in Cover(BoxAround(lat, lng, radiusM, cosLat)) <==>
              Reaches(BoxAround(lat, lng, radiusM, cosLat), plat, plng)
    {
      BoxIsWithinMetres(lat, lng, radiusM, cosLat, plat, plng, turns);
      RadiusCovers(lat, lng, radiusM, cosLat, plat, plng, turns);
    }
  }

  /** The keys of the box around a centre: in particular those of all points within the radius, but for the edges of
      the map. */
  method ShardsForRadius(lat: real, lng: real, radiusM: real, cosLat: real) returns (result: seq<UInt8>)
    requires cosLat != 0.0
    ensures result == Cover(BoxAround(lat, lng, radiusM, cosLat))
    ensures forall plat, plng, turns: int :: WithinMetres(lat, lng, radiusM, cosLat, plat, plng, turns) ==>
              (ShardKey(plat, plng) in result <==> Reaches(BoxAround(lat, lng, radiusM, cosLat), plat, plng))
  {
    var b := BoxAround(lat, lng, radiusM, cosLat);
    var latStart, latEnd := b.FirstRow(), b.LastRow();
    var lngStart, lngEnd := b.FirstColumn(), b.LastColumn();
    var seen := new bool[256](_ => false);
    result := [];
    var ix := latStart;
    while ix <= latEnd
      invariant latStart <= ix && ix <= latStart + b.Rows()
      invariant forall k: nat | k < 256 :: seen[k] <==> k in result
      invariant result == Sweep([], latStart, ix - latStart, lngStart, b.Columns())
    {
      ghost var before := result;
      var iy := lngStart;
      while iy <= lngEnd
        invariant lngStart <= iy && iy <= lngStart + b.Columns()
        invariant forall k: nat | k < 256 :: seen[k] <==> k in result
        invariant result == SweepRow(before, ix, lngStart, iy - lngStart)
      {
        var key := Key(ix, iy);
        if !seen[key] {
          seen[key] := true;
          result := result + [key];
        }
        iy := iy + 1;
      }
      ix := ix + 1;
    }
    WithinMetresCovered(lat, lng, radiusM, cosLat);
  }
}
