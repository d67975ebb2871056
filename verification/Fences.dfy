/** Fences, their cell index and the move evaluator (pkg/geofence/fence.go, store.go, evaluate.go). */
module Fences {
  import opened Words
  import opened Seqs
  import CellIndex
  import Cells
  import Polygons

  datatype Point = Point(lat: real, lng: real)

  function CellOf(p: Point): UInt8 {
    Cells.ShardKey(p.lat, p.lng)
  }

  /** The Fence interface: what an implementation answers. */
  datatype Fence = Fence(name: string, contains: (real, real) -> bool,
                         centerLat: real, centerLng: real, boundingRadius: real)
  {
    predicate Holds(p: Point) {
      contains(p.lat, p.lng)
    }
  }

  /** A circle; dist stands for the great-circle distance. */
  function Circle(name: string, lat: real, lng: real, radiusM: real, dist: (real, real, real, real) -> real): Fence {
    Fence(name, (plat: real, plng: real) => dist(lat, lng, plat, plng) <= radiusM, lat, lng, radiusM)
  }

  function SumLat(vs: seq<Polygons.Vertex>): real {
    if vs == [] then 0.0 else SumLat(vs[..|vs| - 1]) + vs[|vs| - 1].lat
  }

  function SumLng(vs: seq<Polygons.Vertex>): real {
    if vs == [] then 0.0 else SumLng(vs[..|vs| - 1]) + vs[|vs| - 1].lng
  }

  /** The sums are additive, and those of one vertex are its coordinates. */
  lemma {:induction false} SumsAdd(vs: seq<Polygons.Vertex>, ws: seq<Polygons.Vertex>)
    ensures SumLat(vs + ws) == SumLat(vs) + SumLat(ws) && SumLng(vs + ws) == SumLng(vs) + SumLng(ws)
    ensures forall v :: ws == [v] ==> SumLat(ws) == v.lat && SumLng(ws) == v.lng
  {
    if ws == [] {
      assert vs + ws == vs;
    } else {
      var init := ws[..|ws| - 1];
      SumsAdd(vs, init);
      assert (vs + ws)[..|vs + ws| - 1] == vs + init;
    }
  }

  /** The largest distance of a vertex from the centre. */
  method Farthest(vertices: seq<Polygons.Vertex>, lat: real, lng: real, dist: (real, real, real, real) -> real)
    returns (radius: real)
    ensures forall v :: v in vertices ==> dist(lat, lng, v.lat, v.lng) <= radius
    ensures radius == 0.0 || exists v :: v in vertices && dist(lat, lng, v.lat, v.lng) == radius
    ensures radius >= 0.0
  {
    radius := 0.0;
    var i := 0;
    while i < |vertices|
      invariant 0 <= i <= |vertices| && radius >= 0.0
      invariant forall v :: v in vertices[..i] ==> dist(lat, lng, v.lat, v.lng) <= radius
      invariant radius == 0.0 || exists v :: v in vertices && dist(lat, lng, v.lat, v.lng) == radius
    {
      var d := dist(lat, lng, vertices[i].lat, vertices[i].lng);
      assert vertices[i] in vertices;
      if d > radius {
        radius := d;
      }
      i := i + 1;
    }
    assert vertices[..i] == vertices;
  }

  /** A polygon, centred at the mean of its vertices, with the distance to the farthest one as its radius. Without
      vertices the centre is the quotient of zeros, which can be anything here. */
  method NewPolygon(name: string, vertices: seq<Polygons.Vertex>, dist: (real, real, real, real) -> real)
    returns (p: Fence)
    ensures p.name == name
    ensures forall lat, lng :: p.contains(lat, lng) == Polygons.Inside(vertices, lat, lng)
    ensures p.centerLat * |vertices| as real == SumLat(vertices)
    ensures p.centerLng * |vertices| as real == SumLng(vertices)
    ensures forall v :: v in vertices ==> dist(p.centerLat, p.centerLng, v.lat, v.lng) <= p.boundingRadius
    ensures p.boundingRadius == 0.0 ||
            exists v :: v in vertices && dist(p.centerLat, p.centerLng, v.lat, v.lng) == p.boundingRadius
    ensures p.boundingRadius >= 0.0
  {
    hide Polygons.Inside;
    var sumLat, sumLng := 0.0, 0.0;
    var i := 0;
    while i < |vertices|
      invariant 0 <= i <= |vertices|
      invariant sumLat == SumLat(vertices[..i]) && sumLng == SumLng(vertices[..i])
    {
      sumLat, sumLng := sumLat + vertices[i].lat, sumLng + vertices[i].lng;
      assert vertices[..i + 1][..i] == vertices[..i];
      i := i + 1;
    }
    assert vertices[..i] == vertices;
    var lat: real, lng: real := *, *;
    if vertices != [] {
      var n := |vertices| as real;
      lat, lng := sumLat / n, sumLng / n;
      Polygons.DivideBack(sumLat, n);
      Polygons.DivideBack(sumLng, n);
    }
    var radius := Farthest(vertices, lat, lng, dist);
    p := Fence(name, (lat: real, lng: real) => Polygons.Inside(vertices, lat, lng), lat, lng, radius);
  }

  // ----- the store -----

  /** The fences whose cover has the cell, by position, in registration order. */
  function IndexedAt(covers: seq<seq<UInt8>>, cell: UInt8): (r: seq<nat>)
    ensures forall i :: 0 <= i < |r| ==> r[i] < |covers|
  {
    if covers == [] then []
    else IndexedAt(covers[..|covers| - 1], cell) + if cell in covers[|covers| - 1] then [|covers| - 1] else []
  }

  /** The cell index lists exactly the fences that cover the cell, in registration order, none twice. */
  lemma {:induction false} IndexedAtFinds(covers: seq<seq<UInt8>>, cell: UInt8, i: nat)
    ensures i in IndexedAt(covers, cell) <==> i < |covers| && cell in covers[i]
    ensures forall j, k :: 0 <= j < k < |IndexedAt(covers, cell)| ==>
            IndexedAt(covers, cell)[j] < IndexedAt(covers, cell)[k]
  {
    if covers == [] {
    } else {
      IndexedAtFinds(covers[..|covers| - 1], cell, i);
    }
  }

  lemma IndexedAtOneMore(covers: seq<seq<UInt8>>, keys: seq<UInt8>)
    ensures forall c: UInt8 ::
              IndexedAt(covers + [keys], c) == IndexedAt(covers, c) + if c in keys then [|covers|] else []
  {
    assert (covers + [keys])[..|covers|] == covers;
  }

  function Select(fences: seq<Fence>, indices: seq<nat>): (r: seq<Fence>)
    requires forall i :: 0 <= i < |indices| ==> indices[i] < |fences|
    ensures |r| == |indices|
  {
    seq(|indices|, i requires 0 <= i < |indices| => fences[indices[i]])
  }

  function Near(fences: seq<Fence>, covers: seq<seq<UInt8>>, cell: UInt8): seq<Fence>
    requires |covers| == |fences|
  {
    Select(fences, IndexedAt(covers, cell))
  }

  class Store {
    var fences: seq<Fence>
    const index: array<seq<nat>>
    ghost var covers: seq<seq<UInt8>>  // the cells that each fence was registered for

    ghost predicate Valid()
      reads this, index
    {
      && index.Length == 256
      && |covers| == |fences|
      && forall c: UInt8 :: index[c] == IndexedAt(covers, c)
    }

    constructor ()
      ensures Valid() && fresh(index) && fences == [] && covers == []
    {
      fences, covers := [], [];
      index := new seq<nat>[256](_ => []);
    }

    /** cosLat is the cosine of the centre's latitude. */
    method Register(f: Fence, cosLat: real)
      requires Valid() && cosLat != 0.0
      modifies this, index
      ensures Valid()
      ensures fences == old(fences) + [f]
      ensures covers == old(covers) + [Cells.Cover(Cells.BoxAround(f.centerLat, f.centerLng, f.boundingRadius, cosLat))]
    {
      hide Cells.Cover, Cells.BoxAround, NoDuplicates, IndexedAt;
      var idx := |fences|;
      fences := fences + [f];
      var shardKeys := Cells.ShardsForRadius(f.centerLat, f.centerLng, f.boundingRadius, cosLat);
      Cells.CoverFinds(Cells.BoxAround(f.centerLat, f.centerLng, f.boundingRadius, cosLat), 0);
      IndexedAtOneMore(covers, shardKeys);
      covers := covers + [shardKeys];
      CellIndex.AppendTo<nat>(index, shardKeys, idx);
    }

    method FencesNear(lat: real, lng: real) returns (result: seq<Fence>)
      requires Valid()
      ensures result == Near(fences, covers, Cells.ShardKey(lat, lng))
    {
      hide Cells.ShardKey;
      var key := Cells.ShardKey(lat, lng);
      var indices := index[key];
      if |indices| == 0 {
        return [];
      }
      result := [];
      var i := 0;
      while i < |indices|
        invariant 0 <= i <= |indices|
        invariant |result| == i && forall k :: 0 <= k < i ==> result[k] == fences[indices[k]]
      {
        result := result + [fences[indices[i]]];
        i := i + 1;
      }
    }
  }

  // ----- the evaluator -----

  datatype EventType = Enter | Exit

  datatype FenceEvent = FenceEvent(entityId: UInt32, fenceName: string, eventType: EventType, lat: real, lng: real)

  /** What a move means for one fence; from is None for an entity without a position. */
  function Verdict(f: Fence, from: Option<Point>, to: Point): Option<EventType> {
    var was := from.Some? && f.Holds(from.value);
    var now := f.Holds(to);
    if !was && now then Some(Enter) else if was && !now then Some(Exit) else None
  }

  function EventsOf(id: UInt32, f: Fence, from: Option<Point>, to: Point): (es: seq<FenceEvent>)
    ensures |es| <= 1
  {
    match Verdict(f, from, to)
    case None => []
    case Some(t) => [FenceEvent(id, f.name, t, to.lat, to.lng)]
  }

  /** The naive evaluator: every given fence is looked at, in order. */
  function Scan(id: UInt32, fences: seq<Fence>, from: Option<Point>, to: Point): seq<FenceEvent> {
    if fences == [] then []
    else Scan(id, fences[..|fences| - 1], from, to) + EventsOf(id, fences[|fences| - 1], from, to)
  }

  /** Every event tells of the given entity, where it is now, and of a given fence that the move enters or leaves. */
  ghost predicate Tells(e: FenceEvent, id: UInt32, fences: seq<Fence>, from: Option<Point>, to: Point) {
    && e.entityId == id && e.lat == to.lat && e.lng == to.lng
    && exists f :: f in fences && f.name == e.fenceName &&
        f.contains(to.lat, to.lng) == (e.eventType == Enter) &&
        (from.Some? && f.contains(from.value.lat, from.value.lng)) == (e.eventType == Exit)
  }

  lemma {:induction false} ScanTells(id: UInt32, fences: seq<Fence>, from: Option<Point>, to: Point)
    ensures forall e :: e in Scan(id, fences, from, to) ==> Tells(e, id, fences, from, to)
  {
    if |fences| == 0 {
    } else {
      var init, last := fences[..|fences| - 1], fences[|fences| - 1];
      ScanTells(id, init, from, to);
      forall e | e in Scan(id, fences, from, to) ensures Tells(e, id, fences, from, to) {
        if e in Scan(id, init, from, to) {
          assert Tells(e, id, init, from, to);
          assert forall f :: f in init ==> f in fences;
        } else {
          assert last in fences;
        }
      }
    }
  }

  method EvaluateMove(store: Store, id: UInt32, from: Option<Point>, to: Point) returns (events: seq<FenceEvent>)
    requires store.Valid()
    ensures events == Scan(id, Near(store.fences, store.covers, CellOf(to)), from, to)
    ensures forall e :: e in events ==> Tells(e, id, Near(store.fences, store.covers, CellOf(to)), from, to)
  {
    hide Tells, Near, Cells.ShardKey;
    var nearTo := store.FencesNear(to.lat, to.lng);
    if |nearTo| == 0 && from.None? {
      return [];
    }
    events := [];
    var i := 0;
    while i < |nearTo|
      invariant 0 <= i <= |nearTo|
      invariant events == Scan(id, nearTo[..i], from, to)
    {
      var f := nearTo[i];
      assert nearTo[..i + 1][..i] == nearTo[..i];
      i := i + 1;
      var nowInside := f.contains(to.lat, to.lng);
      if from.None? {
        if nowInside {
          events := events + [FenceEvent(id, f.name, Enter, to.lat, to.lng)];
        }
        continue;
      }
      var wasInside := f.contains(from.value.lat, from.value.lng);
      if !wasInside && nowInside {
        events := events + [FenceEvent(id, f.name, Enter, to.lat, to.lng)];
      } else if wasInside && !nowInside {
        events := events + [FenceEvent(id, f.name, Exit, to.lat, to.lng)];
      }
    }
    assert nearTo[..i] == nearTo;
    ScanTells(id, nearTo, from, to);
  }
}
