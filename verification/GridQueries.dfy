/** What the grid's queries answer when it agrees with the reference map (pkg/spatial/grid.go). */
module GridQueries {
  import opened Words
  import opened Seqs
  import opened Coords
  import opened Grids
  import Cells
  import Egress

  /** Get finds exactly the reference map's position. */
  lemma GetAgrees(g: Grid, last: Positions, id: UInt32, state: Option<Coord>)
    requires Agrees(g, last)
    requires state.None? ==> forall cell: UInt8 :: !In(g, cell, id)
    requires state.Some? ==> exists cell: UInt8 :: FirstIn(g, cell, id) && At(g, cell, id) == state.value
    ensures state == Lookup(last, id)
  {
    hide CellOf, In, At;
    assert PlacedAs(g, id, Lookup(last, id));
    assert id in last ==> In(g, CellOf(last[id]), id);
    if cell: UInt8 :| FirstIn(g, cell, id) && state.Some? && At(g, cell, id) == state.value {
      assert In(g, cell, id);
    }
  }

  function Sum(counts: seq<nat>, k: nat): nat
    requires k <= |counts|
  {
    if k == 0 then 0 else Sum(counts, k - 1) + counts[k - 1]
  }

  /** The sum of the first k shard statistics is the number of entries in those shards; over all 256 it is Count. */
  lemma {:induction false} ShardStatsSum(g: Grid, counts: seq<nat>, k: nat)
    requires |counts| == 256 && forall c: UInt8 :: counts[c] == SlotSizes(g, 16 * c, 16)
    requires k <= 256
    ensures Sum(counts, k) == Entries(g, 16 * k)
  {
    if k == 0 {
    } else {
      ShardStatsSum(g, counts, k - 1);
      SlotSizesSplit(g, 16 * (k - 1), 16);
      var c: UInt8 := k - 1;
      assert counts[c] == SlotSizes(g, 16 * c, 16);
    }
  }

  /** The entities whose last position lies in a cell. */
  function PositionsIn(last: Positions, cell: UInt8): Positions {
    map id | id in last && CellOf(last[id]) == cell :: last[id]
  }

  /** The records list each entity of the map exactly once, with its coordinate. */
  ghost predicate Lists(records: seq<Egress.Record>, m: Positions) {
    && |records| == |m|
    && (forall i :: 0 <= i < |records| ==>
          records[i].entityId in m && records[i] == RecordOf(records[i].entityId, m[records[i].entityId]))
    && (forall i, j :: 0 <= i < j < |records| ==> records[i].entityId != records[j].entityId)
    && (forall id :: id in m ==> RecordOf(id, m[id]) in records)
  }

  /** Field by field, what such a list holds. */
  lemma ListsFields(records: seq<Egress.Record>, m: Positions, r: Egress.Record)
    requires Lists(records, m)
    ensures r in records <==> r.entityId in m && r.lat == m[r.entityId].lat && r.lng == m[r.entityId].lng
  {
    if r in records {
      var i :| 0 <= i < |records| && records[i] == r;
      assert records[i] == RecordOf(records[i].entityId, m[records[i].entityId]);
    }
    if r.entityId in m && r.lat == m[r.entityId].lat && r.lng == m[r.entityId].lng {
      assert RecordOf(r.entityId, m[r.entityId]) in records;
    }
  }

  lemma EmptyMap(m: Positions)
    requires forall id: UInt32 :: id !in m
    ensures |m| == 0
  {
    assert m.Keys == {};
  }

  lemma {:induction false} ListLength(records: seq<Egress.Record>, m: Positions)
    requires forall i :: 0 <= i < |records| ==> records[i].entityId in m
    requires forall i, j :: 0 <= i < j < |records| ==> records[i].entityId != records[j].entityId
    requires forall id :: id in m ==> exists i :: 0 <= i < |records| && records[i].entityId == id
    ensures |records| == |m|
  {
    if records == [] {
      EmptyMap(m);
    } else {
      var init, id := records[..|records| - 1], records[|records| - 1].entityId;
      var rest: Positions := m - {id};
      forall id' | id' in rest ensures exists i :: 0 <= i < |init| && init[i].entityId == id' {
        var i :| 0 <= i < |records| && records[i].entityId == id';
        assert init[i].entityId == id';
      }
      ListLength(init, rest);
      assert m.Keys == rest.Keys + {id};
    }
  }

  /** EgressRecords lists exactly the entities of the reference map whose position is in the cell; over all
      cells the lists therefore partition the map. */
  lemma RecordsAgree(g: Grid, last: Positions, cell: UInt8, records: seq<Egress.Record>)
    requires Agrees(g, last) && ListsCell(records, g, cell)
    ensures Lists(records, PositionsIn(last, cell))
  {
    hide CellOf, In, At;
    var m := PositionsIn(last, cell);
    forall id: UInt32
      ensures In(g, cell, id) <==> id in m
      ensures In(g, cell, id) ==> At(g, cell, id) == m[id]
    {
      assert PlacedAs(g, id, Lookup(last, id));
    }
    forall id | id in m ensures exists i :: 0 <= i < |records| && records[i].entityId == id {
      assert RecordOf(id, At(g, cell, id)) in records;
    }
    ListLength(records, m);
  }

  // ----- circle queries -----

  ghost predicate OnePlace(g: Grid) {
    forall id: UInt32, cell: UInt8, cell': UInt8 :: In(g, cell, id) && In(g, cell', id) ==> cell == cell'
  }

  /** The query is done with a cell's stripe: k keys and some stripes of the next one. */
  predicate Done(keys: seq<UInt8>, k: nat, stripes: nat, cell: UInt8, id: UInt32)
    requires k <= |keys|
  {
    cell in keys[..k] || (k < |keys| && cell == keys[k] && id % 16 < stripes)
  }

  /** The ids found so far: those of the visited entries that are near. */
  ghost predicate Found(result: seq<UInt32>, g: Grid, near: Coord -> bool, keys: seq<UInt8>, k: nat, stripes: nat)
    requires k <= |keys|
  {
    && (forall id: UInt32 :: id in result <==>
          exists cell: UInt8 :: Done(keys, k, stripes, cell, id) && In(g, cell, id) && near(At(g, cell, id)))
    && (OnePlace(g) ==> NoDuplicates(result))
  }

  /** The test that QueryCircle makes; dist stands for the great-circle distance. */
  function Near(lat: real, lng: real, radiusM: real, dist: (real, real, real, real) -> real): Coord -> bool {
    (c: Coord) => dist(lat, lng, Value(c.lat), Value(c.lng)) <= radiusM
  }

  lemma NextKey(result: seq<UInt32>, g: Grid, near: Coord -> bool, keys: seq<UInt8>, k: nat)
    requires k < |keys| && Found(result, g, near, keys, k, 16)
    ensures Found(result, g, near, keys, k + 1, 0)
  {
  }

  lemma StripeEntries(g: Grid, cell: UInt8, stripe: nat)
    requires Striped(g) && stripe < STRIPES
    ensures forall id: UInt32 :: id in g[16 * cell + stripe] <==> In(g, cell, id) && id % 16 == stripe
    ensures forall id: UInt32 :: id in g[16 * cell + stripe] ==> g[16 * cell + stripe][id] == At(g, cell, id)
  {
  }

  /** An entry of the stripe at hand was not found elsewhere, unless the entity is stored twice. */
  lemma NotFoundBefore(soFar: seq<UInt32>, g: Grid, near: Coord -> bool, keys: seq<UInt8>, k: nat, stripe: nat,
          id: UInt32)
    requires k < |keys| && NoDuplicates(keys) && stripe < STRIPES
    requires Found(soFar, g, near, keys, k, stripe)
    requires In(g, keys[k], id) && id % 16 == stripe
    ensures OnePlace(g) ==> id !in soFar
  {
  }

  lemma StripeFound(soFar: seq<UInt32>, result: seq<UInt32>, g: Grid, near: Coord -> bool, keys: seq<UInt8>, k: nat,
          stripe: nat)
    requires k < |keys| && stripe < STRIPES
    requires Found(soFar, g, near, keys, k, stripe)
    requires forall id: UInt32 :: id in result <==>
               id in soFar || (In(g, keys[k], id) && id % 16 == stripe && near(At(g, keys[k], id)))
    requires OnePlace(g) ==> NoDuplicates(result)
    ensures Found(result, g, near, keys, k, stripe + 1)
  {
  }

  method AppendNear(grid: SpatialGrid, soFar: seq<UInt32>, near: Coord -> bool, keys: seq<UInt8>, k: nat, stripe: nat)
    returns (result: seq<UInt32>)
    requires grid.Valid() && stripe < STRIPES && k < |keys| && NoDuplicates(keys)
    requires Found(soFar, grid.Contents(), near, keys, k, stripe)
    ensures Found(result, grid.Contents(), near, keys, k, stripe + 1)
  {
    hide In, At, CellOf;
    var cell := keys[k];
    var entries := grid.slots[16 * cell + stripe];
    StripeEntries(grid.Contents(), cell, stripe);
    result := soFar;
    var rest := entries.Keys;
    while rest != {}
      invariant rest <= entries.Keys
      invariant forall id: UInt32 ::
                  id in result <==> id in soFar || (id in entries && id !in rest && near(entries[id]))
      invariant OnePlace(grid.Contents()) ==> NoDuplicates(result)
      decreases rest
    {
      var id: UInt32 :| id in rest;
      if near(entries[id]) {
        NotFoundBefore(soFar, grid.Contents(), near, keys, k, stripe, id);
        result := result + [id];
      }
      rest := rest - {id};
    }
    StripeFound(soFar, result, grid.Contents(), near, keys, k, stripe);
  }

  /** The position lies in the box after some full turns, and the box reaches the cell that it clamps to. */
  ghost predicate LiesIn(b: Cells.Box, c: Coord, turns: int) {
    && Cells.InBox(b, Value(c.lat), Value(c.lng), turns) && (Value(c.lat) < 90.0 || b.latMax <= 90.0)
    && Cells.Reaches(b, Value(c.lat), Value(c.lng))
  }

  /** On a grid that agrees with the reference map, a circle query lists, each once, exactly the entities
      near enough whose cell is covered; in particular every near entity whose position lies in the box. */
  lemma QueryAgrees(g: Grid, last: Positions, result: seq<UInt32>, near: Coord -> bool, b: Cells.Box)
    requires Agrees(g, last) && -90.0 <= b.latMin
    requires Found(result, g, near, Cells.Cover(b), |Cells.Cover(b)|, 0)
    ensures NoDuplicates(result)
    ensures forall id: UInt32 :: id in result <==> id in last && near(last[id]) && CellOf(last[id]) in Cells.Cover(b)
    ensures forall id: UInt32, turns: int :: id in last && near(last[id]) && LiesIn(b, last[id], turns) ==> id in result
  {
    var keys := Cells.Cover(b);
    hide In, At, Cells.Cover, Cells.ShardKey, Cells.InBox, Cells.Reaches, Value;
    assert keys[..|keys|] == keys;
    forall id: UInt32
      ensures id in result <==> id in last && near(last[id]) && CellOf(last[id]) in keys
    {
      assert PlacedAs(g, id, Lookup(last, id));
      if id in last && near(last[id]) && CellOf(last[id]) in keys {
        assert In(g, CellOf(last[id]), id) && Done(keys, |keys|, 0, CellOf(last[id]), id);
      }
    }
    forall id: UInt32, cell: UInt8, cell': UInt8 | In(g, cell, id) && In(g, cell', id) ensures cell == cell' {
      assert PlacedAs(g, id, Lookup(last, id));
    }
    assert OnePlace(g);
    forall id: UInt32, turns: int | id in last && near(last[id]) && LiesIn(b, last[id], turns)
      ensures id in result
    {
      Cells.CoverContainsShardKey(b, Value(last[id].lat), Value(last[id].lng), turns);
    }
  }

  /** The answer in terms of the reference map: each once, the entities of the covered cells at a distance of at most
      the radius; among them all that are within it in latitude and in longitude too, but for the edges of the map. */
  ghost predicate Answers(result: seq<UInt32>, last: Positions, lat: real, lng: real, radiusM: real, cosLat: real,
          dist: (real, real, real, real) -> real)
    requires cosLat != 0.0
  {
    var b := Cells.BoxAround(lat, lng, radiusM, cosLat);
    && NoDuplicates(result)
    && (forall id: UInt32 :: id in result <==>
          && id in last
          && dist(lat, lng, Value(last[id].lat), Value(last[id].lng)) <= radiusM
          && Cells.ShardKey(Value(last[id].lat), Value(last[id].lng)) in Cells.Cover(b))
    && (forall id: UInt32, turns: int ::
          (id in last &&
           dist(lat, lng, Value(last[id].lat), Value(last[id].lng)) <= radiusM &&
           Cells.WithinMetres(lat, lng, radiusM, cosLat, Value(last[id].lat), Value(last[id].lng), turns) &&
           Cells.Reaches(b, Value(last[id].lat), Value(last[id].lng)))
          ==> id in result)
  }

  lemma FoundAnswers(g: Grid, last: Positions, result: seq<UInt32>, lat: real, lng: real, radiusM: real, cosLat: real,
          dist: (real, real, real, real) -> real)
    requires cosLat != 0.0 && Agrees(g, last)
    requires
      var keys := Cells.Cover(Cells.BoxAround(lat, lng, radiusM, cosLat));
      Found(result, g, Near(lat, lng, radiusM, dist), keys, |keys|, 0)
    ensures Answers(result, last, lat, lng, radiusM, cosLat, dist)
  {
    hide Cells.Cover, Cells.ShardKey, Cells.WithinMetres, Cells.Reaches, Value, Agrees, Found, NoDuplicates;
    QueryAgrees(g, last, result, Near(lat, lng, radiusM, dist), Cells.BoxAround(lat, lng, radiusM, cosLat));
    Cells.WithinMetresCovered(lat, lng, radiusM, cosLat);
  }

  method QueryCircle(grid: SpatialGrid, lat: real, lng: real, radiusM: real, cosLat: real,
          dist: (real, real, real, real) -> real)
    returns (result: seq<UInt32>)
    requires grid.Valid() && cosLat != 0.0
    ensures
      var keys := Cells.Cover(Cells.BoxAround(lat, lng, radiusM, cosLat));
      && Found(result, grid.Contents(), Near(lat, lng, radiusM, dist), keys, |keys|, 0)
      && forall last: Positions :: Agrees(grid.Contents(), last) ==>
           Answers(result, last, lat, lng, radiusM, cosLat, dist)
  {
    hide Cells.Cover, Cells.BoxAround, In, At, Near, Agrees, Answers;
    var shardKeys := Cells.ShardsForRadius(lat, lng, radiusM, cosLat);
    Cells.CoverFinds(Cells.BoxAround(lat, lng, radiusM, cosLat), 0);
    var near := Near(lat, lng, radiusM, dist);
    result := [];
    var k := 0;
    while k < |shardKeys|
      invariant 0 <= k <= |shardKeys|
      invariant Found(result, grid.Contents(), near, shardKeys, k, 0)
    {
      var stripe := 0;
      while stripe < STRIPES
        invariant 0 <= stripe <= STRIPES
        invariant Found(result, grid.Contents(), near, shardKeys, k, stripe)
      {
        result := AppendNear(grid, result, near, shardKeys, k, stripe);
        stripe := stripe + 1;
      }
      NextKey(result, grid.Contents(), near, shardKeys, k);
      k := k + 1;
    }
    forall last: Positions | Agrees(grid.Contents(), last)
      ensures Answers(result, last, lat, lng, radiusM, cosLat, dist)
    {
      FoundAnswers(grid.Contents(), last, result, lat, lng, radiusM, cosLat, dist);
    }
  }
}
