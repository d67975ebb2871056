/** The sharded, striped grid (pkg/spatial/grid.go) and the simple map that it speeds up
    (pkg/spatial/reference_test.go). */
module Grids {
  import opened Words
  import opened Coords
  import Egress

  const STRIPES: nat := 16
  const CELLS: nat := 256
  const SLOTS: nat := 4096  // 256 shards of 16 stripes

  /** The contents of all shards: slot 16 * cell + stripe. */
  type Grid = g: seq<map<UInt32, Coord>> | |g| == SLOTS witness seq(SLOTS, _ => map[])

  function EmptyGrid(): (g: Grid)
    ensures forall s :: 0 <= s < SLOTS ==> g[s] == map[]
  {
    seq(SLOTS, _ => map[])
  }

  /** The simple reference: one map from entities to their last position. */
  type Positions = map<UInt32, Coord>

  function Slot(cell: UInt8, id: UInt32): (s: nat)
    ensures s < SLOTS && s / 16 == cell && s % 16 == id % 16
  {
    16 * cell + id % STRIPES
  }

  function Insert(g: Grid, id: UInt32, c: Coord): Grid {
    var s := Slot(CellOf(c), id);
    var entries: Positions := g[s][id := c];
    g[s := entries]
  }

  function Delete(g: Grid, cell: UInt8, id: UInt32): Grid {
    var s := Slot(cell, id);
    var entries: Positions := g[s] - {id};
    g[s := entries]
  }

  /** RouteWithPrevious: the delete is skipped when the cell stays the same. */
  function Move(g: Grid, id: UInt32, c: Coord, prev: Option<Coord>): Grid {
    Insert(if prev.Some? && CellOf(prev.value) != CellOf(c) then Delete(g, CellOf(prev.value), id) else g, id, c)
  }

  /** Every entry sits in the stripe of its id. */
  ghost predicate Striped(g: Grid) {
    forall s, id :: 0 <= s < SLOTS && id in g[s] ==> id % 16 == s % 16
  }

  /** The entity is stored in the shard. */
  predicate In(g: Grid, cell: UInt8, id: UInt32) {
    id in g[Slot(cell, id)]
  }

  function At(g: Grid, cell: UInt8, id: UInt32): Coord
    requires In(g, cell, id)
  {
    g[Slot(cell, id)][id]
  }

  /** Every entry sits in the shard of its own coordinate and in the stripe of its id. */
  ghost predicate WellPlaced(g: Grid) {
    && Striped(g)
    && forall cell: UInt8, id: UInt32 :: In(g, cell, id) ==> CellOf(At(g, cell, id)) == cell
  }

  /** The entity is in exactly the shard of its position, with exactly that coordinate, or nowhere. */
  ghost predicate PlacedAs(g: Grid, id: UInt32, c: Option<Coord>) {
    forall cell: UInt8 ::
      && (In(g, cell, id) <==> c.Some? && CellOf(c.value) == cell)
      && (In(g, cell, id) ==> At(g, cell, id) == c.value)
  }

  function Lookup(m: Positions, id: UInt32): Option<Coord> {
    if id in m then Some(m[id]) else None
  }

  /** Full agreement with the reference map. */
  ghost predicate Agrees(g: Grid, last: Positions) {
    Striped(g) && forall id: UInt32 :: PlacedAs(g, id, Lookup(last, id))
  }

  // ----- what the operations do to one entity -----

  lemma SlotOfStriped(g: Grid, s: nat, id: UInt32)
    requires Striped(g) && s < SLOTS && id in g[s]
    ensures s / 16 < 256 && s == Slot(s / 16, id) && In(g, s / 16, id)
  {
  }

  lemma InsertPlaces(g: Grid, id: UInt32, c: Coord)
    ensures Striped(g) ==> Striped(Insert(g, id, c))
    ensures forall cell: UInt8, id': UInt32 ::
              In(Insert(g, id, c), cell, id') <==> In(g, cell, id') || (id' == id && cell == CellOf(c))
    ensures forall cell: UInt8, id': UInt32 :: In(Insert(g, id, c), cell, id') ==>
              At(Insert(g, id, c), cell, id') == if id' == id && cell == CellOf(c) then c else At(g, cell, id')
  {
    hide CellOf;
  }

  lemma DeleteRemoves(g: Grid, cell: UInt8, id: UInt32)
    ensures Striped(g) ==> Striped(Delete(g, cell, id))
    ensures forall cell': UInt8, id': UInt32 ::
              In(Delete(g, cell, id), cell', id') <==> In(g, cell', id') && !(id' == id && cell' == cell)
    ensures forall cell': UInt8, id': UInt32 :: In(Delete(g, cell, id), cell', id') ==>
              At(Delete(g, cell, id), cell', id') == At(g, cell', id')
  {
  }

  // ----- refinement of the reference map -----

  /** Routing with the true previous position is the reference map's update. */
  lemma MoveAgrees(g: Grid, last: Positions, id: UInt32, c: Coord)
    requires Agrees(g, last)
    ensures Agrees(Move(g, id, c, Lookup(last, id)), last[id := c])
  {
    hide CellOf, In, At, Insert, Delete, Striped;
    var prev := Lookup(last, id);
    var mid := if prev.Some? && CellOf(prev.value) != CellOf(c) then Delete(g, CellOf(prev.value), id) else g;
    if prev.Some? {
      DeleteRemoves(g, CellOf(prev.value), id);
    }
    InsertPlaces(mid, id, c);
    var g', last' := Insert(mid, id, c), last[id := c];
    forall id': UInt32 ensures PlacedAs(g', id', Lookup(last', id')) {
      assert PlacedAs(g, id', Lookup(last, id'));
    }
  }

  /** Route, which never deletes, is the reference map's update iff the id is new or stays in its cell. */
  lemma RouteAgrees(g: Grid, last: Positions, id: UInt32, c: Coord)
    requires Agrees(g, last)
    ensures Agrees(Insert(g, id, c), last[id := c]) <==> id !in last || CellOf(last[id]) == CellOf(c)
  {
    hide CellOf, In, At, Insert, Striped;
    InsertPlaces(g, id, c);
    var g', last' := Insert(g, id, c), last[id := c];
    assert PlacedAs(g, id, Lookup(last, id));
    if id !in last || CellOf(last[id]) == CellOf(c) {
      forall id': UInt32 ensures PlacedAs(g', id', Lookup(last', id')) {
        assert PlacedAs(g, id', Lookup(last, id'));
      }
    } else {
      assert In(g', CellOf(last[id]), id);
      assert !PlacedAs(g', id, Lookup(last', id));
    }
  }

  /** Remove at a position in the entity's cell is the reference map's deletion. */
  lemma RemoveAgrees(g: Grid, last: Positions, cell: UInt8, id: UInt32)
    requires Agrees(g, last)
    ensures Agrees(Delete(g, cell, id), last - {id}) <==> id !in last || CellOf(last[id]) == cell
  {
    hide CellOf, In, At, Delete, Striped;
    DeleteRemoves(g, cell, id);
    var g' := Delete(g, cell, id);
    assert PlacedAs(g, id, Lookup(last, id));
    if id !in last || CellOf(last[id]) == cell {
      forall id': UInt32 ensures PlacedAs(g', id', Lookup(last - {id}, id')) {
        assert PlacedAs(g, id', Lookup(last, id'));
      }
    } else {
      assert In(g', CellOf(last[id]), id);
      assert !PlacedAs(g', id, Lookup(last - {id}, id));
    }
  }

  lemma AgreementIsWellPlaced(g: Grid, last: Positions)
    requires Agrees(g, last)
    ensures WellPlaced(g)
  {
    hide CellOf, In, At;
    forall cell: UInt8, id: UInt32 | In(g, cell, id) ensures CellOf(At(g, cell, id)) == cell {
      assert PlacedAs(g, id, Lookup(last, id));
    }
  }

  // ----- sizes -----

  /** The number of entries in the first k slots. */
  function Entries(g: Grid, k: nat): nat
    requires k <= SLOTS
  {
    if k == 0 then 0 else Entries(g, k - 1) + |g[k - 1]|
  }

  ghost function Below(last: Positions, k: nat): Positions {
    map id | id in last && Slot(CellOf(last[id]), id) < k :: last[id]
  }

  /** A slot holds exactly the entities whose position belongs there. */
  lemma SlotContents(g: Grid, last: Positions, s: nat)
    requires Agrees(g, last) && s < SLOTS
    ensures forall id: UInt32 :: id in g[s] <==> id in last && Slot(CellOf(last[id]), id) == s
    ensures forall id: UInt32 :: id in g[s] ==> g[s][id] == last[id]
  {
    hide CellOf;
    forall id: UInt32
      ensures id in g[s] <==> id in last && Slot(CellOf(last[id]), id) == s
      ensures id in g[s] ==> g[s][id] == last[id]
    {
      assert PlacedAs(g, id, Lookup(last, id));
      if id in g[s] {
        SlotOfStriped(g, s, id);
      }
      if id in last && Slot(CellOf(last[id]), id) == s {
        assert In(g, CellOf(last[id]), id);
      }
    }
  }

  lemma NothingBelow(last: Positions)
    ensures Below(last, 0) == map[]
  {
    hide CellOf;
  }

  lemma SizeOfUnion(m: Positions, m1: Positions, m2: Positions)
    requires m.Keys == m1.Keys + m2.Keys && m1.Keys !! m2.Keys
    ensures |m| == |m1| + |m2|
  {
    assert |m.Keys| == |m1.Keys| + |m2.Keys|;
  }

  lemma BelowOneMore(g: Grid, last: Positions, k: nat)
    requires Agrees(g, last) && k < SLOTS
    ensures |Below(last, k + 1)| == |Below(last, k)| + |g[k]|
  {
    hide CellOf, Agrees;
    SlotContents(g, last, k);
    assert Below(last, k + 1).Keys == Below(last, k).Keys + g[k].Keys;
    SizeOfUnion(Below(last, k + 1), Below(last, k), g[k]);
  }

  lemma {:induction false} EntriesBelow(g: Grid, last: Positions, k: nat)
    requires Agrees(g, last) && k <= SLOTS
    ensures Entries(g, k) == |Below(last, k)|
  {
    hide CellOf, Agrees, Below;
    if k == 0 {
      NothingBelow(last);
    } else {
      EntriesBelow(g, last, k - 1);
      BelowOneMore(g, last, k - 1);
    }
  }

  /** The grid has as many entries as the reference map. */
  lemma EntriesAgree(g: Grid, last: Positions)
    requires Agrees(g, last)
    ensures Entries(g, SLOTS) == |last|
  {
    hide CellOf;
    EntriesBelow(g, last, SLOTS);
    assert Below(last, SLOTS) == last;
  }

  /** The cell is the first one that holds the entity. */
  ghost predicate FirstIn(g: Grid, cell: UInt8, id: UInt32) {
    In(g, cell, id) && forall cell': UInt8 :: cell' < cell ==> !In(g, cell', id)
  }

  // ----- records of one cell -----

  /** The records list the entries of a cell: each exactly once, with its coordinate. */
  ghost predicate ListsCell(records: seq<Egress.Record>, g: Grid, cell: UInt8) {
    && (forall i :: 0 <= i < |records| ==>
          In(g, cell, records[i].entityId) &&
          records[i] == RecordOf(records[i].entityId, At(g, cell, records[i].entityId)))
    && (forall i, j :: 0 <= i < j < |records| ==> records[i].entityId != records[j].entityId)
    && (forall id: UInt32 :: In(g, cell, id) ==> RecordOf(id, At(g, cell, id)) in records)
  }

  /** The same for the first k stripes of a cell. */
  ghost predicate ListsStripes(records: seq<Egress.Record>, g: Grid, cell: UInt8, k: nat) {
    && (forall i :: 0 <= i < |records| ==>
          In(g, cell, records[i].entityId) &&
          records[i] == RecordOf(records[i].entityId, At(g, cell, records[i].entityId)))
    && (forall i :: 0 <= i < |records| ==> records[i].entityId % 16 < k)
    && (forall i, j :: 0 <= i < j < |records| ==> records[i].entityId != records[j].entityId)
    && (forall id: UInt32 :: In(g, cell, id) && id % 16 < k ==> RecordOf(id, At(g, cell, id)) in records)
  }

  /** The sum of the sizes of k slots from first on. */
  function SlotSizes(g: Grid, first: nat, k: nat): nat
    requires first + k <= SLOTS
  {
    if k == 0 then 0 else SlotSizes(g, first, k - 1) + |g[first + k - 1]|
  }

  lemma {:induction false} SlotSizesSplit(g: Grid, first: nat, k: nat)
    requires first + k <= SLOTS
    ensures Entries(g, first + k) == Entries(g, first) + SlotSizes(g, first, k)
  {
    if k == 0 {
    } else {
      SlotSizesSplit(g, first, k - 1);
    }
  }

  lemma EmptyHasNone(m: Positions)
    ensures |m| == 0 ==> forall id: UInt32 :: id !in m
  {
  }

  class SpatialGrid {
    const slots: array<map<UInt32, Coord>>  // slot 16 * shard + stripe

    ghost predicate Valid()
      reads this, slots
    {
      slots.Length == SLOTS && Striped(slots[..])
    }

    ghost function Contents(): Grid
      reads this, slots
      requires Valid()
    {
      slots[..]
    }

    constructor ()
      ensures Valid() && fresh(slots)
      ensures Contents() == EmptyGrid()
    {
      slots := new map<UInt32, Coord>[SLOTS](_ => map[]);
    }

    method Route(id: UInt32, coord: Coord)
      requires Valid()
      modifies slots
      ensures Valid() && Contents() == Insert(old(Contents()), id, coord)
    {
      hide CellOf;
      InsertPlaces(Contents(), id, coord);
      var s := Slot(CellOf(coord), id);
      slots[s] := slots[s][id := coord];
    }

    /** prev points into the last-position map and is only read here. */
    method RouteWithPrevious(id: UInt32, coord: Coord, prev: CoordPacket?) returns (moved: bool)
      requires Valid()
      modifies slots
      ensures Valid()
      ensures Contents() == Move(old(Contents()), id, coord, if prev == null then None else Some(prev.Get()))
      ensures moved <==> prev == null || CellOf(prev.Get()) != CellOf(coord)
    {
      hide CellOf;
      var newKey := CellOf(coord);
      if prev != null {
        var oldKey := CellOf(prev.Get());
        if oldKey != newKey {
          DeleteRemoves(Contents(), oldKey, id);
          var s := Slot(oldKey, id);
          slots[s] := slots[s] - {id};
        }
      }
      InsertPlaces(Contents(), id, coord);
      var s := Slot(newKey, id);
      slots[s] := slots[s][id := coord];
      if prev == null {
        return true;
      }
      return CellOf(prev.Get()) != newKey;
    }

    method Remove(id: UInt32, lat: Float64, lng: Float64)
      requires Valid()
      modifies slots
      ensures Valid() && Contents() == Delete(old(Contents()), CellOf(Coord(lng, lat)), id)
    {
      hide CellOf;
      var key := CellOf(Coord(lng, lat));
      DeleteRemoves(Contents(), key, id);
      var s := Slot(key, id);
      slots[s] := slots[s] - {id};
    }

    /** The entry of the first shard that holds the entity. */
    method Get(id: UInt32) returns (state: Option<Coord>)
      requires Valid()
      ensures state.None? ==> forall cell: UInt8 :: !In(Contents(), cell, id)
      ensures state.Some? ==>
                exists cell: UInt8 :: FirstIn(Contents(), cell, id) && At(Contents(), cell, id) == state.value
    {
      var i := 0;
      while i < 256
        invariant 0 <= i <= 256
        invariant forall cell: UInt8 :: cell < i ==> !In(Contents(), cell, id)
      {
        var cell: UInt8 := i;
        if id in slots[Slot(cell, id)] {
          assert FirstIn(Contents(), cell, id);
          return Some(slots[Slot(cell, id)][id]);
        }
        assert !In(Contents(), cell, id);
        i := i + 1;
      }
      return None;
    }

    method ShardStats() returns (counts: array<nat>)
      requires Valid()
      ensures fresh(counts) && counts.Length == 256
      ensures forall c: UInt8 :: counts[c] == SlotSizes(Contents(), 16 * c, 16)
    {
      counts := new nat[256](_ => 0);
      var i := 0;
      while i < 256
        invariant 0 <= i <= 256
        invariant forall c: UInt8 :: c < i ==> counts[c] == SlotSizes(Contents(), 16 * c, 16)
      {
        var total := 0;
        var stripe := 0;
        while stripe < STRIPES
          invariant 0 <= stripe <= STRIPES
          invariant total == SlotSizes(Contents(), 16 * i, stripe)
        {
          total := total + |slots[16 * i + stripe]|;
          stripe := stripe + 1;
        }
        counts[i] := total;
        i := i + 1;
      }
    }

    method Count() returns (total: nat)
      requires Valid()
      ensures total == Entries(Contents(), SLOTS)
    {
      total := 0;
      var i := 0;
      while i < 256
        invariant 0 <= i <= 256
        invariant total == Entries(Contents(), 16 * i)
      {
        var stripe := 0;
        while stripe < STRIPES
          invariant 0 <= stripe <= STRIPES
          invariant total == Entries(Contents(), 16 * i + stripe)
        {
          total := total + |slots[16 * i + stripe]|;
          stripe := stripe + 1;
        }
        i := i + 1;
      }
    }

    /** The order within a stripe is that of a Go map, that is, any. */
    method EgressRecords(cell: UInt8) returns (records: seq<Egress.Record>)
      requires Valid()
      ensures ListsCell(records, Contents(), cell)
    {
      hide CellOf;
      var totalLen: nat := 0;
      var stripe := 0;
      while stripe < STRIPES
        invariant 0 <= stripe <= STRIPES
        invariant totalLen == 0 ==> forall id: UInt32 :: In(Contents(), cell, id) ==> stripe <= id % 16
      {
        totalLen := totalLen + |slots[16 * cell + stripe]|;
        EmptyHasNone(slots[16 * cell + stripe]);
        stripe := stripe + 1;
      }
      records := [];
      if totalLen == 0 {
        return;
      }
      stripe := 0;
      while stripe < STRIPES
        invariant 0 <= stripe <= STRIPES
        invariant ListsStripes(records, Contents(), cell, stripe)
      {
        records := AppendStripe(records, cell, stripe);
        stripe := stripe + 1;
      }
    }

    method AppendStripe(soFar: seq<Egress.Record>, cell: UInt8, stripe: nat) returns (records: seq<Egress.Record>)
      requires Valid() && stripe < STRIPES
      requires ListsStripes(soFar, Contents(), cell, stripe)
      ensures ListsStripes(records, Contents(), cell, stripe + 1)
    {
      hide CellOf;
      records := soFar;
      var entries := slots[16 * cell + stripe];
      var rest := entries.Keys;
      while rest != {}
        invariant rest <= entries.Keys
        invariant forall i :: 0 <= i < |records| ==>
                    In(Contents(), cell, records[i].entityId) && records[i].entityId !in rest &&
                    records[i] == RecordOf(records[i].entityId, At(Contents(), cell, records[i].entityId))
        invariant forall i :: 0 <= i < |records| ==> records[i].entityId % 16 <= stripe
        invariant forall i, j :: 0 <= i < j < |records| ==> records[i].entityId != records[j].entityId
        invariant forall id: UInt32 :: In(Contents(), cell, id) && id % 16 <= stripe && id !in rest ==>
                    RecordOf(id, At(Contents(), cell, id)) in records
        decreases rest
      {
        var id: UInt32 :| id in rest;
        assert In(Contents(), cell, id);
        records := records + [RecordOf(id, entries[id])];
        rest := rest - {id};
      }
    }
  }
}
