/** The engine on the heap: the components composed as pkg/engine/pipeline.go and callbacks.go compose them. */
module Engines {
  import opened Words
  import opened Coords
  import opened Grids
  import opened Tables
  import Cells
  import CountMin
  import Delivery
  import Egress
  import Fanout
  import Fences
  import HyperLogLogs
  import Pipeline
  import Ticks

  class Engine {
    const grid: SpatialGrid
    const fences: Fences.Store
    const fanout: Fanout.FanoutEngine
    const positions: PositionTable
    const cms: CountMin.CountMinSketch
    const counters: CellCounters
    var packetsRouted: nat
    var packetsDropped: nat
    var eventsFired: nat

    ghost predicate Valid()
      reads this, grid, grid.slots, fences, fences.index, cms, cms.table, positions, positions.shards,
            positions.packets.Values, counters, counters.sketches, counters.Registers()
    {
      grid.Valid() && fences.Valid() && cms.Valid() && positions.Valid() && counters.Valid()
    }

    ghost function AsState(): (s: Pipeline.State)
      requires Valid()
      reads this, grid, grid.slots, fences, fences.index, cms, cms.table, positions, positions.shards,
            positions.packets.Values, counters, counters.sketches, counters.Registers()
      ensures s.Valid()
    {
      Pipeline.State(cms.adds, positions.last, grid.Contents(), counters.counted,
                     packetsRouted, packetsDropped, eventsFired)
    }

    ghost function World(): Pipeline.TheWorld
      reads fences, fences.index
      requires fences.Valid()
    {
      Pipeline.World(fences.fences, fences.covers)
    }

    constructor ()
      ensures Valid() && AsState() == Pipeline.Initial()
      ensures fences.fences == [] && positions.packets == map[]
      ensures fresh(grid) && fresh(grid.slots) && fresh(fences) && fresh(fences.index)
      ensures fresh(fanout) && fresh(fanout.cellIndex) && fresh(fanout.channels)
      ensures fresh(positions) && fresh(positions.shards) && fresh(cms) && fresh(cms.table)
      ensures fresh(counters) && fresh(counters.sketches) && fresh(counters.Registers())
      ensures fanout.Valid() && fanout.AsState() == Delivery.State([], map[], map[], 0)
    {
      hide SpatialGrid.Valid, Fences.Store.Valid, Fanout.FanoutEngine.Valid, PositionTable.Valid,
           CountMin.CountMinSketch.Valid, CellCounters.Valid;
      grid := new SpatialGrid();
      fences := new Fences.Store();
      fanout := new Fanout.FanoutEngine();
      positions := new PositionTable();
      cms := new CountMin.CountMinSketch();
      counters := new CellCounters();
      packetsRouted, packetsDropped, eventsFired := 0, 0, 0;
    }

    method ProcessPacket(id: UInt32, coord: Coord)
      requires Valid()
      modifies this, cms, cms.table, grid.slots, positions, positions.shards, positions.packets.Values,
               counters, counters.sketches, counters.Registers()
      ensures Valid() && fresh(positions.packets.Values - old(positions.packets.Values))
      ensures AsState() == Pipeline.Processed(old(World()), old(AsState()), id, coord)
      ensures Pipeline.FiresReporting(old(World()), old(AsState()), AsState(), id, coord)
    {
      hide CellOf, Value, Pipeline.Routed, Pipeline.Limited, Pipeline.FiresReporting, World, Valid,
           PositionTable.Valid, CellCounters.Valid, Fences.Store.Valid, CountMin.CountMinSketch.Valid,
           SpatialGrid.Valid, AsState;
      var limited := Admit(id);
      if limited {
        CountDropped();
        return;
      }
      var prev := Previous(id);
      if prev != null && Value(prev.lat) == Value(coord.lat) && Value(prev.lng) == Value(coord.lng) {
        CountDropped();
        return;
      }
      RoutePacket(id, coord, prev);
    }

    method Admit(id: UInt32) returns (limited: bool)
      requires Valid()
      modifies cms, cms.table
      ensures Valid()
      ensures AsState() == old(AsState()).(adds := old(AsState()).adds + [id])
      ensures limited <==> Pipeline.Limited(old(AsState()).adds, id)
    {
      hide CountMin.Estimate, Striped;
      var estimate := cms.AddAndEstimate(id);
      limited := estimate > CountMin.LIMIT;
    }

    method Previous(id: UInt32) returns (prev: CoordPacket?)
      requires Valid()
      ensures Lookup(AsState().last, id) == if prev == null then None else Some(prev.Get())
    {
      hide Striped;
      prev := positions.Load(id);
    }

    method CountDropped()
      requires Valid()
      modifies this`packetsDropped
      ensures Valid() && AsState() == old(AsState()).(dropped := old(AsState()).dropped + 1)
    {
      packetsDropped := packetsDropped + 1;
    }

    /** prev points into the last-position map, which Remember then overwrites: every use of prev comes before. */
    method RoutePacket(id: UInt32, coord: Coord, prev: CoordPacket?)
      requires Valid() && Lookup(AsState().last, id) == if prev == null then None else Some(prev.Get())
      modifies this, grid.slots, positions, positions.shards, positions.packets.Values,
               counters, counters.sketches, counters.Registers()
      ensures Valid() && fresh(positions.packets.Values - old(positions.packets.Values))
      ensures AsState() == Pipeline.Routed(old(World()), old(AsState()), id, coord)
    {
      hide CellOf, Move, PositionTable.Valid, CellCounters.Valid, Valid, World, Pipeline.MoveEvents,
           Fences.Store.Valid, CountMin.CountMinSketch.Valid, SpatialGrid.Valid, AsState, CoordPacket.Get;
      MoveInGrid(id, coord, prev);
      EvaluateFences(id, coord, prev);
      Remember(id, coord);
      CountDistinct(CellOf(coord), id);
      CountRouted();
    }

    method MoveInGrid(id: UInt32, coord: Coord, prev: CoordPacket?)
      requires Valid()
      modifies grid.slots
      ensures Valid()
      ensures
        var s := old(AsState());
        AsState() == s.(grid := Move(s.grid, id, coord, if prev == null then None else Some(prev.Get())))
    {
      hide CellOf, Move, Striped;
      var moved := grid.RouteWithPrevious(id, coord, prev);
    }

    method EvaluateFences(id: UInt32, coord: Coord, prev: CoordPacket?)
      requires Valid()
      modifies this`eventsFired
      ensures Valid()
      ensures
        var prev := if prev == null then None else Some(prev.Get());
        AsState() == old(AsState()).(events := old(AsState()).events + |Pipeline.MoveEvents(World(), id, prev, coord)|)
    {
      hide CellOf, Striped, Fences.Near, Fences.Scan;
      var from := if prev == null then None else Some(PointOf(prev.Get()));
      var events := Fences.EvaluateMove(fences, id, from, PointOf(coord));
      eventsFired := eventsFired + |events|;
    }

    method Remember(id: UInt32, coord: Coord)
      requires Valid()
      modifies positions, positions.shards, positions.packets.Values
      ensures Valid() && fresh(positions.packets.Values - old(positions.packets.Values))
      ensures AsState() == old(AsState()).(last := old(AsState()).last[id := coord])
    {
      hide PositionTable.Valid, Fences.IndexedAt, CountMin.Hits, Striped, HyperLogLogs.Register;
      positions.Store(id, coord);
    }

    method CountDistinct(cell: UInt8, id: UInt32)
      requires Valid()
      modifies counters, counters.sketches, counters.Registers()
      ensures Valid()
      ensures
        var s := old(AsState());
        AsState() == s.(counted := s.counted[cell := s.counted[cell] + [id]])
    {
      hide PositionTable.Valid, Fences.Store.Valid, CountMin.CountMinSketch.Valid, SpatialGrid.Valid;
      counters.Add(cell, id);
    }

    method CountRouted()
      requires Valid()
      modifies this`packetsRouted
      ensures Valid() && AsState() == old(AsState()).(routed := old(AsState()).routed + 1)
    {
      packetsRouted := packetsRouted + 1;
    }

    method SeedPosition(id: UInt32, lat: Float64, lng: Float64)
      requires Valid()
      modifies positions, positions.shards, grid.slots
      ensures Valid() && fresh(positions.packets.Values - old(positions.packets.Values))
      ensures AsState() == Pipeline.Seeded(old(AsState()), id, Coord(lng, lat))
    {
      hide CellOf, Insert, PositionTable.Valid, Fences.IndexedAt, CountMin.Hits, Striped, HyperLogLogs.Register;
      var coord := Coord(lng, lat);
      positions.PointToNew(id, coord);
      grid.Route(id, coord);
    }

    /** The first half of a tick. */
    method ResetLimiter()
      requires Valid()
      modifies cms, cms.table
      ensures Valid() && AsState() == Pipeline.Ticked(old(AsState()))
    {
      cms.Reset();
    }

    /** One round of the loop of BroadcastTick. */
    method BroadcastCell(cell: UInt8) returns (records: seq<Egress.Record>)
      requires grid.Valid() && fanout.Valid()
      modifies fanout`droppedFrames, fanout.channels
      ensures fanout.Valid()
      ensures fanout.AsState() == Delivery.Broadcasted(old(fanout.AsState()), Delivery.Batch(cell, records))
      ensures forall id :: id in fanout.subs && cell in fanout.subs[id].cells ==>
              ListsCell(records, grid.Contents(), cell)
    {
      hide Delivery.Broadcasted, Fanout.Covering, ListsCell, SpatialGrid.Valid;
      var subCount := fanout.SubscribersInCell(cell);
      ghost var s := fanout.AsState();
      Fanout.CoveringFinds(s.live, s.subs, cell);
      if subCount == 0 {
        Ticks.NobodyTakes(s, Delivery.Batch(cell, []));
        return [];
      }
      records := grid.EgressRecords(cell);
      if |records| > 0 {
        var sent := fanout.Broadcast(cell, records);
      } else {
        Ticks.NobodyTakes(s, Delivery.Batch(cell, records));
      }
    }

    method BroadcastTick() returns (ghost listing: Ticks.Listing)
      requires grid.Valid() && fanout.Valid()
      modifies fanout`droppedFrames, fanout.channels
      ensures fanout.Valid()
      ensures Ticks.ListsSubscribed(listing, grid.Contents(), fanout.subs)
      ensures fanout.AsState() == Delivery.BroadcastedAll(old(fanout.AsState()), Ticks.Batches(listing, 256))
    {
      hide Fanout.FanoutEngine.IndexValid, SpatialGrid.Valid, ListsCell, Delivery.Broadcasted;
      listing := seq(256, _ => []);
      var cell := 0;
      while cell < 256
        invariant 0 <= cell <= 256
        invariant grid.Valid() && fanout.Valid()
        invariant fanout.AsState() == Delivery.BroadcastedAll(old(fanout.AsState()), Ticks.Batches(listing, cell))
        invariant forall id, c: UInt8 :: id in fanout.subs && c < cell && c in fanout.subs[id].cells ==>
                    ListsCell(listing[c], grid.Contents(), c)
      {
        var records := BroadcastCell(cell);
        Ticks.BatchesPrefix(listing, cell, records, cell);
        listing := listing[cell := records];
        ghost var bs := Ticks.Batches(listing, cell + 1);
        assert bs[..|bs| - 1] == Ticks.Batches(listing, cell);
        cell := cell + 1;
      }
    }

    /** The body of tickLoop. */
    method Tick() returns (ghost listing: Ticks.Listing)
      requires Valid() && fanout.Valid()
      modifies cms, cms.table, fanout`droppedFrames, fanout.channels
      ensures Valid() && AsState() == Pipeline.Ticked(old(AsState()))
      ensures fanout.Valid() && fanout.subs == old(fanout.subs)
      ensures Ticks.ListsSubscribed(listing, grid.Contents(), fanout.subs)
      ensures fanout.AsState() == Delivery.BroadcastedAll(old(fanout.AsState()), Ticks.Batches(listing, 256))
      ensures Agrees(AsState().grid, AsState().last) ==>
                forall id :: id in fanout.subs ==>
                  Ticks.Delivered(old(fanout.AsState()).queues[id], fanout.AsState().queues[id],
                                  AsState().last, fanout.subs[id])
    {
      hide Delivery.BroadcastedAll, Agrees, Ticks.Delivered, Ticks.ListsSubscribed, Ticks.Batches;
      ResetLimiter();
      ghost var s := fanout.AsState();
      listing := BroadcastTick();
      if Agrees(AsState().grid, AsState().last) {
        Ticks.AllDelivered(s, AsState().grid, AsState().last, listing);
      }
    }
  }

  type Registration = (Fences.Fence, real)

  ghost function CoverOf(r: Registration): seq<UInt8>
    requires r.1 != 0.0
  {
    Cells.Cover(Cells.BoxAround(r.0.centerLat, r.0.centerLng, r.0.boundingRadius, r.1))
  }

  /** The fences, and the cover that each is registered with at the cosine of its centre's latitude. */
  ghost function WorldOf(rs: seq<Registration>): (w: Pipeline.TheWorld)
    requires forall r :: r in rs ==> r.1 != 0.0
    ensures |w.fences| == |rs|
  {
    Pipeline.World(seq(|rs|, i requires 0 <= i < |rs| => rs[i].0),
                   seq(|rs|, i requires 0 <= i < |rs| => CoverOf(rs[i])))
  }

  lemma WorldOneMore(rs: seq<Registration>, i: nat)
    requires (forall r :: r in rs ==> r.1 != 0.0) && i < |rs|
    ensures WorldOf(rs[..i + 1]) ==
            Pipeline.World(WorldOf(rs[..i]).fences + [rs[i].0], WorldOf(rs[..i]).covers + [CoverOf(rs[i])])
  {
    hide CoverOf;
    var w, w' := WorldOf(rs[..i]), WorldOf(rs[..i + 1]);
    assert w'.fences == w.fences + [rs[i].0];
    assert w'.covers == w.covers + [CoverOf(rs[i])];
  }

  lemma NoFences()
    ensures WorldOf([]) == Pipeline.World([], [])
  {
  }

  /** A circle that is the only fence: a move fires an event iff its cell is one of those around the circle's centre,
      and exactly one of the two positions is within the radius. */
  lemma CircleEvents(name: string, lat: real, lng: real, radiusM: real, cosLat: real,
          dist: (real, real, real, real) -> real, id: UInt32, prev: Option<Coord>, c: Coord)
    requires cosLat != 0.0
    ensures
      |Pipeline.MoveEvents(WorldOf([(Fences.Circle(name, lat, lng, radiusM, dist), cosLat)]), id, prev, c)| ==
      if CellOf(c) in Cells.Cover(Cells.BoxAround(lat, lng, radiusM, cosLat)) &&
         (dist(lat, lng, Value(c.lat), Value(c.lng)) <= radiusM) !=
         (prev.Some? && dist(lat, lng, Value(prev.value.lat), Value(prev.value.lng)) <= radiusM)
      then 1 else 0
  {
    hide Value, CellOf, Pipeline.MoveEvents, Cells.Cover, Cells.BoxAround;
    var w := WorldOf([(Fences.Circle(name, lat, lng, radiusM, dist), cosLat)]);
    Pipeline.EventsCounted(w, id, prev, c);
    var zero: nat := 0;
    if zero in Pipeline.Reporting(w, prev, c) {
      assert Pipeline.Reporting(w, prev, c) == {zero};
    } else {
      assert Pipeline.Reporting(w, prev, c) == {};
    }
  }

  method RegisterFence(e: Engine, f: Fences.Fence, cosLat: real)
    requires e.Valid() && cosLat != 0.0
    modifies e.fences, e.fences.index
    ensures e.Valid() && e.AsState() == old(e.AsState())
    ensures e.World() == Pipeline.World(old(e.World()).fences + [f], old(e.World()).covers + [CoverOf((f, cosLat))])
  {
    hide Cells.Cover, Cells.BoxAround, Fences.IndexedAt, Striped, CountMin.Hits, HyperLogLogs.Register;
    e.fences.Register(f, cosLat);
  }

  /** A new engine on which fences are registered. */
  method Build(rs: seq<Registration>) returns (e: Engine)
    requires forall r :: r in rs ==> r.1 != 0.0
    ensures e.Valid() && e.fences.Valid() && e.AsState() == Pipeline.Initial() && e.World() == WorldOf(rs)
    ensures e.fanout.Valid() && e.fanout.AsState() == Delivery.State([], map[], map[], 0)
    ensures e.positions.packets == map[]
    ensures fresh(e) && fresh(e.grid) && fresh(e.grid.slots) && fresh(e.fences) && fresh(e.fences.index)
    ensures fresh(e.fanout) && fresh(e.fanout.cellIndex) && fresh(e.fanout.channels)
    ensures fresh(e.positions) && fresh(e.positions.shards) && fresh(e.cms) && fresh(e.cms.table)
    ensures fresh(e.counters) && fresh(e.counters.sketches) && fresh(e.counters.Registers())
  {
    hide Cells.Cover, Cells.BoxAround, WorldOf, Pipeline.Initial, Fanout.FanoutEngine.Valid;
    e := new Engine();
    NoFences();
    var i := 0;
    while i < |rs|
      invariant 0 <= i <= |rs|
      invariant e.Valid() && e.AsState() == Pipeline.Initial() && e.World() == WorldOf(rs[..i])
      invariant e.fanout.Valid() && e.fanout.AsState() == Delivery.State([], map[], map[], 0)
      invariant e.positions.packets == map[]
    {
      WorldOneMore(rs, i);
      RegisterFence(e, rs[i].0, rs[i].1);
      i := i + 1;
    }
    assert rs[..i] == rs;
  }

  method Perform(e: Engine, op: Pipeline.Op)
    requires e.Valid() && e.fences.Valid() && e.fanout.Valid()
    modifies e, e.cms, e.cms.table, e.grid.slots, e.positions, e.positions.shards, e.positions.packets.Values,
             e.counters, e.counters.sketches, e.counters.Registers(), e.fanout`droppedFrames, e.fanout.channels
    ensures e.Valid() && e.fences.Valid() && e.fanout.Valid() && e.World() == old(e.World())
    ensures fresh(e.positions.packets.Values - old(e.positions.packets.Values))
    ensures e.AsState() == Pipeline.Step(e.World(), old(e.AsState()), op)
  {
    hide Engine.Valid, Engine.AsState, Engine.World, Pipeline.Processed, Pipeline.Seeded, Pipeline.Ticked,
         Fanout.FanoutEngine.Valid, Fences.Store.Valid, Agrees, Ticks.Delivered, CountMin.CountMinSketch.Valid,
         SpatialGrid.Valid, PositionTable.Valid, CellCounters.Valid;
    match op {
      case Packet(id, c) => e.ProcessPacket(id, c);
      case Seed(id, c) => e.SeedPosition(id, c.lat, c.lng);
      case Tick =>
        ghost var listing := e.Tick();
    }
  }

  /** A new engine, fed one operation after the other as by a single worker, goes through the sequential
      pipeline's run. */
  method Replay(rs: seq<Registration>, ops: seq<Pipeline.Op>) returns (e: Engine)
    requires forall r :: r in rs ==> r.1 != 0.0
    ensures fresh(e) && e.Valid() && e.AsState() == Pipeline.Run(WorldOf(rs), ops)
  {
    hide Engine.Valid, Engine.AsState, Engine.World, WorldOf, Pipeline.Step, Fanout.FanoutEngine.Valid,
         Fences.Store.Valid;
    e := Build(rs);
    var i := 0;
    while i < |ops|
      invariant 0 <= i <= |ops|
      invariant e.Valid() && e.fences.Valid() && e.fanout.Valid() && e.World() == WorldOf(rs)
      invariant fresh(e.positions.packets.Values)
      invariant e.AsState() == Pipeline.Run(WorldOf(rs), ops[..i])
    {
      var next := ops[..i + 1];
      assert next[..|next| - 1] == ops[..i];
      Perform(e, ops[i]);
      i := i + 1;
    }
    assert ops[..i] == ops;
  }
}
