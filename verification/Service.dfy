/** The engine on the heap, serving a whole run of packets, ticks and connections (pkg/engine/pipeline.go, callbacks.go,
    pkg/transport/ws/ws.go for the ids). */
module Services {
  import opened Words
  import opened Seqs
  import opened Coords
  import opened Grids
  import opened Delivery
  import opened Engines
  import opened Tables
  import Cells
  import CountMin
  import Fanout
  import Fences
  import Pipeline
  import Sessions
  import Ticks

  /** cosLat is the cosine of lat. */
  datatype Request =
    | Packet(id: UInt32, coord: Coord)
    | Seed(id: UInt32, coord: Coord)
    | Tick
    | Connect(lat: real, lng: real, radiusM: real, cosLat: real)
    | Read(sub: SubscriberId)
    | Disconnect(sub: SubscriberId)
    | Follow(sub: SubscriberId, entity: UInt32)
    | Unfollow(sub: SubscriberId, entity: UInt32)

  /** The event that a request is; newId is the id that a connection would get. */
  ghost predicate Means(r: Request, newId: SubscriberId, e: Sessions.Event) {
    match r
    case Packet(id, c) => e == Sessions.Packet(id, c)
    case Seed(id, c) => e == Sessions.Seed(id, c)
    case Tick => e.Tick?
    case Connect(lat, lng, radiusM, cosLat) =>
      cosLat != 0.0 && e == Sessions.Join(newId, Cells.Cover(Cells.BoxAround(lat, lng, radiusM, cosLat)))
    case Read(sub) => e == Sessions.Take(sub)
    case Disconnect(sub) => e == Sessions.Leave(sub)
    case Follow(sub, entity) => e == Sessions.Follow(sub, entity)
    case Unfollow(sub, entity) => e == Sessions.Unfollow(sub, entity)
  }

  predicate OfSubscriber(r: Request) {
    !r.Packet? && !r.Seed? && !r.Tick?
  }

  /** Reading keeps the subscribers well formed. */
  lemma TakingValid(s: State, id: SubscriberId)
    requires WellFormed(s)
    ensures WellFormed(Sessions.Taking(s, id))
  {
    hide NoDuplicates;
  }

  /** The request of a subscriber, as the fan-out engine serves it. */
  method ServeSubscriber(f: Fanout.FanoutEngine, r: Request, newId: SubscriberId) returns (ghost e: Sessions.Event)
    requires f.Valid() && OfSubscriber(r) && (r.Connect? ==> r.cosLat != 0.0 && newId !in f.subs)
    modifies f, f.cellIndex, f.channels
    ensures f.Valid() && Means(r, newId, e) && !e.Tick?
    ensures e.Join? ==> e.sub !in old(f.subs) && NoDuplicates(e.cells)
    ensures Sessions.OpsOf(e) == [] && f.AsState() == Sessions.FanAfter(old(f.AsState()), e)
  {
    hide NoDuplicates, Cells.Cover, Cells.BoxAround, Fanout.Covering;
    match r {
      case Connect(lat, lng, radiusM, cosLat) =>
        ghost var b := Cells.BoxAround(lat, lng, radiusM, cosLat);
        Cells.CoverFinds(b, 0);
        e := Sessions.Join(newId, Cells.Cover(b));
        f.Subscribe(newId, lat, lng, radiusM, cosLat);
      case Read(sub) =>
        e := Sessions.Take(sub);
        TakingValid(f.AsState(), sub);
        var frame := f.channels.Receive(sub);
      case Disconnect(sub) =>
        e := Sessions.Leave(sub);
        f.Unsubscribe(sub);
      case Follow(sub, entity) =>
        e := Sessions.Follow(sub, entity);
        f.Follow(sub, entity);
      case Unfollow(sub, entity) =>
        e := Sessions.Unfollow(sub, entity);
        f.Unfollow(sub, entity);
    }
  }

  // ----- one request -----

  ghost predicate Ready(e: Engine)
    reads e, e.grid, e.grid.slots, e.fences, e.fences.index, e.cms, e.cms.table, e.positions, e.positions.shards,
          e.positions.packets.Values, e.counters, e.counters.sketches, e.counters.Registers(),
          e.fanout, e.fanout.cellIndex, e.fanout.channels
  {
    e.Valid() && e.fences.Valid() && e.fanout.Valid()
  }

  ghost function SessionOf(e: Engine): Sessions.Session
    requires Ready(e)
    reads e, e.grid, e.grid.slots, e.fences, e.fences.index, e.cms, e.cms.table, e.positions, e.positions.shards,
          e.positions.packets.Values, e.counters, e.counters.sketches, e.counters.Registers(),
          e.fanout, e.fanout.cellIndex, e.fanout.channels
  {
    Sessions.Session(e.AsState(), e.fanout.AsState())
  }

  lemma ReadyIsSane(e: Engine)
    requires Ready(e)
    ensures Sessions.Sane(SessionOf(e))
  {
    hide Engine.Valid, Fences.Store.Valid, WellFormed;
  }

  /** A packet or a seed. */
  method Arrive(e: Engine, r: Request) returns (ghost ev: Sessions.Event)
    requires Ready(e) && (r.Packet? || r.Seed?)
    modifies e, e.cms, e.cms.table, e.grid.slots, e.positions, e.positions.shards, e.positions.packets.Values,
             e.counters, e.counters.sketches, e.counters.Registers()
    ensures Ready(e) && e.World() == old(e.World())
    ensures fresh(e.positions.packets.Values - old(e.positions.packets.Values))
    ensures Means(r, 0, ev) && !ev.Join? && Sessions.Possible(old(SessionOf(e)), ev)
    ensures SessionOf(e) == Sessions.After(e.World(), old(SessionOf(e)), ev)
  {
    hide Engine.Valid, Engine.World, Pipeline.Processed, Pipeline.Seeded, Fanout.FanoutEngine.Valid, Fences.Store.Valid,
         CountMin.CountMinSketch.Valid, SpatialGrid.Valid, PositionTable.Valid, CellCounters.Valid, NoDuplicates,
         WellFormed;
    ReadyIsSane(e);
    if r.Packet? {
      ev := Sessions.Packet(r.id, r.coord);
      e.ProcessPacket(r.id, r.coord);
    } else {
      ev := Sessions.Seed(r.id, r.coord);
      e.SeedPosition(r.id, r.coord.lat, r.coord.lng);
    }
  }

  /** A tick. */
  method Beat(e: Engine) returns (ghost ev: Sessions.Event)
    requires Ready(e)
    modifies e.cms, e.cms.table, e.fanout`droppedFrames, e.fanout.channels
    ensures Ready(e) && e.World() == old(e.World())
    ensures ev.Tick? && Sessions.Possible(old(SessionOf(e)), ev)
    ensures SessionOf(e) == Sessions.After(e.World(), old(SessionOf(e)), ev)
  {
    hide Engine.Valid, Engine.World, Pipeline.Ticked, Fanout.FanoutEngine.Valid, Fences.Store.Valid, Agrees,
         Ticks.Delivered, CountMin.CountMinSketch.Valid, SpatialGrid.Valid, PositionTable.Valid, CellCounters.Valid,
         Ticks.ListsSubscribed, NoDuplicates, WellFormed, BroadcastedAll, Ticks.Batches;
    ReadyIsSane(e);
    ghost var listing := e.Tick();
    ev := Sessions.Tick(listing);
  }

  /** Any request changes the engine as its event changes the session. */
  method Handle(e: Engine, r: Request, newId: SubscriberId) returns (ghost ev: Sessions.Event)
    requires Ready(e) && (r.Connect? ==> r.cosLat != 0.0 && newId !in SessionOf(e).fan.subs)
    modifies e, e.cms, e.cms.table, e.grid.slots, e.positions, e.positions.shards, e.positions.packets.Values,
             e.counters, e.counters.sketches, e.counters.Registers(), e.fanout, e.fanout.cellIndex, e.fanout.channels
    ensures Ready(e) && e.fences.Valid() && e.World() == old(e.World())
    ensures fresh(e.positions.packets.Values - old(e.positions.packets.Values))
    ensures Means(r, newId, ev) && Sessions.Possible(old(SessionOf(e)), ev)
    ensures SessionOf(e) == Sessions.After(e.World(), old(SessionOf(e)), ev)
  {
    hide Engine.Valid, Engine.World, Fanout.FanoutEngine.Valid, Fences.Store.Valid, CountMin.CountMinSketch.Valid,
         SpatialGrid.Valid, PositionTable.Valid, CellCounters.Valid, Ticks.ListsSubscribed, NoDuplicates, WellFormed,
         Sessions.FanAfter;
    ReadyIsSane(e);
    match r {
      case Packet(_, _) =>
        ev := Arrive(e, r);
      case Seed(_, _) =>
        ev := Arrive(e, r);
      case Tick =>
        ev := Beat(e);
      case _ =>
        ev := ServeSubscriber(e.fanout, r, newId);
    }
  }

  // ----- a whole run -----

  /** The ids that the counter of the server has given out. */
  function IdsGiven(requests: seq<Request>): (n: nat)
    ensures n <= |requests|
  {
    if requests == [] then 0
    else IdsGiven(requests[..|requests| - 1]) + if requests[|requests| - 1].Connect? then 1 else 0
  }

  /** Each request means its event, a connection with the next id. */
  ghost predicate MeanAll(requests: seq<Request>, es: seq<Sessions.Event>)
    requires |requests| < TWO64
  {
    && |es| == |requests|
    && forall i :: 0 <= i < |es| ==> Means(requests[i], IdsGiven(requests[..i + 1]), es[i])
  }

  lemma MeanOneMore(requests: seq<Request>, es: seq<Sessions.Event>, r: Request, e: Sessions.Event)
    requires |requests| + 1 < TWO64 && MeanAll(requests, es) && Means(r, IdsGiven(requests + [r]), e)
    ensures MeanAll(requests + [r], es + [e])
  {
    hide Means, IdsGiven;
    var more := requests + [r];
    assert more[..|more|] == more;
    forall i | 0 <= i < |es| ensures Means(more[i], IdsGiven(more[..i + 1]), (es + [e])[i]) {
      assert more[..i + 1] == requests[..i + 1];
    }
  }

  lemma MeanNothing()
    ensures MeanAll([], [])
  {
  }

  /** Only a connection adds an id. */
  lemma NoOtherIds(w: Pipeline.TheWorld, s: Sessions.Session, r: Request, newId: SubscriberId, e: Sessions.Event)
    requires Means(r, newId, e)
    ensures forall id :: id in Sessions.After(w, s, e).fan.subs ==> id in s.fan.subs || (r.Connect? && id == newId)
  {
    hide Sessions.PipeAfter, NoDuplicates, Ticks.Batches, Ticks.ListsSubscribed, BroadcastedAll;
  }

  /** A new engine with fences and no subscribers. */
  method Open(rs: seq<Registration>) returns (e: Engine)
    requires forall r :: r in rs ==> r.1 != 0.0
    ensures Ready(e) && e.fences.Valid() && e.World() == WorldOf(rs) && SessionOf(e) == Sessions.Opening()
    ensures e.positions.packets == map[]
    ensures fresh(e) && fresh(e.grid) && fresh(e.grid.slots) && fresh(e.fences) && fresh(e.fences.index)
    ensures fresh(e.fanout) && fresh(e.fanout.cellIndex) && fresh(e.fanout.channels)
    ensures fresh(e.positions) && fresh(e.positions.shards) && fresh(e.cms) && fresh(e.cms.table)
    ensures fresh(e.counters) && fresh(e.counters.sketches) && fresh(e.counters.Registers())
  {
    hide WorldOf, Engine.Valid, Engine.World, Engine.AsState, Fences.Store.Valid, Fanout.FanoutEngine.Valid;
    e := Build(rs);
  }

  /** A new engine, given one request after the other, goes through a run of a session; the server counts the
      connections for their ids. */
  method Serve(rs: seq<Registration>, requests: seq<Request>) returns (e: Engine, ghost es: seq<Sessions.Event>)
    requires forall r :: r in rs ==> r.1 != 0.0
    requires |requests| < TWO64 && forall r :: r in requests && r.Connect? ==> r.cosLat != 0.0
    ensures fresh(e) && Ready(e) && MeanAll(requests, es) && SessionOf(e) == Sessions.Run(WorldOf(rs), es)
  {
    hide WorldOf, Ready, SessionOf, Means, MeanAll, Sessions.After, Sessions.Possible, Engine.World, Fences.Store.Valid;
    e := Open(rs);
    es := [];
    var subID, i := 0, 0;
    assert MeanAll([], []) by { MeanNothing(); }
    while i < |requests|
      invariant 0 <= i <= |requests| && subID == IdsGiven(requests[..i])
      invariant Ready(e) && e.fences.Valid() && e.World() == WorldOf(rs) && fresh(e.positions.packets.Values)
      invariant forall id :: id in SessionOf(e).fan.subs ==> id <= subID
      invariant MeanAll(requests[..i], es) && SessionOf(e) == Sessions.Run(WorldOf(rs), es)
    {
      var r := requests[i];
      assert requests[..i + 1] == requests[..i] + [r];
      if r.Connect? {
        subID := subID + 1;
      }
      ghost var s := SessionOf(e);
      ghost var ev := Handle(e, r, subID);
      MeanOneMore(requests[..i], es, r, ev);
      NoOtherIds(WorldOf(rs), s, r, subID, ev);
      assert (es + [ev])[..|es|] == es;
      es := es + [ev];
      i := i + 1;
    }
    assert requests[..i] == requests;
  }
}
