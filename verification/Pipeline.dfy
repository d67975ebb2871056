/** The packet pipeline as a function on states (pkg/engine/pipeline.go, callbacks.go): one packet, one
    seed and one tick reset at a time. */
module Pipeline {
  import opened Words
  import opened Coords
  import opened Grids
  import CountMin
  import Fences
  import HyperLogLogs
  import Ledger

  /** The registered fences and the cells each is indexed at. */
  datatype World = World(fences: seq<Fences.Fence>, covers: seq<seq<UInt8>>)

  type TheWorld = w: World | |w.covers| == |w.fences| witness World([], [])

  /** adds: the limiter's adds since the last tick; counted: the ids each cell's distinct counter was given. */
  datatype State = State(adds: seq<UInt32>, last: Positions, grid: Grid, counted: seq<seq<UInt32>>,
                         routed: nat, dropped: nat, events: nat)
  {
    ghost predicate Valid() { |counted| == CELLS }
  }

  function Initial(): (s: State)
    ensures |s.counted| == CELLS
  {
    State([], map[], EmptyGrid(), seq(CELLS, _ => []), 0, 0, 0)
  }

  /** Go compares the coordinates as numbers. */
  predicate SamePlace(a: Coord, b: Coord) {
    Value(a.lat) == Value(b.lat) && Value(a.lng) == Value(b.lng)
  }

  function PointBefore(prev: Option<Coord>): Option<Fences.Point> {
    match prev
    case None => None
    case Some(c) => Some(PointOf(c))
  }

  function MoveEvents(w: TheWorld, id: UInt32, prev: Option<Coord>, c: Coord): seq<Fences.FenceEvent> {
    Fences.Scan(id, Fences.Near(w.fences, w.covers, Fences.CellOf(PointOf(c))), PointBefore(prev), PointOf(c))
  }

  /** The fences, by number, that are indexed at the cell into which the grid puts a packet and that hold its position
      but not the one before, or the other way round. */
  ghost function Reporting(w: TheWorld, prev: Option<Coord>, c: Coord): set<nat> {
    set i | 0 <= i < |w.fences| && CellOf(c) in w.covers[i] &&
      w.fences[i].contains(Value(c.lat), Value(c.lng)) !=
      (prev.Some? && w.fences[i].contains(Value(prev.value.lat), Value(prev.value.lng)))
  }

  /** A move fires one event for each of them. */
  lemma EventsCounted(w: TheWorld, id: UInt32, prev: Option<Coord>, c: Coord)
    ensures |MoveEvents(w, id, prev, c)| == |Reporting(w, prev, c)|
  {
    hide Value, Cells.ShardKey;
    var to := PointOf(c);
    Ledger.NearScanIsIndexedScan(id, w.fences, w.covers, CellOf(c), PointBefore(prev), to);
    Ledger.IndexedScanCounts(id, w.fences, w.covers, CellOf(c), PointBefore(prev), to);
    assert Ledger.Concerned(w.fences, w.covers, CellOf(c), PointBefore(prev), to) == Reporting(w, prev, c);
  }

  /** The packet is over the limit after these adds. */
  predicate Limited(adds: seq<UInt32>, id: UInt32) {
    CountMin.Estimate(adds + [id], id) > CountMin.LIMIT
  }

  /** The packet repeats the last position. */
  predicate Duplicate(last: Positions, id: UInt32, c: Coord) {
    id in last && SamePlace(last[id], c)
  }

  /** What follows when a packet is neither limited nor a duplicate. */
  function Routed(w: TheWorld, s: State, id: UInt32, c: Coord): (s': State)
    requires |s.counted| == CELLS
    ensures |s'.counted| == CELLS
  {
    var prev := Lookup(s.last, id);
    var cell := CellOf(c);
    s.(last := s.last[id := c],
       grid := Move(s.grid, id, c, prev),
       counted := s.counted[cell := s.counted[cell] + [id]],
       routed := s.routed + 1,
       events := s.events + |MoveEvents(w, id, prev, c)|)
  }

  /** A routed packet fires one event for each reporting fence, and a dropped one none. */
  ghost predicate FiresReporting(w: TheWorld, s: State, s': State, id: UInt32, c: Coord) {
    s'.events == s.events + if s'.routed == s.routed then 0 else |Reporting(w, Lookup(s.last, id), c)|
  }

  function Processed(w: TheWorld, s: State, id: UInt32, c: Coord): (s': State)
    requires |s.counted| == CELLS
    ensures |s'.counted| == CELLS && FiresReporting(w, s, s', id, c)
  {
    EventsCounted(w, id, Lookup(s.last, id), c);
    var s1 := s.(adds := s.adds + [id]);
    if Limited(s.adds, id) || Duplicate(s.last, id, c) then s1.(dropped := s1.dropped + 1) else Routed(w, s1, id, c)
  }

  function Seeded(s: State, id: UInt32, c: Coord): (s': State)
    ensures s'.counted == s.counted
  {
    s.(last := s.last[id := c], grid := Insert(s.grid, id, c))
  }

  function Ticked(s: State): State {
    s.(adds := [])
  }

  // ----- runs -----

  datatype Op = Packet(id: UInt32, coord: Coord) | Seed(id: UInt32, coord: Coord) | Tick

  function Step(w: TheWorld, s: State, op: Op): (s': State)
    requires |s.counted| == CELLS
    ensures |s'.counted| == CELLS
  {
    match op
    case Packet(id, c) => Processed(w, s, id, c)
    case Seed(id, c) => Seeded(s, id, c)
    case Tick => Ticked(s)
  }

  function Run(w: TheWorld, ops: seq<Op>): (s: State)
    ensures |s.counted| == CELLS
  {
    if ops == [] then Initial() else Step(w, Run(w, ops[..|ops| - 1]), ops[|ops| - 1])
  }

  /** A seed may only name an unseen id, or one that stays in its cell. */
  predicate SeedAllowed(s: State, op: Op) {
    op.Seed? && op.id in s.last ==> CellOf(s.last[op.id]) == CellOf(op.coord)
  }

  ghost predicate SeedsAllowed(w: TheWorld, ops: seq<Op>) {
    forall i :: 0 <= i < |ops| ==> SeedAllowed(Run(w, ops[..i]), ops[i])
  }

  /** One operation keeps the grid in agreement with the reference map, unless it is a seed into another cell. */
  lemma StepAgrees(w: TheWorld, s: State, op: Op)
    requires s.Valid() && Agrees(s.grid, s.last)
    ensures Agrees(Step(w, s, op).grid, Step(w, s, op).last) <==> SeedAllowed(s, op)
  {
    hide CellOf, Agrees, Move, Insert, MoveEvents, Limited, Duplicate;
    match op
    case Packet(id, c) => MoveAgrees(s.grid, s.last, id, c);
    case Seed(id, c) => RouteAgrees(s.grid, s.last, id, c);
    case Tick =>
  }

  lemma InitialAgrees()
    ensures Agrees(Initial().grid, Initial().last)
  {
  }

  /** Single-map refinement: after any run of packets, ticks and allowed seeds the sharded, striped grid
      agrees with the map of last accepted positions. */
  lemma {:induction false} RunAgrees(w: TheWorld, ops: seq<Op>)
    requires SeedsAllowed(w, ops)
    ensures Agrees(Run(w, ops).grid, Run(w, ops).last)
  {
    hide Agrees, SeedAllowed, Step;
    if ops == [] {
      InitialAgrees();
    } else {
      var init := ops[..|ops| - 1];
      assert forall i :: 0 <= i < |init| ==> init[..i] == ops[..i];
      RunAgrees(w, init);
      StepAgrees(w, Run(w, init), ops[|ops| - 1]);
    }
  }

  /** The positions the reference router would hold after the accepted packets and the seeds. */
  function Accepted(w: TheWorld, ops: seq<Op>): seq<(UInt32, Coord)> {
    if ops == [] then []
    else
      var s, op := Run(w, ops[..|ops| - 1]), ops[|ops| - 1];
      Accepted(w, ops[..|ops| - 1]) +
      match op
      case Packet(id, c) => if Limited(s.adds, id) || Duplicate(s.last, id, c) then [] else [(id, c)]
      case Seed(id, c) => [(id, c)]
      case Tick => []
  }

  /** The reference router: every update overwrites one map. */
  function GlobalMap(updates: seq<(UInt32, Coord)>): Positions {
    if updates == [] then map[]
    else
      var u := updates[|updates| - 1];
      GlobalMap(updates[..|updates| - 1])[u.0 := u.1]
  }

  lemma {:induction false} LastIsGlobalMap(w: TheWorld, ops: seq<Op>)
    ensures Run(w, ops).last == GlobalMap(Accepted(w, ops))
  {
    hide Limited, Duplicate, Move, Insert, MoveEvents;
    if ops == [] {
    } else {
      LastIsGlobalMap(w, ops[..|ops| - 1]);
      var before, after := Accepted(w, ops[..|ops| - 1]), Accepted(w, ops);
      assert |after| > |before| ==> after[..|after| - 1] == before;
      assert |after| == |before| ==> after == before;
    }
  }

  function Packets(ops: seq<Op>): nat {
    if ops == [] then 0 else Packets(ops[..|ops| - 1]) + if ops[|ops| - 1].Packet? then 1 else 0
  }

  /** Every packet is either routed or dropped. */
  lemma {:induction false} PacketsAccounted(w: TheWorld, ops: seq<Op>)
    ensures Run(w, ops).routed + Run(w, ops).dropped == Packets(ops)
  {
    hide Limited, Duplicate, Move, Insert, MoveEvents;
    if ops == [] {
    } else {
      PacketsAccounted(w, ops[..|ops| - 1]);
    }
  }

  // ----- the limiter over whole runs -----

  /** The packets of id's class modulo 1024 that came since the last tick and were not limited. */
  function AdmittedSinceTick(w: TheWorld, ops: seq<Op>, id: UInt32): nat {
    if ops == [] then 0
    else
      var init := ops[..|ops| - 1];
      match ops[|ops| - 1]
      case Packet(e, _) =>
        AdmittedSinceTick(w, init, id) +
        if e % CountMin.COLUMNS == id % CountMin.COLUMNS && !Limited(Run(w, init).adds, e) then 1 else 0
      case Seed(_, _) => AdmittedSinceTick(w, init, id)
      case Tick => 0
  }

  lemma PassedOneMore(adds: seq<UInt32>, e: UInt32, id: UInt32)
    ensures CountMin.PassedCount(adds + [e], id) == CountMin.PassedCount(adds, id) +
            if e % CountMin.COLUMNS == id % CountMin.COLUMNS && !Limited(adds, e) then 1 else 0
  {
    hide CountMin.Estimate;
    assert (adds + [e])[..|adds|] == adds;
  }

  lemma NonePassed(id: UInt32)
    ensures CountMin.PassedCount([], id) == 0
  {
  }

  lemma {:induction false} AdmittedIsPassed(w: TheWorld, ops: seq<Op>, id: UInt32)
    ensures AdmittedSinceTick(w, ops, id) == CountMin.PassedCount(Run(w, ops).adds, id)
  {
    hide CountMin.Estimate, CountMin.PassedCount, Duplicate, Move, MoveEvents, CellOf, Insert;
    if ops == [] {
      NonePassed(id);
    } else {
      var init, op := ops[..|ops| - 1], ops[|ops| - 1];
      AdmittedIsPassed(w, init, id);
      match op
      case Packet(e, _) => PassedOneMore(Run(w, init).adds, e, id);
      case Seed(_, _) =>
      case Tick => NonePassed(id);
    }
  }

  /** The packets of id's class modulo 1024 that came since the last tick. */
  function ArrivalsSinceTick(ops: seq<Op>, id: UInt32): nat {
    if ops == [] then 0
    else
      match ops[|ops| - 1]
      case Packet(e, _) => ArrivalsSinceTick(ops[..|ops| - 1], id) + if e % 1024 == id % 1024 then 1 else 0
      case Seed(_, _) => ArrivalsSinceTick(ops[..|ops| - 1], id)
      case Tick => 0
  }

  lemma ClassOneMore(adds: seq<UInt32>, e: UInt32, id: UInt32)
    ensures CountMin.ClassCount(adds + [e], id) ==
            CountMin.ClassCount(adds, id) + if e % 1024 == id % 1024 then 1 else 0
    ensures CountMin.ClassCount([], id) == 0
  {
    assert (adds + [e])[..|adds|] == adds;
  }

  lemma {:induction false} ArrivalsAreClass(w: TheWorld, ops: seq<Op>, id: UInt32)
    ensures ArrivalsSinceTick(ops, id) == CountMin.ClassCount(Run(w, ops).adds, id)
  {
    hide Limited, Duplicate, Move, MoveEvents, CellOf, Insert, CountMin.ClassCount;
    ClassOneMore([], 0, id);
    if ops == [] {
    } else {
      var init, op := ops[..|ops| - 1], ops[|ops| - 1];
      ArrivalsAreClass(w, init, id);
      match op
      case Packet(e, _) => ClassOneMore(Run(w, init).adds, e, id);
      case _ =>
    }
  }

  /** Between two ticks exactly the first 50 packets of each class modulo 1024 are admitted. */
  lemma FiftyPerTick(w: TheWorld, ops: seq<Op>, id: UInt32)
    requires |Run(w, ops).adds| < TWO32
    ensures AdmittedSinceTick(w, ops, id) == Min(50, ArrivalsSinceTick(ops, id))
  {
    AdmittedIsPassed(w, ops, id);
    ArrivalsAreClass(w, ops, id);
    CountMin.LimiterPassesFirstFifty(Run(w, ops).adds, id);
  }

  // ----- the outcome of one packet -----

  lemma LimitedAfterFifty(w: TheWorld, ops: seq<Op>, id: UInt32)
    requires |Run(w, ops).adds| + 1 < TWO32
    ensures Limited(Run(w, ops).adds, id) <==> ArrivalsSinceTick(ops, id) >= 50
  {
    hide Run, CountMin.Estimate;
    var adds := Run(w, ops).adds;
    CountMin.EstimateIsExact(adds + [id], id);
    ArrivalsAreClass(w, ops, id);
    assert (adds + [id])[..|adds|] == adds;
  }

  /** What one packet does after any run with fewer than 2^32 - 1 packets since the last tick: it is dropped iff 50
      packets of its class came since the tick, or it repeats the numbers of the last position. Otherwise the position
      is replaced, the grid follows it, each reporting fence fires an event, and its cell's counter is given the id. */
  lemma PacketOutcome(w: TheWorld, ops: seq<Op>, id: UInt32, c: Coord)
    requires |Run(w, ops).adds| + 1 < TWO32
    ensures
      var s, s' := Run(w, ops), Run(w, ops + [Packet(id, c)]);
      var prev := if id in s.last then Some(s.last[id]) else None;
      s'.adds == s.adds + [id] &&
      if ArrivalsSinceTick(ops, id) >= 50 ||
         (prev.Some? && Value(prev.value.lat) == Value(c.lat) && Value(prev.value.lng) == Value(c.lng))
      then s' == s.(adds := s'.adds, dropped := s.dropped + 1)
      else
        && s'.routed == s.routed + 1 && s'.dropped == s.dropped
        && s'.last == s.last[id := c]
        && (Agrees(s.grid, s.last) ==> Agrees(s'.grid, s'.last))
        && s'.events == s.events + |Reporting(w, prev, c)|
        && s'.counted == s.counted[CellOf(c) := s.counted[CellOf(c)] + [id]]
  {
    hide Value, CellOf, Limited, Agrees, Move, MoveEvents;
    var more := ops + [Packet(id, c)];
    assert more[..|more| - 1] == ops;
    var s := Run(w, ops);
    LimitedAfterFifty(w, ops, id);
    EventsCounted(w, id, Lookup(s.last, id), c);
    if Agrees(s.grid, s.last) {
      MoveAgrees(s.grid, s.last, id, c);
    }
  }

  // ----- dropping duplicates -----

  /** The distinct counter of each entity's current cell has been given its id. */
  ghost predicate Absorbed(s: State) {
    s.Valid() && forall id :: id in s.last ==> id in s.counted[CellOf(s.last[id])]
  }

  ghost predicate NoSeeds(ops: seq<Op>) {
    forall i :: 0 <= i < |ops| ==> !ops[i].Seed?
  }

  lemma StepAbsorbs(w: TheWorld, s: State, op: Op)
    requires Absorbed(s) && !op.Seed?
    ensures Absorbed(Step(w, s, op))
  {
    hide CellOf, Limited, Duplicate, Move, Insert, MoveEvents;
  }

  lemma RunValid(w: TheWorld, ops: seq<Op>)
    ensures Run(w, ops).Valid()
  {
  }

  lemma PacketAllowed(s: State, op: Op)
    requires !op.Seed?
    ensures SeedAllowed(s, op)
  {
  }

  lemma InitialAbsorbed()
    ensures Absorbed(Initial())
  {
  }

  lemma {:induction false} RunAbsorbs(w: TheWorld, ops: seq<Op>)
    requires NoSeeds(ops)
    ensures Absorbed(Run(w, ops)) && Agrees(Run(w, ops).grid, Run(w, ops).last)
  {
    hide Agrees, Absorbed, Step, SeedAllowed;
    if ops == [] {
      InitialAgrees();
      InitialAbsorbed();
    } else {
      var init, op := ops[..|ops| - 1], ops[|ops| - 1];
      RunAbsorbs(w, init);
      RunValid(w, init);
      StepAbsorbs(w, Run(w, init), op);
      StepAgrees(w, Run(w, init), op);
      PacketAllowed(Run(w, init), op);
    }
  }

  lemma {:induction false} StandingStill(id: UInt32, fences: seq<Fences.Fence>, p: Fences.Point)
    ensures Fences.Scan(id, fences, Some(p), p) == []
  {
    if |fences| == 0 {
    } else {
      StandingStill(id, fences[..|fences| - 1], p);
    }
  }

  /** The operation is a packet of the entity that is neither limited nor a duplicate. */
  predicate Accepts(s: State, op: Op, id: UInt32) {
    op.Packet? && op.id == id && !Limited(s.adds, id) && !Duplicate(s.last, id, op.coord)
  }

  /** Some packet of the entity was routed in the run. */
  predicate RoutedBefore(w: TheWorld, ops: seq<Op>, id: UInt32) {
    ops != [] &&
    var init, op := ops[..|ops| - 1], ops[|ops| - 1];
    RoutedBefore(w, init, id) || Accepts(Run(w, init), op, id)
  }

  /** Some packet of the entity was routed into the cell. */
  predicate RoutedInto(w: TheWorld, ops: seq<Op>, id: UInt32, cell: UInt8) {
    ops != [] &&
    var init, op := ops[..|ops| - 1], ops[|ops| - 1];
    RoutedInto(w, init, id, cell) || (Accepts(Run(w, init), op, id) && CellOf(op.coord) == cell)
  }

  /** Over any run whatsoever, a cell's counter has been given exactly the ids of the packets routed into it. */
  lemma {:induction false} CountedIffRoutedInto(w: TheWorld, ops: seq<Op>, id: UInt32, cell: UInt8)
    ensures id in Run(w, ops).counted[cell] <==> RoutedInto(w, ops, id, cell)
  {
    hide CellOf, Limited, Duplicate, Move, Insert, MoveEvents;
    if ops == [] {
    } else {
      CountedIffRoutedInto(w, ops[..|ops| - 1], id, cell);
    }
  }

  /** Only a routed packet and a seed of the entity change its last position. */
  lemma LastAfterStep(w: TheWorld, s: State, op: Op, id: UInt32)
    requires s.Valid()
    ensures Lookup(Step(w, s, op).last, id) ==
            if Accepts(s, op, id) || (op.Seed? && op.id == id) then Some(op.coord) else Lookup(s.last, id)
  {
    hide Limited, Duplicate, Move, Insert, MoveEvents, CellOf;
  }

  lemma AcceptsPacket(s: State, op: Op, id: UInt32)
    ensures Accepts(s, op, id) ==> op.Packet?
  {
  }

  /** With allowed seeds, an entity that was ever routed was routed into its current cell. */
  lemma {:induction false} RoutedIntoCurrent(w: TheWorld, ops: seq<Op>, id: UInt32)
    requires SeedsAllowed(w, ops)
    ensures RoutedBefore(w, ops, id) ==>
              id in Run(w, ops).last && RoutedInto(w, ops, id, CellOf(Run(w, ops).last[id]))
    ensures !RoutedBefore(w, ops, id) ==> forall cell: UInt8 :: !RoutedInto(w, ops, id, cell)
  {
    hide CellOf, Step, Accepts;
    if ops == [] {
    } else {
      var init, op := ops[..|ops| - 1], ops[|ops| - 1];
      assert forall i :: 0 <= i < |init| ==> init[..i] == ops[..i];
      RoutedIntoCurrent(w, init, id);
      LastAfterStep(w, Run(w, init), op, id);
      assert SeedAllowed(Run(w, init), op);
      assert Accepts(Run(w, init), op, id) ==> op.Packet? by { AcceptsPacket(Run(w, init), op, id); }
    }
  }

  /** With allowed seeds, the counter of an entity's current cell holds its id iff some packet of it was routed;
      otherwise no counter holds it. */
  lemma CountedIffRouted(w: TheWorld, ops: seq<Op>, id: UInt32)
    requires SeedsAllowed(w, ops)
    ensures RoutedBefore(w, ops, id) ==>
              id in Run(w, ops).last && id in Run(w, ops).counted[CellOf(Run(w, ops).last[id])]
    ensures !RoutedBefore(w, ops, id) ==> forall cell: UInt8 :: id !in Run(w, ops).counted[cell]
  {
    hide CellOf, Run, RoutedBefore, RoutedInto;
    RoutedIntoCurrent(w, ops, id);
    forall cell: UInt8 ensures id in Run(w, ops).counted[cell] <==> RoutedInto(w, ops, id, cell) {
      CountedIffRoutedInto(w, ops, id, cell);
    }
  }

  /** The entity is stored in the shard of its last position, with exactly that coordinate. */
  predicate Home(s: State, id: UInt32) {
    id in s.last ==> In(s.grid, CellOf(s.last[id]), id) && At(s.grid, CellOf(s.last[id]), id) == s.last[id]
  }

  lemma MoveHome(g: Grid, id: UInt32, c: Coord, prev: Option<Coord>)
    ensures In(Move(g, id, c, prev), CellOf(c), id) && At(Move(g, id, c, prev), CellOf(c), id) == c
    ensures forall cell: UInt8, e: UInt32 :: e != id && In(g, cell, e) ==>
              In(Move(g, id, c, prev), cell, e) && At(Move(g, id, c, prev), cell, e) == At(g, cell, e)
  {
    hide CellOf, In, At, Insert, Delete;
    if prev.Some? {
      DeleteRemoves(g, CellOf(prev.value), id);
      InsertPlaces(Delete(g, CellOf(prev.value), id), id, c);
    }
    InsertPlaces(g, id, c);
  }

  lemma StepHome(w: TheWorld, s: State, op: Op, id: UInt32)
    requires s.Valid() && Home(s, id)
    ensures Home(Step(w, s, op), id)
  {
    hide CellOf, In, At, Move, Insert, MoveEvents, Limited, Duplicate;
    match op
    case Packet(e, c) => MoveHome(s.grid, e, c, Lookup(s.last, e));
    case Seed(e, c) => InsertPlaces(s.grid, e, c);
    case Tick =>
  }

  lemma InitialHome(id: UInt32)
    ensures Home(Initial(), id)
  {
  }

  /** Over any run whatsoever, seeds into other cells included, every entity is at home (and perhaps elsewhere too). */
  lemma {:induction false} RunHome(w: TheWorld, ops: seq<Op>, id: UInt32)
    ensures Home(Run(w, ops), id)
  {
    hide Home, Step;
    if ops == [] {
      InitialHome(id);
    } else {
      RunHome(w, ops[..|ops| - 1], id);
      RunValid(w, ops[..|ops| - 1]);
      StepHome(w, Run(w, ops[..|ops| - 1]), ops[|ops| - 1], id);
    }
  }

  /** Routing in full would change no register of any distinct counter. */
  ghost predicate SameRegisters(s: State, s': State)
    requires s.Valid() && s'.Valid()
  {
    forall cell: UInt8 :: HyperLogLogs.RegistersOf(s'.counted[cell]) == HyperLogLogs.RegistersOf(s.counted[cell])
  }

  /** Only the counter of the packet's cell can change. */
  lemma RegistersOfCell(w: TheWorld, s: State, id: UInt32, c: Coord)
    requires s.Valid()
    ensures SameRegisters(s, Routed(w, s, id, c)) <==>
            HyperLogLogs.RegistersOf(s.counted[CellOf(c)] + [id]) == HyperLogLogs.RegistersOf(s.counted[CellOf(c)])
  {
    hide CellOf, HyperLogLogs.RegistersOf, MoveEvents, Move;
    var cell := CellOf(c);
    assert Routed(w, s, id, c).counted[cell] == s.counted[cell] + [id];
  }

  lemma ReinsertSame(g: Grid, id: UInt32, c: Coord)
    requires In(g, CellOf(c), id) && At(g, CellOf(c), id) == c
    ensures Insert(g, id, c) == g && Move(g, id, c, Some(c)) == g
  {
    hide CellOf;
    var entries := g[Slot(CellOf(c), id)];
    assert entries[id := c] == entries;
  }

  /** One more add changes no register iff the id's register has reached its rank, as it has if the id was added. */
  lemma OneMoreAdd(adds: seq<UInt32>, id: UInt32)
    ensures HyperLogLogs.RegistersOf(adds + [id]) == HyperLogLogs.RegistersOf(adds) <==>
            HyperLogLogs.Rank(id) <= HyperLogLogs.Register(adds, HyperLogLogs.Index(id))
    ensures id in adds ==> HyperLogLogs.Rank(id) <= HyperLogLogs.Register(adds, HyperLogLogs.Index(id))
  {
    hide HyperLogLogs.Rank, HyperLogLogs.Index;
    var more, i := adds + [id], HyperLogLogs.Index(id);
    assert more[..|more| - 1] == adds;
    assert HyperLogLogs.RegistersOf(more)[i] == HyperLogLogs.Register(more, i);
    assert HyperLogLogs.RegistersOf(adds)[i] == HyperLogLogs.Register(adds, i);
    HyperLogLogs.RegisterIsMaximum(adds, i);
  }

  /** Dropping a packet that repeats the stored position, after any run: routing it in full would fire no event, and
      would leave the grid and the positions as they are unless it writes the other zero (-0 and 0 compare equal). It
      would change no register iff the register that the id falls into has reached its rank; in particular if the
      counter of the cell holds the id already, which is the case iff some packet of the entity was routed into the
      cell. With allowed seeds the grid keeps agreeing, and any routed packet of the entity will do. */
  lemma DuplicateDropIsTransparent(w: TheWorld, ops: seq<Op>, id: UInt32, c: Coord)
    requires Duplicate(Run(w, ops).last, id, c)
    ensures
      var s := Run(w, ops);
      var s' := Routed(w, s, id, c);
      var counted := s.counted[CellOf(c)];
      && (s'.last == s.last <==> c == s.last[id]) && (s'.grid == s.grid <==> c == s.last[id])
      && s'.events == s.events && MoveEvents(w, id, Some(s.last[id]), c) == []
      && (id in counted <==> RoutedInto(w, ops, id, CellOf(c)))
      && (id in counted ==> SameRegisters(s, s'))
      && (SameRegisters(s, s') <==> HyperLogLogs.Rank(id) <= HyperLogLogs.Register(counted, HyperLogLogs.Index(id)))
      && (SeedsAllowed(w, ops) ==>
            && Agrees(s'.grid, s'.last)
            && (id in counted <==> RoutedBefore(w, ops, id)))
  {
    hide Cells.ShardKey, HyperLogLogs.Register, HyperLogLogs.Rank, HyperLogLogs.Index, HyperLogLogs.RegistersOf, Value,
         Agrees, Move, Insert, Limited, In, At, Run, RoutedBefore, RoutedInto, SeedsAllowed;
    var s := Run(w, ops);
    StandingStill(id, Fences.Near(w.fences, w.covers, Fences.CellOf(PointOf(c))), PointOf(c));
    assert CellOf(c) == CellOf(s.last[id]);
    assert s.last[id := c][id] == c && s.last[id := s.last[id]] == s.last;
    RunHome(w, ops, id);
    MoveHome(s.grid, id, c, Some(s.last[id]));
    if c == s.last[id] {
      ReinsertSame(s.grid, id, c);
    }
    CountedIffRoutedInto(w, ops, id, CellOf(c));
    OneMoreAdd(s.counted[CellOf(c)], id);
    RegistersOfCell(w, s, id, c);
    if SeedsAllowed(w, ops) {
      RunAgrees(w, ops);
      CountedIffRouted(w, ops, id);
      MoveAgrees(s.grid, s.last, id, c);
    }
  }

  lemma FirstIdCounts(id: UInt32)
    ensures HyperLogLogs.RegistersOf([id]) != HyperLogLogs.RegistersOf([])
  {
    hide HyperLogLogs.Index, HyperLogLogs.Rank;
    var i := HyperLogLogs.Index(id);
    assert [id][..0] == [];
    assert HyperLogLogs.RegistersOf([id])[i] == HyperLogLogs.Register([id], i);
    assert HyperLogLogs.RegistersOf([])[i] == 0;
  }

  /** A run in which no packet was routed before: a repeated seed is dropped, and its cell never counts it. */
  lemma SeededDuplicateIsNotCounted(w: TheWorld, id: UInt32, c: Coord)
    ensures
      var s := Run(w, [Seed(id, c)]);
      && Duplicate(s.last, id, c)
      && !SameRegisters(s, Routed(w, s, id, c))
  {
    hide CellOf, HyperLogLogs.RegistersOf, MoveEvents, Move, Insert;
    var ops := [Seed(id, c)];
    assert ops[..|ops| - 1] == [];
    var s := Run(w, ops);
    assert s == Step(w, Run(w, []), ops[0]);
    assert s.counted[CellOf(c)] == [];
    assert [] + [id] == [id];
    FirstIdCounts(id);
  }
}
