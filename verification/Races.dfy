/** What holds over every interleaving, with no assumption about the packets in flight
    (pkg/engine/pipeline.go, pkg/spatial/grid.go). */
module Races {
  import opened Words
  import opened Coords
  import opened Grids
  import opened Pipeline
  import opened Machine
  import CountMin
  import Egress
  import GridQueries
  import HyperLogLogs

  // ----- entries stay well placed -----

  lemma StepKeepsPlacement(w: TheWorld, s: Shared, step: Action)
    requires Valid(s) && WellPlaced(s.grid)
    ensures WellPlaced(Next(w, s, step).grid)
  {
    hide CellOf, SameSeen, OldSeen, FiredSeen, Valid, Limited, Insert, Delete, In, At;
    if Enabled(w, s, step) {
      match step
      case DeleteOld(i, from) => DeleteRemoves(s.grid, from, s.workers[i].id);
      case InsertNew(i) => InsertPlaces(s.grid, s.workers[i].id, s.workers[i].c);
      case EndSeed(i) => InsertPlaces(s.grid, s.workers[i].id, s.workers[i].c);
      case _ =>
    }
  }

  // ----- no entity gets lost -----

  /** The worker is between its delete and its insert. */
  predicate PendingIn(wk: Worker, id: UInt32) {
    (wk.Inserting? || wk.Seeding?) && wk.id == id
  }

  /** The worker has inserted the entity and has not yet written its position. */
  predicate StoringIn(wk: Worker, id: UInt32) {
    (wk.Evaluating? || wk.Writing?) && wk.id == id
  }

  ghost predicate Pending(ws: seq<Worker>, id: UInt32) {
    exists i :: 0 <= i < |ws| && PendingIn(ws[i], id)
  }

  ghost predicate Storing(ws: seq<Worker>, id: UInt32) {
    exists i :: 0 <= i < |ws| && StoringIn(ws[i], id)
  }

  ghost predicate Stored(g: Grid, id: UInt32) {
    exists cell: UInt8 :: In(g, cell, id)
  }

  /** An entity with a position, or about to get one, is in some shard unless a worker is about to insert it;
      and no other entity is in any shard. */
  ghost predicate Kept(s: Shared, id: UInt32) {
    && (id in s.ptrs || Storing(s.workers, id) ==> Stored(s.grid, id) || Pending(s.workers, id))
    && (Stored(s.grid, id) ==> id in s.ptrs || Storing(s.workers, id))
    && (forall j :: 0 <= j < |s.workers| && s.workers[j].Seeding? && s.workers[j].id == id ==> id in s.ptrs)
  }

  lemma OthersKept(s: Shared, s': Shared, i: nat, e: UInt32, id: UInt32)
    requires Kept(s, id) && id != e
    requires i < |s.workers| && |s'.workers| == |s.workers|
    requires forall j :: 0 <= j < |s.workers| && j != i ==> s'.workers[j] == s.workers[j]
    requires (s.workers[i].Active() ==> s.workers[i].id == e) && (s'.workers[i].Active() ==> s'.workers[i].id == e)
    requires SameElsewhere(s.grid, s'.grid, e) && (id in s'.ptrs <==> id in s.ptrs)
    ensures Kept(s', id)
  {
  }

  /** Only an insert brings the entity into the grid, and only a delete takes it out. */
  lemma StoredAfter(w: TheWorld, s: Shared, step: Action, i: nat, e: UInt32)
    requires Valid(s) && Enabled(w, s, step) && i < |s.workers| && Actor(s, step) == Some((i, e))
    ensures
      var g, g' := s.grid, Next(w, s, step).grid;
      && (if step.InsertNew? || step.EndSeed? then Stored(g', e) else Stored(g', e) ==> Stored(g, e))
      && (!step.DeleteOld? && Stored(g, e) ==> Stored(g', e))
  {
    hide CellOf, SameSeen, OldSeen, FiredSeen, Valid, Limited, Insert, Delete, In, At;
    match step
    case DeleteOld(_, from) =>
      DeleteRemoves(s.grid, from, e);
    case InsertNew(_) =>
      InsertPlaces(s.grid, e, s.workers[i].c);
      assert In(Next(w, s, step).grid, CellOf(s.workers[i].c), e);
    case EndSeed(_) =>
      InsertPlaces(s.grid, e, s.workers[i].c);
      assert In(Next(w, s, step).grid, CellOf(s.workers[i].c), e);
    case _ =>
  }

  /** How the step's worker moves between pending and storing. */
  lemma OwnPhase(w: TheWorld, s: Shared, step: Action, i: nat, e: UInt32)
    requires Valid(s) && Enabled(w, s, step) && i < |s.workers| && Actor(s, step) == Some((i, e))
    ensures
      var s' := Next(w, s, step);
      var wk, wk' := s.workers[i], s'.workers[i];
      && (step.InsertNew? ==> StoringIn(wk', e)) && (step.DeleteOld? ==> PendingIn(wk', e))
      && (PendingIn(wk, e) && !PendingIn(wk', e) ==> step.InsertNew? || step.EndSeed?)
      && (StoringIn(wk', e) && !StoringIn(wk, e) ==> step.InsertNew?)
      && (StoringIn(wk, e) && !StoringIn(wk', e) ==> e in s'.ptrs)
      && (e in s.ptrs ==> e in s'.ptrs)
      && (e in s'.ptrs && e !in s.ptrs ==> StoringIn(wk, e) || PendingIn(wk', e))
      && (wk'.Seeding? ==> e in s'.ptrs) && (step.EndSeed? ==> wk.Seeding? && wk.id == e)
  {
    hide CellOf, SameSeen, OldSeen, FiredSeen, Valid, Limited, Insert, Delete;
  }

  /** Whether any worker is pending or storing changes only with worker i. */
  lemma OtherWorkers(ws: seq<Worker>, ws': seq<Worker>, i: nat, e: UInt32)
    requires i < |ws| && |ws'| == |ws| && forall j :: 0 <= j < |ws| && j != i ==> ws'[j] == ws[j]
    ensures Pending(ws, e) && !PendingIn(ws[i], e) ==> Pending(ws', e)
    ensures Storing(ws, e) && !StoringIn(ws[i], e) ==> Storing(ws', e)
    ensures Storing(ws', e) && !StoringIn(ws'[i], e) ==> Storing(ws, e)
  {
  }

  lemma OwnKept(w: TheWorld, s: Shared, step: Action, i: nat, e: UInt32)
    requires Valid(s) && Enabled(w, s, step) && i < |s.workers| && Actor(s, step) == Some((i, e))
    requires Kept(s, e)
    ensures Kept(Next(w, s, step), e)
  {
    hide Valid, Stored, SameElsewhere, Next, Enabled, Actor;
    var s' := Next(w, s, step);
    StepIsLocal(w, s, step, i, e);
    StoredAfter(w, s, step, i, e);
    OwnPhase(w, s, step, i, e);
    OtherWorkers(s.workers, s'.workers, i, e);
    assert PendingIn(s.workers[i], e) ==> Pending(s.workers, e);
    assert PendingIn(s'.workers[i], e) ==> Pending(s'.workers, e);
    assert StoringIn(s.workers[i], e) ==> Storing(s.workers, e);
    assert StoringIn(s'.workers[i], e) ==> Storing(s'.workers, e);
  }

  lemma ActorExists(w: TheWorld, s: Shared, step: Action, i: nat, e: UInt32)
    requires Valid(s) && Enabled(w, s, step) && Actor(s, step) == Some((i, e))
    ensures i < |s.workers| && (s.workers[i].Active() ==> s.workers[i].id == e)
  {
  }

  lemma SameKept(s: Shared, s': Shared, id: UInt32)
    requires Kept(s, id) && s'.grid == s.grid && s'.ptrs == s.ptrs && s'.workers == s.workers
    ensures Kept(s', id)
  {
  }

  lemma StepKeeps(w: TheWorld, s: Shared, step: Action, id: UInt32)
    requires Valid(s) && forall id: UInt32 :: Kept(s, id)
    ensures Kept(Next(w, s, step), id)
  {
    hide Kept;
    if Enabled(w, s, step) {
      match Actor(s, step)
      case Some((i, e)) =>
        ActorExists(w, s, step, i, e);
        StepIsLocal(w, s, step, i, e);
        if id == e {
          OwnKept(w, s, step, i, e);
        } else {
          OthersKept(s, Next(w, s, step), i, e, id);
        }
      case None =>
        SameKept(s, Next(w, s, step), id);
    }
  }

  // ----- what a tick reads -----

  /** The record's position lies in the cell. */
  predicate RecordIn(r: Egress.Record, cell: UInt8) {
    Finite(r.lat) && Finite(r.lng) && CellOf(Coord(r.lng, r.lat)) == cell
  }

  /** The ticker has read records of its cell only, none of an entity twice. */
  ghost predicate TickerOk(t: Ticker) {
    t.Reading? ==>
      && t.stripe <= STRIPES
      && (forall k :: 0 <= k < |t.records| ==>
          RecordIn(t.records[k], t.cell) && t.records[k].entityId % STRIPES < t.stripe)
      && (forall j, k :: 0 <= j < k < |t.records| ==> t.records[j].entityId != t.records[k].entityId)
  }

  lemma StripeRecords(g: Grid, cell: UInt8, stripe: nat, records: seq<Egress.Record>, k: nat)
    requires WellPlaced(g) && stripe < STRIPES && k < |records|
    requires GridQueries.Lists(records, g[16 * cell + stripe])
    ensures RecordIn(records[k], cell) && records[k].entityId % STRIPES == stripe
  {
    hide CellOf;
    var id := records[k].entityId;
    SlotOfStriped(g, 16 * cell + stripe, id);
    assert In(g, cell, id) && records[k] == RecordOf(id, Grids.At(g, cell, id));
  }

  lemma StepKeepsTicker(w: TheWorld, s: Shared, step: Action)
    requires Valid(s) && WellPlaced(s.grid) && TickerOk(s.ticker)
    ensures TickerOk(Next(w, s, step).ticker)
  {
    hide RecordIn, WellPlaced, SameSeen, OldSeen, FiredSeen, Limited, Insert, Delete;
    if Enabled(w, s, step) {
      match step
      case ReadStripe(records) =>
        forall k | 0 <= k < |records|
          ensures RecordIn(records[k], s.ticker.cell) && records[k].entityId % STRIPES == s.ticker.stripe
        {
          StripeRecords(s.grid, s.ticker.cell, s.ticker.stripe, records, k);
        }
      case _ =>
    }
  }

  // ----- accounting -----

  /** The workers that have a packet in hand. */
  function Busy(ws: seq<Worker>): nat {
    if ws == [] then 0
    else Busy(ws[..|ws| - 1]) + if ws[|ws| - 1].Idle? || ws[|ws| - 1].Seeding? then 0 else 1
  }

  lemma {:induction false} BusyChanges(ws: seq<Worker>, i: nat, wk: Worker)
    requires i < |ws|
    ensures Busy(ws[i := wk]) == Busy(ws) + (if wk.Idle? || wk.Seeding? then 0 else 1) -
                                 (if ws[i].Idle? || ws[i].Seeding? then 0 else 1)
  {
    var ws' := ws[i := wk];
    if i == |ws| - 1 {
      assert ws'[..i] == ws[..i];
    } else {
      BusyChanges(ws[..|ws| - 1], i, wk);
      assert ws'[..|ws| - 1] == ws[..|ws| - 1][i := wk];
    }
  }

  lemma StepAccounts(w: TheWorld, s: Shared, step: Action)
    requires Valid(s)
    ensures
      var s' := Next(w, s, step);
      s'.routed + s'.dropped + Busy(s'.workers) ==
      s.routed + s.dropped + Busy(s.workers) + Packets(Began(w, s, step))
  {
    hide SameSeen, OldSeen, FiredSeen, Limited, Insert, Delete, Busy, CellOf, Valid;
    if Enabled(w, s, step) {
      match Actor(s, step)
      case Some((i, e)) =>
        ActorExists(w, s, step, i, e);
        BusyChanges(s.workers, i, Next(w, s, step).workers[i]);
      case None =>
    }
  }

  lemma {:induction false} PacketsAppend(ops: seq<Op>, more: seq<Op>)
    ensures Packets(ops + more) == Packets(ops) + Packets(more)
  {
    if more == [] {
      assert ops + more == ops;
    } else {
      var all := ops + more;
      assert all[..|all| - 1] == ops + more[..|more| - 1];
      PacketsAppend(ops, more[..|more| - 1]);
    }
  }

  lemma {:induction false} NoneBusy(ws: seq<Worker>)
    requires forall i :: 0 <= i < |ws| ==> ws[i].Idle?
    ensures Busy(ws) == 0
  {
    if ws == [] {
    } else {
      NoneBusy(ws[..|ws| - 1]);
    }
  }

  // ----- the limiter -----

  lemma AddsFollow(w: TheWorld, s: Shared, ops: seq<Op>, step: Action)
    requires s.adds == Run(w, ops).adds
    ensures Next(w, s, step).adds == Run(w, ops + Began(w, s, step)).adds
  {
    hide Valid, Enabled, Limited, Duplicate, Insert, Move, CellOf;
    var began := Began(w, s, step);
    if began == [] {
      assert ops + began == ops;
    } else {
      assert (ops + began)[..|ops + began| - 1] == ops;
    }
  }

  /** The limiter counts the packets in the order in which they began, whatever else is interleaved, so each packet
      is admitted or limited just as in the sequential run. */
  lemma {:induction false} LimiterInOrder(w: TheWorld, n: nat, steps: seq<Action>)
    ensures Exec(w, n, steps).adds == Run(w, Log(w, n, steps)).adds
  {
    hide Valid, Next, Began;
    if steps == [] {
    } else {
      var init, step := steps[..|steps| - 1], steps[|steps| - 1];
      LimiterInOrder(w, n, init);
      AddsFollow(w, Exec(w, n, init), Log(w, n, init), step);
    }
  }

  // ----- every interleaving -----

  lemma AtStart(n: nat)
    ensures
      var s := Start(n);
      && Valid(s) && WellPlaced(s.grid) && TickerOk(s.ticker)
      && (forall id: UInt32 :: Kept(s, id))
      && s.routed + s.dropped + Busy(s.workers) == 0 == Packets([])
  {
    NoneBusy(Start(n).workers);
  }

  /** Over every interleaving of any number of workers, seeds and ticks, however many packets of one entity are in
      flight: each entry sits in the shard of its own coordinate and the stripe of its id; no entity with a position
      is missing from the grid unless a worker is about to insert it; what a tick has read of a cell lies in that
      cell, no entity twice; and every packet is routed, dropped or in hand. */
  lemma {:induction false} EveryInterleaving(w: TheWorld, n: nat, steps: seq<Action>)
    ensures
      var s := Exec(w, n, steps);
      && Valid(s) && WellPlaced(s.grid) && TickerOk(s.ticker)
      && (forall id: UInt32 :: Kept(s, id))
      && s.routed + s.dropped + Busy(s.workers) == Packets(Log(w, n, steps))
  {
    hide Valid, WellPlaced, TickerOk, Kept, Busy, Next, Began, Packets;
    if steps == [] {
      AtStart(n);
    } else {
      var init, step := steps[..|steps| - 1], steps[|steps| - 1];
      var s := Exec(w, n, init);
      EveryInterleaving(w, n, init);
      NextValid(w, s, step);
      StepKeepsPlacement(w, s, step);
      StepKeepsTicker(w, s, step);
      forall id: UInt32 ensures Kept(Next(w, s, step), id) {
        StepKeeps(w, s, step, id);
      }
      StepAccounts(w, s, step);
      PacketsAppend(Log(w, n, init), Began(w, s, step));
    }
  }

  /** When no worker is busy, the grid holds exactly the entities that have a position, each at least once, and
      every packet has been counted. */
  lemma NoneLost(w: TheWorld, n: nat, steps: seq<Action>)
    requires Quiescent(Exec(w, n, steps))
    ensures
      var s := Exec(w, n, steps);
      && (forall id: UInt32 :: id in s.ptrs <==> Stored(s.grid, id))
      && s.routed + s.dropped == Packets(Log(w, n, steps))
  {
    hide WellPlaced, TickerOk, Valid, Stored;
    var s := Exec(w, n, steps);
    EveryInterleaving(w, n, steps);
    NoneBusy(s.workers);
    forall id: UInt32 ensures id in s.ptrs <==> Stored(s.grid, id) {
      assert Kept(s, id);
    }
  }

  // ----- two packets of one entity in flight -----

  /** The state can be reached by going on after the steps. */
  ghost predicate Reachable(w: TheWorld, n: nat, steps: seq<Action>, s: Shared) {
    Valid(s) && exists more :: Exec(w, n, steps + more) == s
  }

  lemma Go(w: TheWorld, n: nat, steps: seq<Action>, s: Shared, step: Action) returns (s': Shared)
    requires Reachable(w, n, steps, s) && Enabled(w, s, step)
    ensures Reachable(w, n, steps, s') && s' == Do(s, step, w)
  {
    hide Valid, Enabled, Do;
    var more :| Exec(w, n, steps + more) == s;
    var all := steps + (more + [step]);
    assert all[..|all| - 1] == steps + more;
    assert Exec(w, n, all) == Next(w, s, step);
    NextValid(w, s, step);
    s' := Next(w, s, step);
  }

  /** The first two workers are where the arguments say, and all others are idle. */
  ghost predicate Pair(s: Shared, a: Worker, b: Worker) {
    && |s.workers| >= 2 && s.workers[0] == a && s.workers[1] == b
    && forall k :: 2 <= k < |s.workers| ==> s.workers[k].Idle?
  }

  ghost predicate SameMemory(s: Shared, s': Shared) {
    s'.heap == s.heap && s'.ptrs == s.ptrs
  }

  lemma NotAlone(s: Shared, a: Worker, b: Worker, id: UInt32)
    requires Pair(s, a, b) && a.Touches(id) && b.Touches(id)
    ensures !Alone(s.workers, 0, id) && !Alone(s.workers, 1, id)
  {
    assert s.workers[0].Touches(id) && s.workers[1].Touches(id);
  }

  function AfterAdmission(limited: bool, id: UInt32, c: Coord): Worker {
    if limited then Dropping else Loading(id, c)
  }

  /** Both packets pass the limiter, one after the other. */
  lemma BothAdmitted(w: TheWorld, n: nat, steps: seq<Action>, s0: Shared, id: UInt32, c1: Coord, c2: Coord)
    returns (s: Shared)
    requires Reachable(w, n, steps, s0) && Pair(s0, Idle, Idle)
    ensures Reachable(w, n, steps, s) && SameMemory(s0, s)
    ensures Pair(s, AfterAdmission(Limited(s0.adds, id), id, c1), AfterAdmission(Limited(s0.adds + [id], id), id, c2))
  {
    hide Limited, CellOf, Insert, Delete, MoveEvents, Reachable, SameSeen, OldSeen, FiredSeen;
    s := Go(w, n, steps, s0, Admit(0, id, c1));
    assert Pair(s, AfterAdmission(Limited(s0.adds, id), id, c1), Idle);
    s := Go(w, n, steps, s, Admit(1, id, c2));
  }

  /** Both find the same previous position. */
  lemma BothLoad(w: TheWorld, n: nat, steps: seq<Action>, s0: Shared, id: UInt32, c1: Coord, c2: Coord,
          prev: Option<Ref>)
    returns (s: Shared)
    requires Reachable(w, n, steps, s0) && Pair(s0, Loading(id, c1), Loading(id, c2))
    requires prev == if id in s0.ptrs then Some(s0.ptrs[id]) else None
    ensures Reachable(w, n, steps, s) && Pair(s, Comparing(id, c1, prev), Comparing(id, c2, prev))
    ensures SameMemory(s0, s)
  {
    hide Limited, CellOf, Insert, Delete, MoveEvents, Reachable, SameSeen, OldSeen, FiredSeen;
    s := Go(w, n, steps, s0, Load(0));
    assert Pair(s, Comparing(id, c1, prev), Loading(id, c2));
    s := Go(w, n, steps, s, Load(1));
  }

  /** The packet that prev points to, if any, is at neither coordinate. */
  predicate NeitherRepeats(s: Shared, prev: Option<Ref>, c1: Coord, c2: Coord) {
    prev.Some? ==>
      prev.value < |s.heap| &&
      !SamePlace(s.heap[prev.value].coord, c1) && !SamePlace(s.heap[prev.value].coord, c2)
  }

  lemma BothCompare(w: TheWorld, n: nat, steps: seq<Action>, s0: Shared, id: UInt32, c1: Coord, c2: Coord,
          prev: Option<Ref>)
    returns (s: Shared)
    requires Reachable(w, n, steps, s0) && Pair(s0, Comparing(id, c1, prev), Comparing(id, c2, prev))
    requires NeitherRepeats(s0, prev, c1, c2)
    ensures Reachable(w, n, steps, s) && Pair(s, Deleting(id, c1, prev), Deleting(id, c2, prev))
    ensures SameMemory(s0, s)
  {
    hide Limited, CellOf, Insert, Delete, MoveEvents, Reachable, OldSeen, FiredSeen, Alone;
    NotAlone(s0, Comparing(id, c1, prev), Comparing(id, c2, prev), id);
    s := Go(w, n, steps, s0, Compare(0, false));
    NotAlone(s, Deleting(id, c1, prev), Comparing(id, c2, prev), id);
    s := Go(w, n, steps, s, Compare(1, false));
  }

  /** Both delete from the shard of that position, insert, and evaluate the move from there. */
  lemma BothDelete(w: TheWorld, n: nat, steps: seq<Action>, s0: Shared, id: UInt32, c1: Coord, c2: Coord,
          prev: Option<Ref>, from: UInt8)
    returns (s: Shared)
    requires Reachable(w, n, steps, s0) && Pair(s0, Deleting(id, c1, prev), Deleting(id, c2, prev))
    ensures Reachable(w, n, steps, s) && Pair(s, Inserting(id, c1, prev), Inserting(id, c2, prev))
    ensures SameMemory(s0, s)
  {
    hide Limited, CellOf, Insert, Delete, MoveEvents, Reachable, SameSeen, FiredSeen, Alone;
    NotAlone(s0, Deleting(id, c1, prev), Deleting(id, c2, prev), id);
    s := Go(w, n, steps, s0, DeleteOld(0, from));
    NotAlone(s, Inserting(id, c1, prev), Deleting(id, c2, prev), id);
    s := Go(w, n, steps, s, DeleteOld(1, from));
  }

  lemma BothInsert(w: TheWorld, n: nat, steps: seq<Action>, s0: Shared, id: UInt32, c1: Coord, c2: Coord,
          prev: Option<Ref>)
    returns (s: Shared)
    requires Reachable(w, n, steps, s0) && Pair(s0, Inserting(id, c1, prev), Inserting(id, c2, prev))
    ensures Reachable(w, n, steps, s) && Pair(s, Evaluating(id, c1, prev), Evaluating(id, c2, prev))
    ensures SameMemory(s0, s) && s.grid == Insert(Insert(s0.grid, id, c1), id, c2)
  {
    hide Limited, CellOf, Insert, Delete, MoveEvents, Reachable, SameSeen, OldSeen, FiredSeen;
    s := Go(w, n, steps, s0, InsertNew(0));
    assert Pair(s, Evaluating(id, c1, prev), Inserting(id, c2, prev));
    s := Go(w, n, steps, s, InsertNew(1));
  }

  lemma BothEvaluate(w: TheWorld, n: nat, steps: seq<Action>, s0: Shared, id: UInt32, c1: Coord, c2: Coord,
          prev: Option<Ref>, f1: nat, f2: nat)
    returns (s: Shared)
    requires Reachable(w, n, steps, s0) && Pair(s0, Evaluating(id, c1, prev), Evaluating(id, c2, prev))
    requires prev.Some? ==> prev.value < |s0.heap|
    requires f1 == |MoveEvents(w, id, Deref(s0, prev), c1)| && f2 == |MoveEvents(w, id, Deref(s0, prev), c2)|
    ensures Reachable(w, n, steps, s) && Pair(s, Writing(id, c1), Writing(id, c2))
    ensures s.grid == s0.grid
  {
    hide Limited, CellOf, Insert, Delete, MoveEvents, Reachable, SameSeen, OldSeen, Alone;
    s := Go(w, n, steps, s0, Evaluate(0, f1));
    assert Pair(s, Writing(id, c1), Evaluating(id, c2, prev));
    s := Go(w, n, steps, s, Evaluate(1, f2));
  }

  /** What the last-position map holds for the entity. */
  predicate Holds(s: Shared, id: UInt32, c: Coord) {
    id in s.ptrs && s.ptrs[id] < |s.heap| && s.heap[s.ptrs[id]].coord == c
  }

  lemma PointerInHeap(w: TheWorld, n: nat, steps: seq<Action>, s: Shared, id: UInt32)
    requires Reachable(w, n, steps, s)
    ensures id in s.ptrs ==> s.ptrs[id] < |s.heap|
  {
  }

  /** The second writes first, so the position of the first stays; both count. */
  lemma BothWrite(w: TheWorld, n: nat, steps: seq<Action>, s0: Shared, id: UInt32, c1: Coord, c2: Coord)
    returns (s: Shared)
    requires Reachable(w, n, steps, s0) && Pair(s0, Writing(id, c1), Writing(id, c2))
    ensures Reachable(w, n, steps, s) && Pair(s, CountingDistinct(id, c1), CountingDistinct(id, c2))
    ensures s.grid == s0.grid && Holds(s, id, c1)
  {
    hide Limited, CellOf, Insert, Delete, MoveEvents, Reachable, SameSeen, OldSeen, FiredSeen;
    s := Go(w, n, steps, s0, Write(1));
    assert Pair(s, Writing(id, c1), CountingDistinct(id, c2));
    PointerInHeap(w, n, steps, s, id);
    s := Go(w, n, steps, s, Write(0));
  }

  lemma BothCountDistinct(w: TheWorld, n: nat, steps: seq<Action>, s0: Shared, id: UInt32, c1: Coord, c2: Coord)
    returns (s: Shared)
    requires Reachable(w, n, steps, s0) && Pair(s0, CountingDistinct(id, c1), CountingDistinct(id, c2))
    ensures Reachable(w, n, steps, s) && Pair(s, CountingRouted, CountingRouted)
    ensures s.grid == s0.grid && SameMemory(s0, s)
  {
    hide Limited, CellOf, Insert, Delete, MoveEvents, Reachable, SameSeen, OldSeen, FiredSeen;
    s := Go(w, n, steps, s0, CountDistinct(0));
    assert Pair(s, CountingRouted, CountingDistinct(id, c2));
    s := Go(w, n, steps, s, CountDistinct(1));
  }

  lemma BothCountRouted(w: TheWorld, n: nat, steps: seq<Action>, s0: Shared)
    returns (s: Shared)
    requires Reachable(w, n, steps, s0) && Pair(s0, CountingRouted, CountingRouted)
    ensures Reachable(w, n, steps, s) && Pair(s, Idle, Idle)
    ensures s.grid == s0.grid && SameMemory(s0, s)
  {
    hide Limited, CellOf, Insert, Delete, MoveEvents, Reachable, SameSeen, OldSeen, FiredSeen;
    s := Go(w, n, steps, s0, CountRouted(0));
    assert Pair(s, Idle, CountingRouted);
    s := Go(w, n, steps, s, CountRouted(1));
  }

  /** Both go from the position that prev holds: it decides the comparison, the old cell and the events. */
  lemma BothRoute(w: TheWorld, n: nat, steps: seq<Action>, s0: Shared, id: UInt32, c1: Coord, c2: Coord)
    returns (s: Shared)
    requires Reachable(w, n, steps, s0) && Pair(s0, Loading(id, c1), Loading(id, c2))
    requires NeitherRepeats(s0, if id in s0.ptrs then Some(s0.ptrs[id]) else None, c1, c2)
    ensures Reachable(w, n, steps, s) && Pair(s, Writing(id, c1), Writing(id, c2))
    ensures exists g :: s.grid == Insert(Insert(g, id, c1), id, c2)
  {
    hide CellOf, Insert, MoveEvents, Pair;
    var prev := if id in s0.ptrs then Some(s0.ptrs[id]) else None;
    var s1 := BothLoad(w, n, steps, s0, id, c1, c2, prev);
    var s2 := BothCompare(w, n, steps, s1, id, c1, c2, prev);
    var from := if prev.Some? then CellOf(s0.heap[prev.value].coord) else 0;
    var s3 := BothDelete(w, n, steps, s2, id, c1, c2, prev, from);
    var s4 := BothInsert(w, n, steps, s3, id, c1, c2, prev);
    var pos := Deref(s0, prev);
    s := BothEvaluate(w, n, steps, s4, id, c1, c2, prev, |MoveEvents(w, id, pos, c1)|, |MoveEvents(w, id, pos, c2)|);
  }

  lemma BothRun(w: TheWorld, n: nat, steps: seq<Action>, s0: Shared, id: UInt32, c1: Coord, c2: Coord)
    returns (s: Shared)
    requires Reachable(w, n, steps, s0) && Pair(s0, Loading(id, c1), Loading(id, c2))
    requires NeitherRepeats(s0, if id in s0.ptrs then Some(s0.ptrs[id]) else None, c1, c2)
    ensures Reachable(w, n, steps, s) && Pair(s, Idle, Idle)
    ensures Holds(s, id, c1) && exists g :: s.grid == Insert(Insert(g, id, c1), id, c2)
  {
    hide CellOf, Insert, Pair, Reachable, SamePlace;
    var s1 := BothRoute(w, n, steps, s0, id, c1, c2);
    var s2 := BothWrite(w, n, steps, s1, id, c1, c2);
    var s3 := BothCountDistinct(w, n, steps, s2, id, c1, c2);
    s := BothCountRouted(w, n, steps, s3);
  }

  lemma DuplicateOfPacket(s: Shared, id: UInt32, c: Coord)
    requires Valid(s)
    ensures Duplicate(Last(s), id, c) <==> id in s.ptrs && SamePlace(s.heap[s.ptrs[id]].coord, c)
    ensures id in s.ptrs ==> s.ptrs[id] < |s.heap|
  {
    hide SamePlace;
  }

  lemma LastHolds(s: Shared, id: UInt32, c: Coord)
    requires Valid(s) && Holds(s, id, c)
    ensures Lookup(Last(s), id) == Some(c)
  {
  }

  lemma OneShard(g: Grid, last: Positions, id: UInt32, cell: UInt8, cell': UInt8)
    requires Agrees(g, last) && In(g, cell, id) && In(g, cell', id)
    ensures cell == cell' && Lookup(last, id) == Some(Grids.At(g, cell', id))
  {
    hide CellOf, In, Grids.At;
    assert PlacedAs(g, id, Lookup(last, id));
  }

  /** Whenever no worker is busy, two packets of one entity with different coordinates, neither over the limit nor a
      duplicate, can break the agreement for good: the entity is left in the shards of both, with the coordinate of the
      second in its shard, and the last position is that of the first. So in two cells the grid agrees with no map at
      all, and in one cell it goes on reporting a position that is not the last. The two workers run in step, but write
      in the other order than they insert, and each sees what prev holds. */
  lemma TwoInFlightTwoShards(w: TheWorld, n: nat, steps: seq<Action>, id: UInt32, c1: Coord, c2: Coord)
    returns (more: seq<Action>)
    requires n >= 2 && Quiescent(Exec(w, n, steps)) && c1 != c2
    requires
      var s := Exec(w, n, steps);
      && !Limited(s.adds, id) && !Limited(s.adds + [id], id)
      && (Valid(s) ==> !Duplicate(Last(s), id, c1) && !Duplicate(Last(s), id, c2))
    ensures
      var s := Exec(w, n, steps + more);
      && Quiescent(s) && Valid(s)
      && In(s.grid, CellOf(c1), id)
      && In(s.grid, CellOf(c2), id) && Grids.At(s.grid, CellOf(c2), id) == c2
      && Lookup(Last(s), id) == Some(c1)
      && !Agrees(s.grid, Last(s))
      && (CellOf(c1) != CellOf(c2) ==> !exists last: Positions :: Agrees(s.grid, last))
  {
    hide CellOf, Insert, Valid, In, Grids.At, Exec, Limited, Duplicate, Agrees, Last, SamePlace;
    ExecValid(w, n, steps);
    var s0 := Exec(w, n, steps);
    assert steps + [] == steps;
    DuplicateOfPacket(s0, id, c1);
    DuplicateOfPacket(s0, id, c2);
    var s1 := BothAdmitted(w, n, steps, s0, id, c1, c2);
    var s := BothRun(w, n, steps, s1, id, c1, c2);
    var g :| s.grid == Insert(Insert(g, id, c1), id, c2);
    InsertPlaces(g, id, c1);
    InsertPlaces(Insert(g, id, c1), id, c2);
    assert In(s.grid, CellOf(c1), id) && In(s.grid, CellOf(c2), id) && Grids.At(s.grid, CellOf(c2), id) == c2;
    LastHolds(s, id, c1);
    more :| Exec(w, n, steps + more) == s;
    forall last: Positions | Agrees(s.grid, last) ensures CellOf(c1) == CellOf(c2) && Lookup(last, id) == Some(c2) {
      OneShard(s.grid, last, id, CellOf(c1), CellOf(c2));
    }
  }

  // ----- two such coordinates -----

  lemma {:induction false} ScaleDown(m: real, k: nat)
    ensures Scale(m, 0 - k) * HyperLogLogs.Power2(k) as real == m
  {
    if k == 0 {
    } else {
      ScaleDown(m, k - 1);
    }
  }

  /** 64.0 and -64.0 as doubles. */
  const NORTH: Float64 := 0x4050_0000_0000_0000

  const SOUTH: Float64 := 0xC050_0000_0000_0000

  lemma Power46()
    ensures HyperLogLogs.Power2(46) == 0x4000_0000_0000
  {
    HyperLogLogs.Powers();
    assert HyperLogLogs.Power2(40) == 0x100_0000_0000;
  }

  lemma SixtyFour()
    ensures Scale(0x10_0000_0000_0000 as real, -46) == 64.0
  {
    hide Scale, HyperLogLogs.Power2;
    ScaleDown(0x10_0000_0000_0000 as real, 46);
    Power46();
  }

  lemma FarApart()
    ensures CellOf(Coord(NORTH, NORTH)) == 218 && CellOf(Coord(SOUTH, SOUTH)) == 37
  {
    hide Scale;
    SixtyFour();
    assert NORTH % 0x10_0000_0000_0000 == 0 && NORTH / 0x10_0000_0000_0000 == 1029;
    assert SOUTH % 0x10_0000_0000_0000 == 0 && SOUTH / 0x10_0000_0000_0000 == 3077;
    assert Value(NORTH) == 64.0 && Value(SOUTH) == -64.0;
  }

  lemma FirstPasses(id: UInt32)
    ensures !Limited([], id) && !Limited([id], id)
  {
    CountMin.EstimateIsExact([] + [id], id);
    CountMin.EstimateIsExact([id] + [id], id);
  }

  /** In particular the first two packets of an entity, for latitude and longitude 64 and -64. */
  lemma FirstPacketsTwoShards(w: TheWorld, id: UInt32) returns (more: seq<Action>)
    ensures
      var s := Exec(w, 2, more);
      Quiescent(s) && In(s.grid, 218, id) && In(s.grid, 37, id)
  {
    hide CellOf, Limited, In;
    FarApart();
    FirstPasses(id);
    assert Exec(w, 2, []) == Start(2) && [] + [id] == [id];
    assert Last(Start(2)) == map[];
    more := TwoInFlightTwoShards(w, 2, [], id, Coord(NORTH, NORTH), Coord(SOUTH, SOUTH));
    assert [] + more == more;
  }
}
