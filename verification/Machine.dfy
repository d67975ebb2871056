/** The concurrent engine as a step machine (pkg/engine/pipeline.go, callbacks.go, pkg/spatial/grid.go): any number
    of workers and one ticker, interleaved at their lock regions and atomic counters. */
module Machine {
  import opened Words
  import opened Coords
  import opened Grids
  import opened Pipeline
  import Egress
  import GridQueries

  /** A CoordPacket object; the entity it was allocated for never changes. */
  datatype HeapPacket = HeapPacket(owner: UInt32, coord: Coord)

  type Ref = nat

  /** What a worker does next. */
  datatype Worker =
    | Idle
    | Dropping
    | Loading(id: UInt32, c: Coord)
    | Comparing(id: UInt32, c: Coord, prev: Option<Ref>)
    | Deleting(id: UInt32, c: Coord, prev: Option<Ref>)
    | Inserting(id: UInt32, c: Coord, prev: Option<Ref>)
    | Evaluating(id: UInt32, c: Coord, prev: Option<Ref>)
    | Writing(id: UInt32, c: Coord)
    | CountingDistinct(id: UInt32, c: Coord)
    | CountingRouted
    | Seeding(id: UInt32, c: Coord)
  {
    /** The worker may still read or write what the engine stores about the entity. */
    predicate Active() {
      Loading? || Comparing? || Deleting? || Inserting? || Evaluating? || Writing? || Seeding?
    }

    predicate Touches(e: UInt32) {
      Active() && id == e
    }

    predicate HasPrev() {
      Comparing? || Deleting? || Inserting? || Evaluating?
    }
  }

  /** The tick loop counts the entries of a cell stripe by stripe, and reads them stripe by stripe if there are any. */
  datatype Ticker =
    | Waiting
    | Counting(cell: UInt8, stripe: nat, total: nat)
    | Reading(cell: UInt8, stripe: nat, records: seq<Egress.Record>)

  datatype Shared = Shared(adds: seq<UInt32>, heap: seq<HeapPacket>, ptrs: map<UInt32, Ref>, grid: Grid,
                           counted: seq<seq<UInt32>>, routed: nat, dropped: nat, events: nat,
                           workers: seq<Worker>, ticker: Ticker)

  function Start(n: nat): Shared {
    Shared([], [], map[], EmptyGrid(), seq(CELLS, _ => []), 0, 0, 0, seq(n, _ => Idle), Waiting)
  }

  predicate Points(heap: seq<HeapPacket>, p: Ref, id: UInt32) {
    p < |heap| && heap[p].owner == id
  }

  ghost predicate PrevValid(heap: seq<HeapPacket>, wk: Worker) {
    wk.HasPrev() && wk.prev.Some? ==> Points(heap, wk.prev.value, wk.id)
  }

  /** Every pointer leads to a packet of its own entity. */
  ghost predicate Valid(s: Shared) {
    && |s.counted| == CELLS
    && (forall id :: id in s.ptrs ==> Points(s.heap, s.ptrs[id], id))
    && (forall i :: 0 <= i < |s.workers| ==> PrevValid(s.heap, s.workers[i]))
  }

  /** The last-position map. */
  ghost function Last(s: Shared): Positions
    requires Valid(s)
  {
    map id | id in s.ptrs :: s.heap[s.ptrs[id]].coord
  }

  /** What a reader of prev sees if nobody writes to it. */
  ghost function Deref(s: Shared, prev: Option<Ref>): Option<Coord>
    requires prev.Some? ==> prev.value < |s.heap|
  {
    match prev
    case None => None
    case Some(p) => Some(s.heap[p].coord)
  }

  /** No other worker is busy with the entity. */
  ghost predicate Alone(ws: seq<Worker>, i: nat, e: UInt32) {
    forall j :: 0 <= j < |ws| && j != i ==> !ws[j].Touches(e)
  }

  ghost predicate NoneTouches(ws: seq<Worker>, e: UInt32) {
    forall j :: 0 <= j < |ws| ==> !ws[j].Touches(e)
  }

  // ----- steps -----

  /** prev is read without a lock. When another worker is busy with the same entity and prev points to a packet, the
      comparison, the old cell and the number of events can be anything; otherwise they are computed from prev. */
  datatype Action =
    | Admit(i: nat, id: UInt32, c: Coord)
    | CountDropped(i: nat)
    | Load(i: nat)
    | Compare(i: nat, same: bool)
    | DeleteOld(i: nat, from: UInt8)
    | InsertNew(i: nat)
    | Evaluate(i: nat, fired: nat)
    | Write(i: nat)
    | CountDistinct(i: nat)
    | CountRouted(i: nat)
    | BeginSeed(i: nat, id: UInt32, c: Coord)
    | EndSeed(i: nat)
    | ResetLimiter
    | StartCell(cell: UInt8)
    | CountStripe
    | SkipCell
    | BeginReading
    | ReadStripe(records: seq<Egress.Record>)
    | EndCell

  ghost predicate SameSeen(s: Shared, i: nat, wk: Worker, same: bool)
    requires wk.Comparing? && PrevValid(s.heap, wk)
  {
    var prev := Deref(s, wk.prev);
    && (same ==> prev.Some?)
    && (Alone(s.workers, i, wk.id) ==> same == (prev.Some? && SamePlace(prev.value, wk.c)))
  }

  ghost predicate OldSeen(s: Shared, i: nat, wk: Worker, from: UInt8)
    requires wk.Deleting? && PrevValid(s.heap, wk)
  {
    wk.prev.Some? && Alone(s.workers, i, wk.id) ==> from == CellOf(s.heap[wk.prev.value].coord)
  }

  ghost predicate FiredSeen(w: TheWorld, s: Shared, i: nat, wk: Worker, fired: nat)
    requires wk.Evaluating? && PrevValid(s.heap, wk)
  {
    wk.prev.None? || Alone(s.workers, i, wk.id) ==> fired == |MoveEvents(w, wk.id, Deref(s, wk.prev), wk.c)|
  }

  ghost predicate Enabled(w: TheWorld, s: Shared, step: Action)
    requires Valid(s)
  {
    var n := |s.workers|;
    match step
    case Admit(i, _, _) => i < n && s.workers[i].Idle?
    case CountDropped(i) => i < n && s.workers[i].Dropping?
    case Load(i) => i < n && s.workers[i].Loading?
    case Compare(i, same) => i < n && s.workers[i].Comparing? && SameSeen(s, i, s.workers[i], same)
    case DeleteOld(i, from) => i < n && s.workers[i].Deleting? && OldSeen(s, i, s.workers[i], from)
    case InsertNew(i) => i < n && s.workers[i].Inserting?
    case Evaluate(i, fired) => i < n && s.workers[i].Evaluating? && FiredSeen(w, s, i, s.workers[i], fired)
    case Write(i) => i < n && s.workers[i].Writing?
    case CountDistinct(i) => i < n && s.workers[i].CountingDistinct?
    case CountRouted(i) => i < n && s.workers[i].CountingRouted?
    case BeginSeed(i, _, _) => i < n && s.workers[i].Idle?
    case EndSeed(i) => i < n && s.workers[i].Seeding?
    case ResetLimiter => s.ticker.Waiting?
    case StartCell(_) => s.ticker.Waiting?
    case CountStripe => s.ticker.Counting? && s.ticker.stripe < STRIPES
    case SkipCell => s.ticker.Counting? && s.ticker.stripe == STRIPES && s.ticker.total == 0
    case BeginReading => s.ticker.Counting? && s.ticker.stripe == STRIPES && s.ticker.total > 0
    case ReadStripe(records) =>
      s.ticker.Reading? && s.ticker.stripe < STRIPES &&
      GridQueries.Lists(records, s.grid[16 * s.ticker.cell + s.ticker.stripe])
    case EndCell => s.ticker.Reading? && s.ticker.stripe == STRIPES
  }

  function Put(s: Shared, i: nat, wk: Worker): Shared
    requires i < |s.workers|
  {
    s.(workers := s.workers[i := wk])
  }

  function PointToNew(s: Shared, id: UInt32, c: Coord): Shared {
    s.(heap := s.heap + [HeapPacket(id, c)], ptrs := s.ptrs[id := |s.heap|])
  }

  /** The locked write: in place if the entity has a packet. */
  function Overwrite(s: Shared, id: UInt32, c: Coord): Shared
    requires id in s.ptrs ==> s.ptrs[id] < |s.heap|
  {
    if id in s.ptrs then s.(heap := s.heap[s.ptrs[id] := HeapPacket(id, c)]) else PointToNew(s, id, c)
  }

  ghost function Do(s: Shared, step: Action, w: TheWorld): Shared
    requires Valid(s) && Enabled(w, s, step)
  {
    match step
    case Admit(i, id, c) =>
      Put(s.(adds := s.adds + [id]), i, if Limited(s.adds, id) then Dropping else Loading(id, c))
    case CountDropped(i) => Put(s.(dropped := s.dropped + 1), i, Idle)
    case Load(i) =>
      var wk := s.workers[i];
      Put(s, i, Comparing(wk.id, wk.c, if wk.id in s.ptrs then Some(s.ptrs[wk.id]) else None))
    case Compare(i, same) =>
      var wk := s.workers[i];
      Put(s, i, if same then Dropping else Deleting(wk.id, wk.c, wk.prev))
    case DeleteOld(i, from) =>
      var wk := s.workers[i];
      var g := if wk.prev.Some? && from != CellOf(wk.c) then Delete(s.grid, from, wk.id) else s.grid;
      Put(s.(grid := g), i, Inserting(wk.id, wk.c, wk.prev))
    case InsertNew(i) =>
      var wk := s.workers[i];
      Put(s.(grid := Insert(s.grid, wk.id, wk.c)), i, Evaluating(wk.id, wk.c, wk.prev))
    case Evaluate(i, fired) =>
      var wk := s.workers[i];
      Put(s.(events := s.events + fired), i, Writing(wk.id, wk.c))
    case Write(i) =>
      var wk := s.workers[i];
      Put(Overwrite(s, wk.id, wk.c), i, CountingDistinct(wk.id, wk.c))
    case CountDistinct(i) =>
      var wk := s.workers[i];
      var cell := CellOf(wk.c);
      Put(s.(counted := s.counted[cell := s.counted[cell] + [wk.id]]), i, CountingRouted)
    case CountRouted(i) => Put(s.(routed := s.routed + 1), i, Idle)
    case BeginSeed(i, id, c) => Put(PointToNew(s, id, c), i, Seeding(id, c))
    case EndSeed(i) =>
      var wk := s.workers[i];
      Put(s.(grid := Insert(s.grid, wk.id, wk.c)), i, Idle)
    case ResetLimiter => s.(adds := [])
    case StartCell(cell) => s.(ticker := Counting(cell, 0, 0))
    case CountStripe =>
      var t := s.ticker;
      s.(ticker := Counting(t.cell, t.stripe + 1, t.total + |s.grid[16 * t.cell + t.stripe]|))
    case SkipCell => s.(ticker := Waiting)
    case BeginReading => s.(ticker := Reading(s.ticker.cell, 0, []))
    case ReadStripe(records) =>
      s.(ticker := Reading(s.ticker.cell, s.ticker.stripe + 1, s.ticker.records + records))
    case EndCell => s.(ticker := Waiting)
  }

  /** An attempt at a step; one that is not enabled changes nothing. */
  ghost function Next(w: TheWorld, s: Shared, step: Action): Shared {
    if Valid(s) && Enabled(w, s, step) then Do(s, step, w) else s
  }

  ghost function Exec(w: TheWorld, n: nat, steps: seq<Action>): Shared {
    if steps == [] then Start(n) else Next(w, Exec(w, n, steps[..|steps| - 1]), steps[|steps| - 1])
  }

  ghost function Began(w: TheWorld, s: Shared, step: Action): seq<Op> {
    if !(Valid(s) && Enabled(w, s, step)) then []
    else
      match step
      case Admit(_, id, c) => [Op.Packet(id, c)]
      case BeginSeed(_, id, c) => [Op.Seed(id, c)]
      case ResetLimiter => [Op.Tick]
      case _ => []
  }

  /** The packets, seeds and ticks of a run, in the order in which they began. */
  ghost function Log(w: TheWorld, n: nat, steps: seq<Action>): seq<Op> {
    if steps == [] then []
    else
      var init := steps[..|steps| - 1];
      Log(w, n, init) + Began(w, Exec(w, n, init), steps[|steps| - 1])
  }

  ghost predicate Quiescent(s: Shared) {
    forall i :: 0 <= i < |s.workers| ==> s.workers[i].Idle?
  }

  // ----- pointers stay valid -----

  lemma OverwriteKeepsPointers(s: Shared, id: UInt32, c: Coord)
    requires Valid(s)
    ensures Valid(Overwrite(s, id, c)) && Last(Overwrite(s, id, c)) == Last(s)[id := c]
  {
  }

  lemma PointToNewKeepsPointers(s: Shared, id: UInt32, c: Coord)
    requires Valid(s)
    ensures Valid(PointToNew(s, id, c)) && Last(PointToNew(s, id, c)) == Last(s)[id := c]
  {
  }

  lemma PutValid(s: Shared, i: nat, wk: Worker)
    requires Valid(s) && i < |s.workers| && PrevValid(s.heap, wk)
    ensures Valid(Put(s, i, wk)) && Last(Put(s, i, wk)) == Last(s)
  {
  }

  lemma NextValid(w: TheWorld, s: Shared, step: Action)
    requires Valid(s)
    ensures Valid(Next(w, s, step))
  {
    hide SameSeen, OldSeen, FiredSeen, CellOf, Insert, Delete, Limited, MoveEvents, Last;
    if Enabled(w, s, step) {
      match step
      case Write(i) =>
        var wk := s.workers[i];
        OverwriteKeepsPointers(s, wk.id, wk.c);
        PutValid(Overwrite(s, wk.id, wk.c), i, CountingDistinct(wk.id, wk.c));
      case BeginSeed(i, id, c) =>
        PointToNewKeepsPointers(s, id, c);
        PutValid(PointToNew(s, id, c), i, Seeding(id, c));
      case _ =>
    }
  }

  /** The last positions after a step: only a write and the start of a seed change them. */
  lemma LastAfter(w: TheWorld, s: Shared, step: Action)
    requires Valid(s) && Enabled(w, s, step)
    ensures Valid(Next(w, s, step))
    ensures Last(Next(w, s, step)) ==
            match step
            case Write(i) => Last(s)[s.workers[i].id := s.workers[i].c]
            case BeginSeed(_, id, c) => Last(s)[id := c]
            case _ => Last(s)
  {
    hide CellOf, SameSeen, OldSeen, FiredSeen, Limited, Insert, Delete;
    NextValid(w, s, step);
    match step
    case Write(i) =>
      hide Overwrite;
      var wk := s.workers[i];
      OverwriteKeepsPointers(s, wk.id, wk.c);
      PutValid(Overwrite(s, wk.id, wk.c), i, CountingDistinct(wk.id, wk.c));
    case BeginSeed(i, id, c) =>
      hide PointToNew;
      PointToNewKeepsPointers(s, id, c);
      PutValid(PointToNew(s, id, c), i, Seeding(id, c));
    case _ =>
  }

  lemma StartValid(n: nat)
    ensures Valid(Start(n))
  {
  }

  lemma SameWorkers(w: TheWorld, s: Shared, step: Action)
    ensures |Next(w, s, step).workers| == |s.workers|
  {
    hide SameSeen, OldSeen, FiredSeen, CellOf, Insert, Delete, Limited, Valid;
  }

  lemma {:induction false} ExecValid(w: TheWorld, n: nat, steps: seq<Action>)
    ensures Valid(Exec(w, n, steps)) && |Exec(w, n, steps).workers| == n
  {
    hide Valid, Enabled, Do;
    if steps == [] {
      StartValid(n);
    } else {
      ExecValid(w, n, steps[..|steps| - 1]);
      NextValid(w, Exec(w, n, steps[..|steps| - 1]), steps[|steps| - 1]);
      SameWorkers(w, Exec(w, n, steps[..|steps| - 1]), steps[|steps| - 1]);
    }
  }

  // ----- what one step touches -----

  /** The grids hold the same except for one entity. */
  ghost predicate SameElsewhere(g: Grid, g': Grid, e: UInt32) {
    forall cell: UInt8, id: UInt32 :: id != e ==>
      (In(g', cell, id) <==> In(g, cell, id)) && (In(g, cell, id) ==> At(g', cell, id) == At(g, cell, id))
  }

  function EntityOf(s: Shared, i: nat): Option<(nat, UInt32)> {
    if i < |s.workers| && s.workers[i].Active() then Some((i, s.workers[i].id)) else None
  }

  /** The worker of a step and the entity that the step is about. */
  function Actor(s: Shared, step: Action): Option<(nat, UInt32)> {
    match step
    case Admit(i, id, _) => Some((i, id))
    case BeginSeed(i, id, _) => Some((i, id))
    case CountDropped(i) => Some((i, 0))
    case CountDistinct(i) => Some((i, 0))
    case CountRouted(i) => Some((i, 0))
    case Load(i) => EntityOf(s, i)
    case Compare(i, _) => EntityOf(s, i)
    case DeleteOld(i, _) => EntityOf(s, i)
    case InsertNew(i) => EntityOf(s, i)
    case Evaluate(i, _) => EntityOf(s, i)
    case Write(i) => EntityOf(s, i)
    case EndSeed(i) => EntityOf(s, i)
    case ResetLimiter => None
    case StartCell(_) => None
    case CountStripe => None
    case SkipCell => None
    case BeginReading => None
    case ReadStripe(_) => None
    case EndCell => None
  }

  /** A worker's step changes the grid at most at the worker's entity, and the last-position map likewise. */
  lemma StepIsLocal(w: TheWorld, s: Shared, step: Action, i: nat, e: UInt32)
    requires Valid(s) && Enabled(w, s, step) && i < |s.workers| && Actor(s, step) == Some((i, e))
    ensures
      var s' := Next(w, s, step);
      && SameElsewhere(s.grid, s'.grid, e)
      && (forall id :: id != e ==> (id in s'.ptrs <==> id in s.ptrs))
      && (forall id :: id != e && id in s.ptrs ==> s'.ptrs[id] == s.ptrs[id])
      && |s'.workers| == |s.workers|
      && (forall j :: 0 <= j < |s.workers| && j != i ==> s'.workers[j] == s.workers[j])
      && (s'.workers[i].Active() ==> s'.workers[i].id == e)
  {
    hide CellOf, SameSeen, OldSeen, FiredSeen, Valid, Limited, In, Grids.At, Insert, Delete;
    match step
    case DeleteOld(_, from) => DeleteRemoves(s.grid, from, e);
    case InsertNew(_) => InsertPlaces(s.grid, e, s.workers[i].c);
    case EndSeed(_) => InsertPlaces(s.grid, e, s.workers[i].c);
    case _ =>
  }
}
