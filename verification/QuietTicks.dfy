/** A tick that overlaps packets of other entities (pkg/engine/pipeline.go, pkg/spatial/grid.go): what it reads of an
    entity that no worker is busy with meanwhile. */
module QuietTicks {
  import opened Words
  import opened Coords
  import opened Grids
  import opened Pipeline
  import opened Machine
  import opened InFlight
  import Egress
  import GridQueries
  import Races

  ghost predicate Mentions(records: seq<Egress.Record>, e: UInt32) {
    exists k :: 0 <= k < |records| && records[k].entityId == e
  }

  /** The records mention the entity iff it has the position, and then with it. */
  ghost predicate Reports(records: seq<Egress.Record>, e: UInt32, pos: Option<Coord>) {
    && (Mentions(records, e) <==> pos.Some?)
    && forall k :: 0 <= k < |records| && records[k].entityId == e && pos.Some? ==> records[k] == RecordOf(e, pos.value)
  }

  /** The position, if it lies in the cell. */
  function Within(pos: Option<Coord>, cell: UInt8): Option<Coord> {
    if pos.Some? && CellOf(pos.value) == cell then pos else None
  }

  /** What the ticker has counted or read of the cell shows the entity as it is, if its stripe has had its turn. */
  ghost predicate Shows(s: Shared, e: UInt32)
    requires Valid(s)
  {
    var pos := Lookup(Last(s), e);
    match s.ticker
    case Waiting => true
    case Counting(cell, stripe, total) => e % STRIPES < stripe && Within(pos, cell).Some? ==> total > 0
    case Reading(cell, stripe, records) => Reports(records, e, if e % STRIPES < stripe then Within(pos, cell) else None)
  }

  lemma ReportsAppend(rs: seq<Egress.Record>, rs': seq<Egress.Record>, e: UInt32, pos: Option<Coord>)
    requires (Reports(rs, e, pos) && Reports(rs', e, None)) || (Reports(rs, e, None) && Reports(rs', e, pos))
    ensures Reports(rs + rs', e, pos)
  {
    var all := rs + rs';
    if k :| 0 <= k < |rs| && rs[k].entityId == e {
      assert all[k].entityId == e;
    }
    if k :| 0 <= k < |rs'| && rs'[k].entityId == e {
      assert all[|rs| + k].entityId == e;
    }
    if k :| 0 <= k < |all| && all[k].entityId == e {
      assert if k < |rs| then rs[k].entityId == e else rs'[k - |rs|].entityId == e;
    }
  }

  /** A slot holds an entity iff it is the entity's one place. */
  lemma SlotHolds(g: Grid, cell: UInt8, stripe: nat, e: UInt32, pos: Option<Coord>)
    requires Striped(g) && stripe < STRIPES && PlacedAs(g, e, pos)
    ensures Lookup(g[16 * cell + stripe], e) ==
            if e % STRIPES == stripe then Within(pos, cell) else None
    ensures e % STRIPES == stripe && Within(pos, cell).Some? ==> |g[16 * cell + stripe]| > 0
  {
    hide CellOf;
    if e % STRIPES == stripe {
      assert Slot(cell, e) == 16 * cell + stripe;
      assert e in g[16 * cell + stripe] <==> In(g, cell, e);
      EmptyHasNone(g[16 * cell + stripe]);
    }
  }

  lemma ListReports(records: seq<Egress.Record>, m: Positions, e: UInt32)
    requires GridQueries.Lists(records, m)
    ensures Reports(records, e, Lookup(m, e))
  {
    if e in m {
      assert RecordOf(e, m[e]) in records;
    }
  }

  /** A quiet entity keeps its last position. */
  lemma QuietPosition(w: TheWorld, s: Shared, step: Action, e: UInt32)
    requires Valid(s) && Enabled(w, s, step) && Valid(Next(w, s, step))
    requires NoneTouches(s.workers, e) && NoneTouches(Next(w, s, step).workers, e)
    ensures Lookup(Last(Next(w, s, step)), e) == Lookup(Last(s), e)
  {
    hide Valid, Last, SameSeen, OldSeen, FiredSeen, Limited, CellOf;
    LastAfter(w, s, step);
    match step
    case Write(i) => assert !s.workers[i].Touches(e);
    case BeginSeed(i, id, c) => assert !Next(w, s, step).workers[i].Touches(e);
    case _ =>
  }

  lemma NothingReported(e: UInt32)
    ensures Reports([], e, None)
  {
  }

  lemma TickerSame(w: TheWorld, s: Shared, step: Action)
    requires Valid(s) && Enabled(w, s, step) && !step.CountStripe? && !step.BeginReading? && !step.ReadStripe?
    ensures Next(w, s, step).ticker ==
            match step
            case StartCell(cell) => Counting(cell, 0, 0)
            case SkipCell => Waiting
            case EndCell => Waiting
            case _ => s.ticker
  {
    hide Valid, SameSeen, OldSeen, FiredSeen, Limited, CellOf;
  }

  lemma StepShows(w: TheWorld, s: Shared, step: Action, e: UInt32)
    requires Sound(s) && Races.TickerOk(s.ticker) && Valid(Next(w, s, step)) && Shows(s, e)
    requires NoneTouches(s.workers, e) && NoneTouches(Next(w, s, step).workers, e)
    ensures Shows(Next(w, s, step), e)
  {
    hide Valid, Last, CellOf, Reports, NoneTouches, PlacedAs, Lookup, Striped, Underway, PrevCurrent, Within;
    if Enabled(w, s, step) {
      QuietPosition(w, s, step, e);
      match step
      case CountStripe =>
        SlotHolds(s.grid, s.ticker.cell, s.ticker.stripe, e, Lookup(Last(s), e));
      case BeginReading => NothingReported(e);
      case ReadStripe(records) =>
        var t, pos := s.ticker, Lookup(Last(s), e);
        SlotHolds(s.grid, t.cell, t.stripe, e, pos);
        ListReports(records, s.grid[16 * t.cell + t.stripe], e);
        ReportsAppend(t.records, records, e, if e % STRIPES <= t.stripe then Within(pos, t.cell) else None);
      case _ => TickerSame(w, s, step);
    }
  }

  /** No worker is busy with the entity from step a on. */
  ghost predicate QuietSince(w: TheWorld, n: nat, steps: seq<Action>, a: nat, e: UInt32) {
    forall k :: a <= k <= |steps| ==> NoneTouches(Exec(w, n, steps[..k]).workers, e)
  }

  lemma {:induction false} QuietShows(w: TheWorld, n: nat, steps: seq<Action>, a: nat, e: UInt32)
    requires AllApart(w, n, steps) && a <= |steps| && Exec(w, n, steps[..a]).ticker.Waiting?
    requires QuietSince(w, n, steps, a, e)
    ensures Valid(Exec(w, n, steps)) && Shows(Exec(w, n, steps), e)
  {
    hide Valid, Sound, Next, AllApart, NoneTouches, StartsApart, Races.TickerOk, Races.Kept, WellPlaced;
    ExecValid(w, n, steps);
    if a == |steps| {
      assert steps[..a] == steps;
    } else {
      var init, step := steps[..|steps| - 1], steps[|steps| - 1];
      assert forall k :: 0 <= k <= |init| ==> init[..k] == steps[..k];
      assert steps[..|steps|] == steps && init[..|init|] == init;
      AllApartPrefix(w, n, steps);
      QuietShows(w, n, init, a, e);
      OneInFlight(w, n, init);
      Races.EveryInterleaving(w, n, init);
      StepShows(w, Exec(w, n, init), step, e);
    }
  }

  /** When the ticker has read a whole cell, its records mention an entity that was quiet meanwhile iff its last
      position is in that cell, exactly once and with exactly that position, whatever happens to other entities. */
  lemma QuietEntityReported(w: TheWorld, n: nat, steps: seq<Action>, a: nat, e: UInt32)
    requires AllApart(w, n, steps) && a <= |steps| && Exec(w, n, steps[..a]).ticker.Waiting?
    requires QuietSince(w, n, steps, a, e)
    requires Exec(w, n, steps).ticker.Reading? && Exec(w, n, steps).ticker.stripe == STRIPES
    ensures
      var s := Exec(w, n, steps);
      Valid(s) &&
      var records, pos := s.ticker.records, Lookup(Last(s), e);
      && (Mentions(records, e) <==> pos.Some? && CellOf(pos.value) == s.ticker.cell)
      && (forall k :: 0 <= k < |records| && records[k].entityId == e && pos.Some? ==>
            records[k] == RecordOf(e, pos.value))
      && (forall j, k :: 0 <= j < k < |records| ==> records[j].entityId != records[k].entityId)
  {
    hide Valid, Exec, AllApart, QuietSince, CellOf, Races.Kept, WellPlaced, Last, Lookup, Log, Races.Busy, Packets;
    QuietShows(w, n, steps, a, e);
    Races.EveryInterleaving(w, n, steps);
  }

  /** And a cell is skipped as empty only if no quiet entity is in it. */
  lemma QuietEntityNotSkipped(w: TheWorld, n: nat, steps: seq<Action>, a: nat, e: UInt32)
    requires AllApart(w, n, steps) && a <= |steps| && Exec(w, n, steps[..a]).ticker.Waiting?
    requires QuietSince(w, n, steps, a, e)
    requires
      var t := Exec(w, n, steps).ticker;
      t.Counting? && t.stripe == STRIPES && t.total == 0
    ensures
      var s := Exec(w, n, steps);
      Valid(s) &&
      var pos := Lookup(Last(s), e);
      !(pos.Some? && CellOf(pos.value) == s.ticker.cell)
  {
    hide Valid, Exec, AllApart, QuietSince, CellOf, Last, Lookup;
    QuietShows(w, n, steps, a, e);
    assert e % STRIPES < STRIPES;
  }
}
