/** With at most one packet of each entity in flight, every interleaving is serializable: it ends as if the packets,
    seeds and ticks had been taken one at a time, in the order in which they began (pkg/engine/pipeline.go). */
module Serializability {
  import opened Words
  import opened Coords
  import opened Grids
  import opened Pipeline
  import opened Machine
  import opened InFlight
  import CountMin
  import HyperLogLogs

  // ----- what the workers still owe -----

  datatype Tally = Tally(routed: nat, dropped: nat, events: nat)

  function Admitted(w: TheWorld, last: Positions, id: UInt32, c: Coord): Tally {
    if Duplicate(last, id, c) then Tally(0, 1, 0) else Tally(1, 0, |MoveEvents(w, id, Lookup(last, id), c)|)
  }

  /** What the worker has still to count. */
  function Debt(w: TheWorld, wk: Worker, last: Positions): Tally {
    match wk
    case Dropping => Tally(0, 1, 0)
    case Loading(id, c) => Admitted(w, last, id, c)
    case Comparing(id, c, _) => Admitted(w, last, id, c)
    case Deleting(id, c, _) => Tally(1, 0, |MoveEvents(w, id, Lookup(last, id), c)|)
    case Inserting(id, c, _) => Tally(1, 0, |MoveEvents(w, id, Lookup(last, id), c)|)
    case Evaluating(id, c, _) => Tally(1, 0, |MoveEvents(w, id, Lookup(last, id), c)|)
    case Writing(_, _) => Tally(1, 0, 0)
    case CountingDistinct(_, _) => Tally(1, 0, 0)
    case CountingRouted => Tally(1, 0, 0)
    case _ => Tally(0, 0, 0)
  }

  function Total(w: TheWorld, ws: seq<Worker>, last: Positions): Tally {
    if ws == [] then Tally(0, 0, 0)
    else
      var t, d := Total(w, ws[..|ws| - 1], last), Debt(w, ws[|ws| - 1], last);
      Tally(t.routed + d.routed, t.dropped + d.dropped, t.events + d.events)
  }

  /** The worker will give the id to the distinct counter of the cell. */
  predicate WillCount(wk: Worker, last: Positions, id: UInt32, cell: UInt8) {
    match wk
    case Loading(e, c) => e == id && CellOf(c) == cell && !Duplicate(last, e, c)
    case Comparing(e, c, _) => e == id && CellOf(c) == cell && !Duplicate(last, e, c)
    case Deleting(e, c, _) => e == id && CellOf(c) == cell
    case Inserting(e, c, _) => e == id && CellOf(c) == cell
    case Evaluating(e, c, _) => e == id && CellOf(c) == cell
    case Writing(e, c) => e == id && CellOf(c) == cell
    case CountingDistinct(e, c) => e == id && CellOf(c) == cell
    case _ => false
  }

  ghost predicate SomeWillCount(ws: seq<Worker>, last: Positions, id: UInt32, cell: UInt8) {
    exists i :: 0 <= i < |ws| && WillCount(ws[i], last, id, cell)
  }

  /** The position that the worker will leave the entity with. */
  function Target(last: Positions, wk: Worker): Option<Coord>
    requires wk.Active()
  {
    if (wk.Loading? || wk.Comparing?) && Duplicate(last, wk.id, wk.c) then Lookup(last, wk.id) else Some(wk.c)
  }

  // ----- the sequential state that an interleaving is on its way to -----

  ghost predicate LinkedPositions(s: Shared, q: State)
    requires Valid(s)
  {
    && (forall id: UInt32 :: NoneTouches(s.workers, id) ==> Lookup(q.last, id) == Lookup(Last(s), id))
    && (forall i :: 0 <= i < |s.workers| && s.workers[i].Active() ==>
          Lookup(q.last, s.workers[i].id) == Target(Last(s), s.workers[i]))
  }

  ghost predicate LinkedTallies(w: TheWorld, s: Shared, q: State)
    requires Valid(s)
  {
    var t := Total(w, s.workers, Last(s));
    q.routed == s.routed + t.routed && q.dropped == s.dropped + t.dropped && q.events == s.events + t.events
  }

  ghost predicate LinkedCounts(s: Shared, q: State)
    requires Valid(s)
  {
    && q.Valid()
    && forall cell: UInt8, id: UInt32 ::
         id in q.counted[cell] <==> id in s.counted[cell] || SomeWillCount(s.workers, Last(s), id, cell)
  }

  ghost predicate Linked(w: TheWorld, s: Shared, q: State) {
    && Sound(s) && q.Valid() && Agrees(q.grid, q.last) && q.adds == s.adds
    && LinkedPositions(s, q) && LinkedTallies(w, s, q) && LinkedCounts(s, q)
  }

  /** The sequential pipeline takes an operation whole when it begins. */
  ghost function Follow(w: TheWorld, s: Shared, q: State, step: Action): (q': State)
    requires q.Valid()
    ensures q'.Valid()
  {
    var began := Began(w, s, step);
    if began == [] then q else Step(w, q, began[0])
  }

  // ----- sums -----

  lemma {:induction false} TotalSame(w: TheWorld, ws: seq<Worker>, ws': seq<Worker>, last: Positions, last': Positions)
    requires |ws'| == |ws| && forall j :: 0 <= j < |ws| ==> Debt(w, ws'[j], last') == Debt(w, ws[j], last)
    ensures Total(w, ws', last') == Total(w, ws, last)
  {
    hide Debt;
    if ws == [] {
    } else {
      TotalSame(w, ws[..|ws| - 1], ws'[..|ws| - 1], last, last');
    }
  }

  /** Only worker i owes something else. */
  lemma {:induction false} TotalChanges(w: TheWorld, ws: seq<Worker>, ws': seq<Worker>, last: Positions,
          last': Positions, i: nat)
    requires i < |ws| && |ws'| == |ws|
    requires forall j :: 0 <= j < |ws| && j != i ==> Debt(w, ws'[j], last') == Debt(w, ws[j], last)
    ensures
      var t, t', d, d' := Total(w, ws, last), Total(w, ws', last'), Debt(w, ws[i], last), Debt(w, ws'[i], last');
      && t'.routed + d.routed == t.routed + d'.routed
      && t'.dropped + d.dropped == t.dropped + d'.dropped
      && t'.events + d.events == t.events + d'.events
  {
    hide Debt;
    if i == |ws| - 1 {
      TotalSame(w, ws[..i], ws'[..i], last, last');
    } else {
      TotalChanges(w, ws[..|ws| - 1], ws'[..|ws| - 1], last, last', i);
    }
  }

  /** What a worker owes and leaves depends on the last positions only at its own entity. */
  lemma DebtElsewhere(w: TheWorld, wk: Worker, last: Positions, last': Positions, e: UInt32)
    requires SamePositions(last, last', e) && !wk.Touches(e)
    ensures Debt(w, wk, last') == Debt(w, wk, last)
    ensures wk.Active() ==> Target(last', wk) == Target(last, wk)
    ensures forall id: UInt32, cell: UInt8 :: WillCount(wk, last', id, cell) == WillCount(wk, last, id, cell)
  {
    hide CellOf, SamePlace, MoveEvents;
    if wk.Active() {
      LookupElsewhere(last, last', e, wk.id);
    }
  }

  lemma FollowIs(w: TheWorld, s: Shared, q: State, step: Action)
    requires Valid(s) && Enabled(w, s, step) && q.Valid()
    ensures Follow(w, s, q, step) ==
            match step
            case Admit(_, id, c) => Processed(w, q, id, c)
            case BeginSeed(_, id, c) => Seeded(q, id, c)
            case ResetLimiter => Ticked(q)
            case _ => q
  {
    hide Valid, SameSeen, OldSeen, FiredSeen, Processed, Seeded, Ticked;
  }

  // ----- positions -----

  lemma PositionsFrame(s: Shared, s': Shared, q: State, q': State, i: nat, e: UInt32)
    requires Valid(s) && Valid(s') && LinkedPositions(s, q)
    requires i < |s.workers| && |s'.workers| == |s.workers| && Alone(s.workers, i, e)
    requires forall j :: 0 <= j < |s.workers| && j != i ==> s'.workers[j] == s.workers[j]
    requires (s.workers[i].Active() ==> s.workers[i].id == e) && (s'.workers[i].Active() ==> s'.workers[i].id == e)
    requires SamePositions(Last(s), Last(s'), e) && SamePositions(q.last, q'.last, e)
    requires s'.workers[i].Active() ==> Lookup(q'.last, e) == Target(Last(s'), s'.workers[i])
    requires !s'.workers[i].Active() ==> Lookup(q'.last, e) == Lookup(Last(s'), e)
    ensures LinkedPositions(s', q')
  {
    hide Valid, Last, Lookup, Target, SamePositions;
    forall id: UInt32 | NoneTouches(s'.workers, id) ensures Lookup(q'.last, id) == Lookup(Last(s'), id) {
      if id != e {
        NoneTouchesElsewhere(s.workers, s'.workers, i, e, id);
        LookupElsewhere(Last(s), Last(s'), e, id);
        LookupElsewhere(q.last, q'.last, e, id);
      } else {
        assert !s'.workers[i].Touches(e);
      }
    }
    forall j | 0 <= j < |s.workers| && s'.workers[j].Active()
      ensures Lookup(q'.last, s'.workers[j].id) == Target(Last(s'), s'.workers[j])
    {
      if j != i {
        assert !s.workers[j].Touches(e);
        DebtElsewhere(World([], []), s.workers[j], Last(s), Last(s'), e);
        LookupElsewhere(q.last, q'.last, e, s.workers[j].id);
      }
    }
  }

  /** The comparison finds out whether the packet repeats the last position. */
  lemma SameIsDuplicate(w: TheWorld, s: Shared, i: nat, same: bool)
    requires Valid(s) && Enabled(w, s, Compare(i, same)) && Alone(s.workers, i, s.workers[i].id)
    requires PrevCurrent(s, s.workers[i])
    ensures same <==> Duplicate(Last(s), s.workers[i].id, s.workers[i].c)
  {
    hide SamePlace, Valid;
    DerefIsLast(s, s.workers[i]);
  }

  lemma OwnPosition(w: TheWorld, s: Shared, q: State, step: Action, i: nat, e: UInt32)
    requires Valid(s) && Enabled(w, s, step) && q.Valid() && q.adds == s.adds && Valid(Next(w, s, step))
    requires AboutEntity(s, step) && Actor(s, step) == Some((i, e)) && i < |s.workers| && Alone(s.workers, i, e)
    requires s.workers[i].Active() ==>
               s.workers[i].id == e && Underway(s.grid, Last(s), s.workers[i]) && PrevCurrent(s, s.workers[i])
    requires s.workers[i].Active() ==> Lookup(q.last, e) == Target(Last(s), s.workers[i])
    requires !s.workers[i].Active() ==> Lookup(q.last, e) == Lookup(Last(s), e)
    ensures
      var s', q' := Next(w, s, step), Follow(w, s, q, step);
      && SamePositions(q.last, q'.last, e)
      && (s'.workers[i].Active() ==> s'.workers[i].id == e && Lookup(q'.last, e) == Target(Last(s'), s'.workers[i]))
      && (!s'.workers[i].Active() ==> Lookup(q'.last, e) == Lookup(Last(s'), e))
  {
    hide Valid, Last, SameSeen, OldSeen, FiredSeen, CellOf, PlacedAs, Follow, SamePlace, Insert, Delete, MoveEvents,
         CountMin.Estimate, Move;
    LastAfter(w, s, step);
    FollowIs(w, s, q, step);
    match step
    case Compare(_, same) => SameIsDuplicate(w, s, i, same);
    case _ =>
  }

  // ----- tallies -----

  /** Counters and debts together move as the sequential counters do. */
  ghost predicate Balanced(w: TheWorld, s: Shared, s': Shared, q: State, q': State, i: nat)
    requires Valid(s) && Valid(s') && i < |s.workers| && i < |s'.workers|
  {
    var d, d' := Debt(w, s.workers[i], Last(s)), Debt(w, s'.workers[i], Last(s'));
    && s'.routed + d'.routed + q.routed == s.routed + d.routed + q'.routed
    && s'.dropped + d'.dropped + q.dropped == s.dropped + d.dropped + q'.dropped
    && s'.events + d'.events + q.events == s.events + d.events + q'.events
  }

  lemma AdmitTally(w: TheWorld, s: Shared, q: State, i: nat, id: UInt32, c: Coord)
    requires Valid(s) && Enabled(w, s, Admit(i, id, c)) && q.Valid() && q.adds == s.adds &&
             Valid(Next(w, s, Admit(i, id, c)))
    requires Limited(s.adds, id) || Lookup(q.last, id) == Lookup(Last(s), id)
    ensures Balanced(w, s, Next(w, s, Admit(i, id, c)), q, Processed(w, q, id, c), i)
  {
    hide Valid, Last, SamePlace, MoveEvents, CountMin.Estimate, Move;
    LastAfter(w, s, Admit(i, id, c));
  }

  lemma EntityTally(w: TheWorld, s: Shared, q: State, step: Action, i: nat, e: UInt32)
    requires Valid(s) && Enabled(w, s, step) && Valid(Next(w, s, step))
    requires step.Load? || step.Compare? || step.DeleteOld? || step.InsertNew? || step.Evaluate? || step.Write?
    requires Actor(s, step) == Some((i, e)) && i < |s.workers| && Alone(s.workers, i, e)
    requires s.workers[i].id == e && PrevCurrent(s, s.workers[i])
    ensures Balanced(w, s, Next(w, s, step), q, q, i)
  {
    hide Valid, Last, SameSeen, OldSeen, CellOf, PlacedAs, SamePlace, Insert, Delete, MoveEvents, Limited, PrevValid;
    LastAfter(w, s, step);
    match step
    case Compare(_, same) => SameIsDuplicate(w, s, i, same);
    case Evaluate(_, fired) => DerefIsLast(s, s.workers[i]);
    case _ =>
  }

  lemma WorkerTally(w: TheWorld, s: Shared, q: State, step: Action, i: nat, e: UInt32)
    requires Valid(s) && Enabled(w, s, step) && !step.Admit? && Valid(Next(w, s, step))
    requires Actor(s, step) == Some((i, e)) && i < |s.workers|
    requires AboutEntity(s, step) ==> Alone(s.workers, i, e)
    requires s.workers[i].Active() ==> s.workers[i].id == e && PrevCurrent(s, s.workers[i])
    ensures Balanced(w, s, Next(w, s, step), q, q, i)
  {
    hide Valid, Last, SameSeen, OldSeen, FiredSeen, CellOf, PlacedAs, SamePlace, Insert, Delete, MoveEvents, Limited,
         PrevValid, Overwrite;
    if step.Load? || step.Compare? || step.DeleteOld? || step.InsertNew? || step.Evaluate? || step.Write? {
      EntityTally(w, s, q, step, i, e);
    } else {
      LastAfter(w, s, step);
    }
  }

  lemma BalancedSame(w: TheWorld, s: Shared, s': Shared, q: State, q': State, q'': State, i: nat)
    requires Valid(s) && Valid(s') && i < |s.workers| && i < |s'.workers|
    requires Balanced(w, s, s', q, q', i)
    requires q''.routed == q'.routed && q''.dropped == q'.dropped && q''.events == q'.events
    ensures Balanced(w, s, s', q, q'', i)
  {
  }

  lemma OwnTally(w: TheWorld, s: Shared, q: State, step: Action, i: nat, e: UInt32)
    requires Valid(s) && Enabled(w, s, step) && q.Valid() && q.adds == s.adds && Valid(Next(w, s, step))
    requires Actor(s, step) == Some((i, e)) && i < |s.workers|
    requires AboutEntity(s, step) ==> Alone(s.workers, i, e)
    requires s.workers[i].Active() ==> s.workers[i].id == e && PrevCurrent(s, s.workers[i])
    requires !s.workers[i].Active() && AboutEntity(s, step) ==> Lookup(q.last, e) == Lookup(Last(s), e)
    requires i < |Next(w, s, step).workers|
    ensures Balanced(w, s, Next(w, s, step), q, Follow(w, s, q, step), i)
  {
    hide Balanced, Processed, Next, Valid, Follow, Last, Lookup, Limited, Insert, CellOf, SameSeen, OldSeen, FiredSeen;
    FollowIs(w, s, q, step);
    match step
    case Admit(_, id, c) => AdmitTally(w, s, q, i, id, c);
    case BeginSeed(_, id, c) =>
      WorkerTally(w, s, q, step, i, e);
      BalancedSame(w, s, Next(w, s, step), q, q, Seeded(q, id, c), i);
    case _ => WorkerTally(w, s, q, step, i, e);
  }

  // ----- distinct counts -----

  ghost predicate OtherWillCount(ws: seq<Worker>, last: Positions, i: nat, id: UInt32, cell: UInt8) {
    exists j :: 0 <= j < |ws| && j != i && WillCount(ws[j], last, id, cell)
  }

  lemma SomeIsOwnOrOther(ws: seq<Worker>, last: Positions, i: nat, id: UInt32, cell: UInt8)
    requires i < |ws|
    ensures SomeWillCount(ws, last, id, cell) <==>
            OtherWillCount(ws, last, i, id, cell) || WillCount(ws[i], last, id, cell)
  {
    hide WillCount;
  }

  lemma OthersCountSame(ws: seq<Worker>, ws': seq<Worker>, last: Positions, last': Positions, i: nat, id: UInt32,
          cell: UInt8)
    requires |ws'| == |ws| && forall j :: 0 <= j < |ws| && j != i ==> ws'[j] == ws[j]
    requires forall j :: 0 <= j < |ws| && j != i ==>
             WillCount(ws[j], last', id, cell) == WillCount(ws[j], last, id, cell)
    ensures OtherWillCount(ws', last', i, id, cell) <==> OtherWillCount(ws, last, i, id, cell)
  {
    hide WillCount;
  }

  lemma AdmitCounts(w: TheWorld, s: Shared, q: State, i: nat, id: UInt32, c: Coord, e: UInt32, cell: UInt8)
    requires Valid(s) && Enabled(w, s, Admit(i, id, c)) && q.Valid() && q.adds == s.adds
    requires Limited(s.adds, id) || Lookup(q.last, id) == Lookup(Last(s), id)
    ensures
      var s', q' := Next(w, s, Admit(i, id, c)), Processed(w, q, id, c);
      && s'.counted == s.counted && !WillCount(s.workers[i], Last(s), e, cell)
      && (e in q'.counted[cell] <==> e in q.counted[cell] || WillCount(s'.workers[i], Last(s), e, cell))
  {
    hide Valid, Last, SamePlace, MoveEvents, CountMin.Estimate, Move, CellOf;
  }

  lemma OneMoreCounted(counted: seq<seq<UInt32>>, cell: UInt8, id: UInt32)
    requires |counted| == CELLS
    ensures forall id': UInt32, cell': UInt8 ::
              id' in counted[cell := counted[cell] + [id]][cell'] <==>
                  id' in counted[cell'] || (id' == id && cell' == cell)
  {
  }

  lemma WorkerCounts(w: TheWorld, s: Shared, step: Action, i: nat, e: UInt32, id: UInt32, cell: UInt8)
    requires Valid(s) && Enabled(w, s, step) && !step.Admit? && Valid(Next(w, s, step)) && |s.counted| == CELLS
    requires Actor(s, step) == Some((i, e)) && i < |s.workers|
    requires AboutEntity(s, step) ==> Alone(s.workers, i, e)
    requires s.workers[i].Active() ==> s.workers[i].id == e && PrevCurrent(s, s.workers[i])
    ensures
      var s' := Next(w, s, step);
      id in s'.counted[cell] || WillCount(s'.workers[i], Last(s'), id, cell) <==>
      id in s.counted[cell] || WillCount(s.workers[i], Last(s), id, cell)
  {
    hide Valid, Last, SameSeen, OldSeen, FiredSeen, CellOf, SamePlace, Insert, Delete, Limited, PrevValid;
    LastAfter(w, s, step);
    if step.Compare? {
      SameIsDuplicate(w, s, i, step.same);
    } else if step.CountDistinct? {
      var cell := CellOf(s.workers[i].c);
      OneMoreCounted(s.counted, cell, s.workers[i].id);
    }
  }

  lemma CountsValid(s: Shared)
    requires Valid(s)
    ensures |s.counted| == CELLS
  {
  }

  /** other: some other worker will count the id. */
  lemma OwnCounts(w: TheWorld, s: Shared, q: State, step: Action, i: nat, e: UInt32, id: UInt32, cell: UInt8,
          other: bool)
    requires Valid(s) && q.Valid()
    requires id in q.counted[cell] <==> id in s.counted[cell] || other ||
                                        (i < |s.workers| && WillCount(s.workers[i], Last(s), id, cell))
    requires Enabled(w, s, step) && q.adds == s.adds && Valid(Next(w, s, step))
    requires Actor(s, step) == Some((i, e)) && i < |s.workers| && i < |Next(w, s, step).workers|
    requires AboutEntity(s, step) ==> Alone(s.workers, i, e)
    requires s.workers[i].Active() ==> s.workers[i].id == e && PrevCurrent(s, s.workers[i])
    requires !s.workers[i].Active() && AboutEntity(s, step) ==> Lookup(q.last, e) == Lookup(Last(s), e)
    ensures
      var s', q' := Next(w, s, step), Follow(w, s, q, step);
      id in q'.counted[cell] <==> id in s'.counted[cell] || other || WillCount(s'.workers[i], Last(s'), id, cell)
  {
    hide Processed, Next, Valid, Follow, Last, Lookup, Limited, Insert, CellOf, SameSeen, OldSeen, FiredSeen, WillCount;
    FollowIs(w, s, q, step);
    if step.Admit? {
      AdmitCounts(w, s, q, i, step.id, step.c, id, cell);
      LastAfter(w, s, step);
    } else {
      CountsValid(s);
      WorkerCounts(w, s, step, i, e, id, cell);
    }
  }

  // ----- one step -----

  lemma Unmoved(w: TheWorld, s: Shared, step: Action, i: nat, e: UInt32, j: nat)
    requires Valid(s) && Enabled(w, s, step) && Actor(s, step) == Some((i, e)) && j < |s.workers| && j != i
    ensures |Next(w, s, step).workers| == |s.workers| && Next(w, s, step).workers[j] == s.workers[j]
  {
    hide Valid, SameSeen, OldSeen, FiredSeen, Limited, CellOf;
  }

  /** What the other workers owe does not change. */
  lemma OthersUnchanged(w: TheWorld, s: Shared, step: Action, i: nat, e: UInt32, j: nat)
    requires Sound(s) && Enabled(w, s, step) && StartsApart(s, step) && Actor(s, step) == Some((i, e))
    requires Valid(Next(w, s, step)) && j < |s.workers| && j != i
    ensures
      var s' := Next(w, s, step);
      && |s'.workers| == |s.workers| && s'.workers[j] == s.workers[j]
      && Debt(w, s.workers[j], Last(s')) == Debt(w, s.workers[j], Last(s))
      && forall id: UInt32, cell: UInt8 ::
           WillCount(s.workers[j], Last(s'), id, cell) == WillCount(s.workers[j], Last(s), id, cell)
  {
    hide Sound, Next, StartsApart, Last, Debt, WillCount, Valid, Enabled, SamePositions;
    SoundValid(s);
    Unmoved(w, s, step, i, e, j);
    if AboutEntity(s, step) {
      ActorAlone(w, s, step, i, e);
      SamePositionsAfter(w, s, step, i, e);
      DebtElsewhere(w, s.workers[j], Last(s), Last(Next(w, s, step)), e);
    } else {
      LastAfter(w, s, step);
    }
  }

  /** The worker of the step before it. */
  lemma OwnBefore(w: TheWorld, s: Shared, q: State, step: Action, i: nat, e: UInt32)
    requires Sound(s) && LinkedPositions(s, q) && Enabled(w, s, step) && StartsApart(s, step) &&
             Actor(s, step) == Some((i, e))
    ensures i < |s.workers|
    ensures AboutEntity(s, step) ==> Alone(s.workers, i, e)
    ensures s.workers[i].Active() ==>
              s.workers[i].id == e && Underway(s.grid, Last(s), s.workers[i]) && PrevCurrent(s, s.workers[i]) &&
              Lookup(q.last, e) == Target(Last(s), s.workers[i])
    ensures !s.workers[i].Active() && AboutEntity(s, step) ==> Lookup(q.last, e) == Lookup(Last(s), e)
  {
    hide Valid, SameSeen, OldSeen, FiredSeen, Limited, CellOf, Last, PlacedAs, Lookup, Target, Underway, PrevCurrent;
    if AboutEntity(s, step) {
      ActorAlone(w, s, step, i, e);
      if !s.workers[i].Active() {
        assert NoneTouches(s.workers, e);
      }
    }
  }

  lemma StepTallies(w: TheWorld, s: Shared, q: State, step: Action, i: nat, e: UInt32)
    requires Sound(s) && q.Valid() && q.adds == s.adds && LinkedPositions(s, q) && LinkedTallies(w, s, q)
    requires Enabled(w, s, step) && StartsApart(s, step) && Actor(s, step) == Some((i, e)) && Valid(Next(w, s, step))
    ensures LinkedTallies(w, Next(w, s, step), Follow(w, s, q, step))
  {
    hide Sound, Next, StartsApart, Last, Debt, WillCount, Valid, Enabled, Follow, LinkedPositions, Total;
    var s' := Next(w, s, step);
    SoundValid(s);
    OwnBefore(w, s, q, step, i, e);
    SameWorkers(w, s, step);
    OwnTally(w, s, q, step, i, e);
    forall j | 0 <= j < |s.workers| && j != i
      ensures Debt(w, s'.workers[j], Last(s')) == Debt(w, s.workers[j], Last(s))
    {
      OthersUnchanged(w, s, step, i, e, j);
    }
    TotalChanges(w, s.workers, s'.workers, Last(s), Last(s'), i);
  }

  lemma StepCounts(w: TheWorld, s: Shared, q: State, step: Action, i: nat, e: UInt32)
    requires Sound(s) && q.Valid() && q.adds == s.adds && LinkedPositions(s, q) && LinkedCounts(s, q)
    requires Enabled(w, s, step) && StartsApart(s, step) && Actor(s, step) == Some((i, e)) && Valid(Next(w, s, step))
    ensures LinkedCounts(Next(w, s, step), Follow(w, s, q, step))
  {
    hide Sound, Next, StartsApart, Last, Debt, WillCount, Valid, Enabled, Follow, LinkedPositions, SomeWillCount,
         OtherWillCount;
    var s', q' := Next(w, s, step), Follow(w, s, q, step);
    SoundValid(s);
    OwnBefore(w, s, q, step, i, e);
    SameWorkers(w, s, step);
    CountsValid(s');
    forall cell: UInt8, id: UInt32
      ensures id in q'.counted[cell] <==> id in s'.counted[cell] || SomeWillCount(s'.workers, Last(s'), id, cell)
    {
      forall j | 0 <= j < |s.workers| && j != i
        ensures s'.workers[j] == s.workers[j]
        ensures WillCount(s.workers[j], Last(s'), id, cell) == WillCount(s.workers[j], Last(s), id, cell)
      {
        OthersUnchanged(w, s, step, i, e, j);
      }
      SomeIsOwnOrOther(s.workers, Last(s), i, id, cell);
      SomeIsOwnOrOther(s'.workers, Last(s'), i, id, cell);
      OthersCountSame(s.workers, s'.workers, Last(s), Last(s'), i, id, cell);
      OwnCounts(w, s, q, step, i, e, id, cell, OtherWillCount(s.workers, Last(s), i, id, cell));
    }
  }

  lemma OtherPositions(w: TheWorld, s: Shared, q: State, step: Action)
    requires Valid(s) && q.Valid() && q.adds == s.adds && LinkedPositions(s, q)
    requires Enabled(w, s, step) && !AboutEntity(s, step) && Valid(Next(w, s, step))
    ensures LinkedPositions(Next(w, s, step), Follow(w, s, q, step))
  {
    hide Valid, SameSeen, OldSeen, FiredSeen, CellOf, Last, Lookup, Target, Follow, CountMin.Estimate, Duplicate, Next;
    LastAfter(w, s, step);
    FollowIs(w, s, q, step);
    OtherStep(w, s, step);
    var s' := Next(w, s, step);
    forall id: UInt32 | NoneTouches(s'.workers, id) ensures NoneTouches(s.workers, id) {
      forall j | 0 <= j < |s.workers| ensures !s.workers[j].Touches(id) {
        assert !s'.workers[j].Touches(id);
      }
    }
  }

  lemma StepPositions(w: TheWorld, s: Shared, q: State, step: Action, i: nat, e: UInt32)
    requires Sound(s) && q.Valid() && q.adds == s.adds && LinkedPositions(s, q)
    requires Enabled(w, s, step) && StartsApart(s, step) && Actor(s, step) == Some((i, e)) && Valid(Next(w, s, step))
    ensures LinkedPositions(Next(w, s, step), Follow(w, s, q, step))
  {
    var s', q' := Next(w, s, step), Follow(w, s, q, step);
    hide Sound, Next, StartsApart, Last, Valid, Enabled, Follow, LinkedPositions, SamePositions, Underway,
         PrevCurrent, AboutEntity;
    SoundValid(s);
    OwnBefore(w, s, q, step, i, e);
    if AboutEntity(s, step) {
      OwnPosition(w, s, q, step, i, e);
      SamePositionsAfter(w, s, step, i, e);
      StepIsLocal(w, s, step, i, e);
      PositionsFrame(s, s', q, q', i, e);
    } else {
      OtherPositions(w, s, q, step);
    }
  }

  lemma StepIs(w: TheWorld, q: State, id: UInt32, c: Coord)
    requires q.Valid()
    ensures Step(w, q, Op.Packet(id, c)) == Processed(w, q, id, c)
    ensures Step(w, q, Op.Seed(id, c)) == Seeded(q, id, c)
  {
  }

  /** The sequential pipeline never sees a seed that it is not allowed. */
  lemma FollowAgrees(w: TheWorld, s: Shared, q: State, step: Action)
    requires Valid(s) && q.Valid() && Agrees(q.grid, q.last) && LinkedPositions(s, q)
    requires Enabled(w, s, step) && StartsApart(s, step)
    ensures Agrees(Follow(w, s, q, step).grid, Follow(w, s, q, step).last)
  {
    hide Valid, Agrees, Enabled, Follow, Last, Step, NoneTouches, CellOf;
    FollowIs(w, s, q, step);
    match step
    case Admit(_, id, c) =>
      StepAgrees(w, q, Op.Packet(id, c));
      StepIs(w, q, id, c);
    case BeginSeed(_, id, c) =>
      assert Lookup(q.last, id) == Lookup(Last(s), id);
      StepAgrees(w, q, Op.Seed(id, c));
      StepIs(w, q, id, c);
    case _ =>
  }

  lemma FollowAdds(w: TheWorld, s: Shared, q: State, step: Action)
    requires Valid(s) && q.Valid() && q.adds == s.adds && Enabled(w, s, step)
    ensures Follow(w, s, q, step).adds == Next(w, s, step).adds
  {
    hide Valid, Follow, CellOf, SameSeen, OldSeen, FiredSeen, Limited, Duplicate, Insert, Delete;
    FollowIs(w, s, q, step);
  }

  /** A step of the ticker concerns no worker. */
  lemma TickerStep(w: TheWorld, s: Shared, q: State, step: Action)
    requires Valid(s) && q.Valid() && Enabled(w, s, step) && Actor(s, step).None?
    requires LinkedPositions(s, q) && LinkedTallies(w, s, q) && LinkedCounts(s, q) && Valid(Next(w, s, step))
    ensures LinkedPositions(Next(w, s, step), Follow(w, s, q, step))
    ensures LinkedTallies(w, Next(w, s, step), Follow(w, s, q, step))
    ensures LinkedCounts(Next(w, s, step), Follow(w, s, q, step))
  {
    hide Valid, Follow, Last, Total, SomeWillCount, NoneTouches, Lookup, Target;
    LastAfter(w, s, step);
    FollowIs(w, s, q, step);
  }

  lemma StepLinked(w: TheWorld, s: Shared, q: State, step: Action)
    requires Linked(w, s, q) && (Enabled(w, s, step) ==> StartsApart(s, step))
    ensures Linked(w, Next(w, s, step), Follow(w, s, q, step))
  {
    hide Sound, Valid, StartsApart, LinkedPositions, LinkedTallies, LinkedCounts, Agrees;
    SoundValid(s);
    if Enabled(w, s, step) {
      hide Next, Follow, Enabled, State.Valid;
      StepSound(w, s, step);
      SoundValid(Next(w, s, step));
      FollowAgrees(w, s, q, step);
      FollowAdds(w, s, q, step);
      match Actor(s, step)
      case Some((i, e)) =>
        StepPositions(w, s, q, step, i, e);
        StepTallies(w, s, q, step, i, e);
        StepCounts(w, s, q, step, i, e);
      case None => TickerStep(w, s, q, step);
    }
  }

  // ----- whole runs -----

  lemma {:induction false} NothingOwed(w: TheWorld, ws: seq<Worker>, last: Positions)
    requires forall i :: 0 <= i < |ws| ==> ws[i].Idle?
    ensures Total(w, ws, last) == Tally(0, 0, 0)
    ensures forall id: UInt32, cell: UInt8 :: !SomeWillCount(ws, last, id, cell)
  {
    if ws == [] {
    } else {
      NothingOwed(w, ws[..|ws| - 1], last);
    }
  }

  lemma StartLinked(w: TheWorld, n: nat)
    ensures Linked(w, Start(n), Initial())
  {
    hide Agrees, Sound, CellOf;
    StartSound(n);
    SoundValid(Start(n));
    assert Last(Start(n)) == map[];
    InitialAgrees();
    NothingOwed(w, Start(n).workers, map[]);
  }

  lemma FollowRuns(w: TheWorld, s: Shared, ops: seq<Op>, step: Action)
    ensures Run(w, ops + Began(w, s, step)) == Follow(w, s, Run(w, ops), step)
  {
    hide Valid, Enabled, Step;
    var began := Began(w, s, step);
    if began == [] {
      assert ops + began == ops;
    } else {
      assert (ops + began)[..|ops + began| - 1] == ops;
    }
  }

  lemma LinkedValid(w: TheWorld, s: Shared, q: State)
    requires Linked(w, s, q)
    ensures Valid(s) && Sound(s) && q.Valid()
  {
  }

  /** At every moment the interleaving is linked to the sequential run of what has begun. */
  lemma {:induction false} RunLinked(w: TheWorld, n: nat, steps: seq<Action>)
    requires AllApart(w, n, steps)
    ensures Linked(w, Exec(w, n, steps), Run(w, Log(w, n, steps)))
  {
    hide Linked, Next, Valid, StartsApart, Enabled, Began, Follow, Step, AllApart;
    if steps == [] {
      StartLinked(w, n);
    } else {
      var init, step := steps[..|steps| - 1], steps[|steps| - 1];
      var s, ops := Exec(w, n, init), Log(w, n, init);
      AllApartPrefix(w, n, steps);
      RunLinked(w, n, init);
      LinkedValid(w, s, Run(w, ops));
      StepLinked(w, s, Run(w, ops), step);
      FollowRuns(w, s, ops, step);
    }
  }

  /** Agreement with a map of positions determines the grid. */
  lemma AgreedGrid(g: Grid, g': Grid, last: Positions)
    requires Agrees(g, last) && Agrees(g', last)
    ensures g == g'
  {
    hide CellOf, Agrees;
    forall s | 0 <= s < SLOTS ensures g[s] == g'[s] {
      SlotContents(g, last, s);
      SlotContents(g', last, s);
    }
  }

  lemma SamePositionMaps(last: Positions, last': Positions)
    requires forall id: UInt32 :: Lookup(last, id) == Lookup(last', id)
    ensures last == last'
  {
    forall id: UInt32 ensures id in last <==> id in last' && (id in last ==> last[id] == last'[id]) {
      assert Lookup(last, id) == Lookup(last', id);
    }
  }

  lemma SameRegisters(counted: seq<UInt32>, counted': seq<UInt32>)
    requires forall id: UInt32 :: id in counted <==> id in counted'
    ensures HyperLogLogs.RegistersOf(counted) == HyperLogLogs.RegistersOf(counted')
  {
    hide HyperLogLogs.Register;
    forall i | 0 <= i < HyperLogLogs.REGISTERS
      ensures HyperLogLogs.RegistersOf(counted)[i] == HyperLogLogs.RegistersOf(counted')[i]
    {
      HyperLogLogs.RegisterOfSet(counted, counted', i);
    }
  }

  lemma QuiescentLinked(w: TheWorld, s: Shared, q: State)
    requires Linked(w, s, q) && Quiescent(s)
    ensures Valid(s) && q.Valid()
    ensures Last(s) == q.last && s.grid == q.grid && s.adds == q.adds
    ensures s.routed == q.routed && s.dropped == q.dropped && s.events == q.events
    ensures forall cell: UInt8 ::
              HyperLogLogs.RegistersOf(s.counted[cell]) == HyperLogLogs.RegistersOf(q.counted[cell])
  {
    hide Sound, Last, Agrees, SomeWillCount, Total, HyperLogLogs.RegistersOf, Lookup;
    SoundValid(s);
    forall id: UInt32 ensures Lookup(Last(s), id) == Lookup(q.last, id) {
      assert NoneTouches(s.workers, id);
    }
    SamePositionMaps(Last(s), q.last);
    QuiescentAgrees(s);
    AgreedGrid(s.grid, q.grid, q.last);
    NothingOwed(w, s.workers, Last(s));
    forall cell: UInt8
      ensures HyperLogLogs.RegistersOf(s.counted[cell]) == HyperLogLogs.RegistersOf(q.counted[cell])
    {
      SameRegisters(s.counted[cell], q.counted[cell]);
    }
  }

  /** Serializability: whenever no worker is busy, the positions, the whole grid, the limiter, the counters and all
      registers of the distinct counters are what the sequential pipeline gives for the same packets, seeds and
      ticks, taken one at a time in the order in which they began. */
  lemma Serializable(w: TheWorld, n: nat, steps: seq<Action>)
    requires AllApart(w, n, steps) && Quiescent(Exec(w, n, steps))
    ensures
      var s, q := Exec(w, n, steps), Run(w, Log(w, n, steps));
      && Valid(s) && Last(s) == q.last && s.grid == q.grid && s.adds == q.adds
      && s.routed == q.routed && s.dropped == q.dropped && s.events == q.events
      && forall cell: UInt8 ::
           HyperLogLogs.RegistersOf(s.counted[cell]) == HyperLogLogs.RegistersOf(q.counted[cell])
  {
    hide Linked, Quiescent, Valid, AllApart, Exec, Run, Log, HyperLogLogs.RegistersOf;
    RunLinked(w, n, steps);
    QuiescentLinked(w, Exec(w, n, steps), Run(w, Log(w, n, steps)));
    CountsValid(Exec(w, n, steps));
  }
}
