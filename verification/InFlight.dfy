/** Where an entity is over every interleaving with at most one packet of each entity in flight
    (pkg/engine/pipeline.go, callbacks.go, pkg/spatial/grid.go). */
module InFlight {
  import opened Words
  import opened Coords
  import opened Grids
  import opened Pipeline
  import opened Machine

  // ----- the assumption -----

  /** The step does not start on an entity that another worker is busy with; a seed names an unseen entity or one
      that stays in its cell. */
  ghost predicate StartsApart(s: Shared, step: Action)
    requires Valid(s)
  {
    match step
    case Admit(_, id, _) => Limited(s.adds, id) || NoneTouches(s.workers, id)
    case BeginSeed(_, id, c) => NoneTouches(s.workers, id) && (id in Last(s) ==> CellOf(Last(s)[id]) == CellOf(c))
    case _ => true
  }

  ghost predicate AllApart(w: TheWorld, n: nat, steps: seq<Action>) {
    forall k :: 0 <= k < |steps| ==>
      var s := Exec(w, n, steps[..k]);
      Valid(s) && Enabled(w, s, steps[k]) ==> StartsApart(s, steps[k])
  }

  // ----- where an entity is while a worker is busy with it -----

  /** Names the pending delete or insert of a busy worker's entity. */
  ghost predicate Underway(g: Grid, last: Positions, wk: Worker)
    requires wk.Active()
  {
    match wk
    case Inserting(id, c, _) =>
      var from := Lookup(last, id);
      PlacedAs(g, id, if from.Some? && CellOf(from.value) != CellOf(c) then None else from)
    case Evaluating(id, c, _) => PlacedAs(g, id, Some(c))
    case Writing(id, c) => PlacedAs(g, id, Some(c))
    case Seeding(id, c) => Lookup(last, id) == Some(c) && forall cell: UInt8 :: In(g, cell, id) ==> cell == CellOf(c)
    case _ => PlacedAs(g, wk.id, Lookup(last, wk.id))
  }

  /** prev is the entity's packet. */
  ghost predicate PrevCurrent(s: Shared, wk: Worker) {
    wk.HasPrev() ==> wk.prev == if wk.id in s.ptrs then Some(s.ptrs[wk.id]) else None
  }

  ghost predicate OnePerEntity(ws: seq<Worker>) {
    forall i, j :: 0 <= i < |ws| && 0 <= j < |ws| && i != j && ws[i].Active() && ws[j].Active() ==> ws[i].id != ws[j].id
  }

  /** The strong invariant: an entity that no worker is busy with is in exactly the shard of its last position, with
      exactly that coordinate; for the others the one busy worker says what is pending. */
  ghost predicate Sound(s: Shared) {
    && Valid(s) && Striped(s.grid) && OnePerEntity(s.workers)
    && (forall id: UInt32 :: NoneTouches(s.workers, id) ==> PlacedAs(s.grid, id, Lookup(Last(s), id)))
    && (forall i :: 0 <= i < |s.workers| && s.workers[i].Active() ==>
          Underway(s.grid, Last(s), s.workers[i]) && PrevCurrent(s, s.workers[i]))
  }

  lemma QuiescentAgrees(s: Shared)
    requires Sound(s) && Quiescent(s)
    ensures Agrees(s.grid, Last(s))
  {
  }

  // ----- it is kept -----

  ghost predicate SamePointers(s: Shared, s': Shared, e: UInt32) {
    && (forall id: UInt32 :: id != e ==> (id in s'.ptrs <==> id in s.ptrs))
    && (forall id: UInt32 :: id != e && id in s.ptrs ==> s'.ptrs[id] == s.ptrs[id])
  }

  ghost predicate SamePositions(last: Positions, last': Positions, e: UInt32) {
    forall id: UInt32 :: id != e ==> Lookup(last', id) == Lookup(last, id)
  }

  lemma PlacedElsewhere(g: Grid, g': Grid, e: UInt32, id: UInt32, c: Option<Coord>)
    requires SameElsewhere(g, g', e) && id != e
    ensures PlacedAs(g', id, c) <==> PlacedAs(g, id, c)
  {
    hide CellOf, In, Grids.At;
  }

  lemma UnderwayElsewhere(g: Grid, g': Grid, last: Positions, last': Positions, e: UInt32, wk: Worker)
    requires SameElsewhere(g, g', e) && SamePositions(last, last', e) && wk.Active() && wk.id != e
    requires Underway(g, last, wk)
    ensures Underway(g', last', wk)
  {
    hide CellOf, In, Grids.At, PlacedAs;
    forall c: Option<Coord> ensures PlacedAs(g', wk.id, c) <==> PlacedAs(g, wk.id, c) {
      PlacedElsewhere(g, g', e, wk.id, c);
    }
  }

  lemma LookupElsewhere(last: Positions, last': Positions, e: UInt32, id: UInt32)
    requires SamePositions(last, last', e) && id != e
    ensures Lookup(last', id) == Lookup(last, id)
  {
  }

  lemma NoneTouchesElsewhere(ws: seq<Worker>, ws': seq<Worker>, i: nat, e: UInt32, id: UInt32)
    requires i < |ws| && |ws'| == |ws| && forall j :: 0 <= j < |ws| && j != i ==> ws'[j] == ws[j]
    requires (ws[i].Active() ==> ws[i].id == e) && (ws'[i].Active() ==> ws'[i].id == e)
    requires id != e
    ensures NoneTouches(ws, id) <==> NoneTouches(ws', id)
  {
  }

  /** A step of worker i about entity e keeps the invariant if it does so for e. */
  lemma SoundFrame(s: Shared, s': Shared, i: nat, e: UInt32)
    requires Sound(s) && Valid(s') && Striped(s'.grid)
    requires i < |s.workers| && |s'.workers| == |s.workers|
    requires forall j :: 0 <= j < |s.workers| && j != i ==> s'.workers[j] == s.workers[j]
    requires Alone(s.workers, i, e)
    requires (s.workers[i].Active() ==> s.workers[i].id == e) && (s'.workers[i].Active() ==> s'.workers[i].id == e)
    requires SameElsewhere(s.grid, s'.grid, e) && SamePointers(s, s', e) && SamePositions(Last(s), Last(s'), e)
    requires s'.workers[i].Active() ==> Underway(s'.grid, Last(s'), s'.workers[i]) && PrevCurrent(s', s'.workers[i])
    requires !s'.workers[i].Active() ==> PlacedAs(s'.grid, e, Lookup(Last(s'), e))
    ensures Sound(s')
  {
    hide CellOf, PlacedAs, Underway, SameElsewhere, SamePositions, Striped, Last, Valid, Lookup;
    forall id: UInt32 | NoneTouches(s'.workers, id) ensures PlacedAs(s'.grid, id, Lookup(Last(s'), id)) {
      if id != e {
        NoneTouchesElsewhere(s.workers, s'.workers, i, e, id);
        LookupElsewhere(Last(s), Last(s'), e, id);
        PlacedElsewhere(s.grid, s'.grid, e, id, Lookup(Last(s), id));
      } else {
        assert !s'.workers[i].Touches(e);
      }
    }
    forall j | 0 <= j < |s.workers| && s'.workers[j].Active()
      ensures Underway(s'.grid, Last(s'), s'.workers[j]) && PrevCurrent(s', s'.workers[j])
    {
      if j != i {
        assert !s.workers[j].Touches(e);
        UnderwayElsewhere(s.grid, s'.grid, Last(s), Last(s'), e, s.workers[j]);
      }
    }
  }

  /** The step makes its worker busy, keeps it busy, or sets it free: it is about an entity. */
  ghost predicate AboutEntity(s: Shared, step: Action) {
    match step
    case Admit(_, id, _) => !Limited(s.adds, id)
    case CountDropped(_) => false
    case CountDistinct(_) => false
    case CountRouted(_) => false
    case _ => Actor(s, step).Some?
  }

  lemma ActorAlone(w: TheWorld, s: Shared, step: Action, i: nat, e: UInt32)
    requires Sound(s) && Enabled(w, s, step) && StartsApart(s, step)
    requires AboutEntity(s, step) && Actor(s, step) == Some((i, e))
    ensures i < |s.workers| && Alone(s.workers, i, e)
    ensures s.workers[i].Active() ==>
              s.workers[i].id == e && Underway(s.grid, Last(s), s.workers[i]) && PrevCurrent(s, s.workers[i])
    ensures !s.workers[i].Active() ==> PlacedAs(s.grid, e, Lookup(Last(s), e))
  {
    hide SameSeen, OldSeen, FiredSeen, Limited, Underway, PrevCurrent, PlacedAs, Last, Valid, Striped, CellOf;
    if s.workers[i].Active() {
    } else {
      assert NoneTouches(s.workers, e);
    }
  }

  /** Reading prev without a lock is reading the last position. */
  lemma DerefIsLast(s: Shared, wk: Worker)
    requires Valid(s) && wk.HasPrev() && PrevCurrent(s, wk)
    ensures wk.prev.Some? ==> Points(s.heap, wk.prev.value, wk.id)
    ensures Deref(s, wk.prev) == Lookup(Last(s), wk.id)
  {
  }

  lemma OwnSound(w: TheWorld, s: Shared, step: Action, i: nat, e: UInt32)
    requires Valid(s) && Enabled(w, s, step) && StartsApart(s, step) && Striped(s.grid)
    requires AboutEntity(s, step) && Actor(s, step) == Some((i, e)) && i < |s.workers| && Alone(s.workers, i, e)
    requires s.workers[i].Active() ==>
             s.workers[i].id == e && Underway(s.grid, Last(s), s.workers[i]) && PrevCurrent(s, s.workers[i])
    requires !s.workers[i].Active() ==> PlacedAs(s.grid, e, Lookup(Last(s), e))
    requires Valid(Next(w, s, step))
    ensures
      var s' := Next(w, s, step);
      && Striped(s'.grid)
      && (s'.workers[i].Active() ==> Underway(s'.grid, Last(s'), s'.workers[i]) && PrevCurrent(s', s'.workers[i]))
      && (!s'.workers[i].Active() ==> PlacedAs(s'.grid, e, Lookup(Last(s'), e)))
  {
    hide CellOf, Limited, Insert, Delete, In, Grids.At, Striped, Last, SameSeen, FiredSeen, Valid, PrevValid, Points;
    LastAfter(w, s, step);
    match step
    case DeleteOld(_, from) =>
      DerefIsLast(s, s.workers[i]);
      DeleteRemoves(s.grid, from, e);
    case InsertNew(_) => InsertPlaces(s.grid, e, s.workers[i].c);
    case EndSeed(_) => InsertPlaces(s.grid, e, s.workers[i].c);
    case _ =>
  }

  /** Nothing about any entity changes. */
  lemma SoundSame(s: Shared, s': Shared)
    requires Sound(s) && Valid(s') && s'.grid == s.grid && s'.ptrs == s.ptrs && Last(s') == Last(s)
    requires |s'.workers| == |s.workers|
    requires forall j :: 0 <= j < |s.workers| ==>
               s'.workers[j] == s.workers[j] || (!s.workers[j].Active() && !s'.workers[j].Active())
    ensures Sound(s')
  {
  }

  lemma OtherStep(w: TheWorld, s: Shared, step: Action)
    requires Valid(s) && Enabled(w, s, step) && !AboutEntity(s, step)
    ensures
      var s' := Next(w, s, step);
      && s'.grid == s.grid && s'.ptrs == s.ptrs && |s'.workers| == |s.workers|
      && forall j :: 0 <= j < |s.workers| ==>
           s'.workers[j] == s.workers[j] || (!s.workers[j].Active() && !s'.workers[j].Active())
  {
    hide Valid, Limited, SameSeen, OldSeen, FiredSeen, CellOf;
  }

  lemma SamePositionsAfter(w: TheWorld, s: Shared, step: Action, i: nat, e: UInt32)
    requires Valid(s) && Enabled(w, s, step) && Actor(s, step) == Some((i, e)) && Valid(Next(w, s, step))
    ensures SamePositions(Last(s), Last(Next(w, s, step)), e)
  {
    hide Valid, Last, Limited, SameSeen, OldSeen, FiredSeen, CellOf, Next;
    LastAfter(w, s, step);
  }

  lemma StepAboutEntity(w: TheWorld, s: Shared, step: Action, i: nat, e: UInt32)
    requires Sound(s) && Enabled(w, s, step) && StartsApart(s, step)
    requires AboutEntity(s, step) && Actor(s, step) == Some((i, e))
    ensures Sound(Next(w, s, step))
  {
    hide Underway, PrevCurrent, PlacedAs, Last, Valid, Striped, CellOf, SameElsewhere, Next, StartsApart, NoneTouches,
         AboutEntity, Lookup;
    LastAfter(w, s, step);
    ActorAlone(w, s, step, i, e);
    StepIsLocal(w, s, step, i, e);
    OwnSound(w, s, step, i, e);
    SamePositionsAfter(w, s, step, i, e);
    SoundFrame(s, Next(w, s, step), i, e);
  }

  lemma StepSound(w: TheWorld, s: Shared, step: Action)
    requires Sound(s) && (Enabled(w, s, step) ==> StartsApart(s, step))
    ensures Sound(Next(w, s, step))
  {
    if Enabled(w, s, step) {
      LastAfter(w, s, step);
      if AboutEntity(s, step) {
        var (i, e) := Actor(s, step).value;
        StepAboutEntity(w, s, step, i, e);
      } else {
        OtherStep(w, s, step);
        SoundSame(s, Next(w, s, step));
      }
    }
  }

  lemma StartSound(n: nat)
    ensures Sound(Start(n))
  {
  }

  lemma SoundValid(s: Shared)
    requires Sound(s)
    ensures Valid(s)
  {
  }

  lemma AllApartPrefix(w: TheWorld, n: nat, steps: seq<Action>)
    requires AllApart(w, n, steps) && steps != []
    ensures
      var init, step := steps[..|steps| - 1], steps[|steps| - 1];
      && AllApart(w, n, init)
      && (Valid(Exec(w, n, init)) && Enabled(w, Exec(w, n, init), step) ==> StartsApart(Exec(w, n, init), step))
  {
    hide Valid, Enabled, StartsApart, Next;
    var init := steps[..|steps| - 1];
    forall k | 0 <= k < |init|
      ensures
        var s := Exec(w, n, init[..k]);
        Valid(s) && Enabled(w, s, init[k]) ==> StartsApart(s, init[k])
    {
      assert init[..k] == steps[..k] && init[k] == steps[k];
    }
  }

  /** Over every interleaving of any number of workers, seeds and ticks with at most one packet of each entity in
      flight, an entity with none in flight is in exactly the shard of its last position with exactly that
      coordinate, and for an entity in flight the invariant names the pending delete or insert. */
  lemma {:induction false} OneInFlight(w: TheWorld, n: nat, steps: seq<Action>)
    requires AllApart(w, n, steps)
    ensures Sound(Exec(w, n, steps))
    ensures Quiescent(Exec(w, n, steps)) ==> Agrees(Exec(w, n, steps).grid, Last(Exec(w, n, steps)))
  {
    hide Sound, Next, Valid, StartsApart, Enabled, Quiescent, Agrees;
    if steps == [] {
      StartSound(n);
    } else {
      var init, step := steps[..|steps| - 1], steps[|steps| - 1];
      AllApartPrefix(w, n, steps);
      OneInFlight(w, n, init);
      SoundValid(Exec(w, n, init));
      StepSound(w, Exec(w, n, init), step);
    }
    SoundValid(Exec(w, n, steps));
    if Quiescent(Exec(w, n, steps)) {
      QuiescentAgrees(Exec(w, n, steps));
    }
  }
}
