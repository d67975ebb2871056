/** What the indexed evaluator reports, compared with a scan of all fences and over whole runs
    (pkg/geofence/evaluate.go, store.go). */
module Ledger {
  import opened Words
  import opened Fences
  import Cells

  // ----- one move -----

  /** All fences in registration order, but only those indexed at the cell are looked at. */
  function ScanIndexed(id: UInt32, fences: seq<Fence>, covers: seq<seq<UInt8>>, cell: UInt8, from: Option<Point>,
          to: Point): seq<FenceEvent>
    requires |covers| == |fences|
  {
    if fences == [] then []
    else
      var n := |fences| - 1;
      ScanIndexed(id, fences[..n], covers[..n], cell, from, to) +
      if cell in covers[n] then EventsOf(id, fences[n], from, to) else []
  }

  lemma {:induction false} ScanAppend(id: UInt32, fs: seq<Fence>, gs: seq<Fence>, from: Option<Point>, to: Point)
    ensures Scan(id, fs + gs, from, to) == Scan(id, fs, from, to) + Scan(id, gs, from, to)
  {
    hide EventsOf;
    if |gs| == 0 {
      assert fs + gs == fs;
    } else {
      var all := fs + gs;
      assert all[..|all| - 1] == fs + gs[..|gs| - 1];
      ScanAppend(id, fs, gs[..|gs| - 1], from, to);
    }
  }

  /** Scanning the fences that the index lists is scanning all fences restricted to those. */
  lemma {:induction false} NearScanIsIndexedScan(id: UInt32, fences: seq<Fence>, covers: seq<seq<UInt8>>, cell: UInt8,
          from: Option<Point>, to: Point)
    requires |covers| == |fences|
    ensures Scan(id, Near(fences, covers, cell), from, to) == ScanIndexed(id, fences, covers, cell, from, to)
  {
    hide EventsOf;
    if |fences| == 0 {
    } else {
      var n := |fences| - 1;
      NearScanIsIndexedScan(id, fences[..n], covers[..n], cell, from, to);
      var rest := Near(fences[..n], covers[..n], cell);
      if cell in covers[n] {
        assert Near(fences, covers, cell) == rest + [fences[n]];
        ScanAppend(id, rest, [fences[n]], from, to);
        assert [fences[n]][..0] == [];
        assert Scan(id, [fences[n]], from, to) == EventsOf(id, fences[n], from, to);
      } else {
        assert Near(fences, covers, cell) == rest;
      }
    }
  }

  /** The fences, by number, that are indexed at the cell and that the move enters or leaves. */
  ghost function Concerned(fences: seq<Fence>, covers: seq<seq<UInt8>>, cell: UInt8, from: Option<Point>, to: Point):
        set<nat>
    requires |covers| == |fences|
  {
    set i | 0 <= i < |fences| && cell in covers[i] &&
      fences[i].contains(to.lat, to.lng) != (from.Some? && fences[i].contains(from.value.lat, from.value.lng))
  }

  predicate IsConcerned(f: Fence, cover: seq<UInt8>, cell: UInt8, from: Option<Point>, to: Point) {
    cell in cover && Verdict(f, from, to).Some?
  }

  lemma ConcernedOneMore(fences: seq<Fence>, covers: seq<seq<UInt8>>, cell: UInt8, from: Option<Point>, to: Point,
          n: nat)
    requires |covers| == |fences| == n + 1
    ensures Concerned(fences, covers, cell, from, to) ==
            Concerned(fences[..n], covers[..n], cell, from, to) +
            if IsConcerned(fences[n], covers[n], cell, from, to) then {n} else {}
  {
  }

  lemma OneEvent(id: UInt32, f: Fence, from: Option<Point>, to: Point)
    ensures |EventsOf(id, f, from, to)| == if Verdict(f, from, to).Some? then 1 else 0
  {
  }

  /** Each of them gives one event, and no other fence gives any. */
  lemma {:induction false} IndexedScanCounts(id: UInt32, fences: seq<Fence>, covers: seq<seq<UInt8>>, cell: UInt8,
          from: Option<Point>, to: Point)
    requires |covers| == |fences|
    ensures |ScanIndexed(id, fences, covers, cell, from, to)| == |Concerned(fences, covers, cell, from, to)|
  {
    if |fences| == 0 {
      assert Concerned(fences, covers, cell, from, to) == {};
    } else {
      hide Verdict, EventsOf;
      var n := |fences| - 1;
      IndexedScanCounts(id, fences[..n], covers[..n], cell, from, to);
      ConcernedOneMore(fences, covers, cell, from, to, n);
      OneEvent(id, fences[n], from, to);
      var before := Concerned(fences[..n], covers[..n], cell, from, to);
      assert n !in before;
    }
  }

  /** Every fence that holds the point is indexed at the point's cell. */
  ghost predicate IndexedWhereItHolds(f: Fence, cover: seq<UInt8>, p: Point) {
    f.Holds(p) ==> CellOf(p) in cover
  }

  /** The fence has something to report about the move, but is not indexed at the cell that the move leads to. */
  ghost predicate Missed(f: Fence, cover: seq<UInt8>, from: Option<Point>, to: Point) {
    Verdict(f, from, to).Some? && CellOf(to) !in cover
  }

  /** The move leaves the fence for a cell where the fence is not indexed. */
  ghost predicate MissedExit(f: Fence, cover: seq<UInt8>, from: Option<Point>, to: Point) {
    Verdict(f, from, to) == Some(Exit) && CellOf(to) !in cover
  }

  /** The move enters the fence in a cell where the fence is not indexed. */
  ghost predicate MissedEnter(f: Fence, cover: seq<UInt8>, from: Option<Point>, to: Point) {
    Verdict(f, from, to) == Some(Enter) && CellOf(to) !in cover
  }

  lemma {:induction false} IndexedScanLength(id: UInt32, fences: seq<Fence>, covers: seq<seq<UInt8>>,
          from: Option<Point>, to: Point)
    requires |covers| == |fences|
    ensures |ScanIndexed(id, fences, covers, CellOf(to), from, to)| <= |Scan(id, fences, from, to)|
    ensures |ScanIndexed(id, fences, covers, CellOf(to), from, to)| == |Scan(id, fences, from, to)| <==>
            forall i :: 0 <= i < |fences| ==> !Missed(fences[i], covers[i], from, to)
    ensures (forall i :: 0 <= i < |fences| ==> !Missed(fences[i], covers[i], from, to)) ==>
              ScanIndexed(id, fences, covers, CellOf(to), from, to) == Scan(id, fences, from, to)
  {
    hide CellOf;
    if |fences| == 0 {
    } else {
      var n := |fences| - 1;
      IndexedScanLength(id, fences[..n], covers[..n], from, to);
      assert forall i :: 0 <= i < n ==>
               Missed(fences[..n][i], covers[..n][i], from, to) == Missed(fences[i], covers[i], from, to);
    }
  }

  /** EvaluateMove reports exactly what a scan of all fences would, in the same order, iff every fence that has
      something to report about the move is indexed at the cell that the move leads to. */
  lemma EvaluateMatchesFullScan(id: UInt32, fences: seq<Fence>, covers: seq<seq<UInt8>>, from: Option<Point>, to: Point)
    requires |covers| == |fences|
    ensures Scan(id, Near(fences, covers, CellOf(to)), from, to) == Scan(id, fences, from, to) <==>
            forall i :: 0 <= i < |fences| && Verdict(fences[i], from, to).Some? ==> CellOf(to) in covers[i]
  {
    hide CellOf, Verdict;
    NearScanIsIndexedScan(id, fences, covers, CellOf(to), from, to);
    IndexedScanLength(id, fences, covers, from, to);
    assert forall i :: 0 <= i < |fences| ==>
             (Missed(fences[i], covers[i], from, to) <==>
              Verdict(fences[i], from, to).Some? && CellOf(to) !in covers[i]);
  }

  /** For fences that are indexed wherever they hold a point, only exits can be missed. */
  lemma OnlyExitsMissed(id: UInt32, fences: seq<Fence>, covers: seq<seq<UInt8>>, from: Option<Point>, to: Point)
    requires |covers| == |fences|
    requires forall i :: 0 <= i < |fences| ==> IndexedWhereItHolds(fences[i], covers[i], to)
    ensures Scan(id, Near(fences, covers, CellOf(to)), from, to) == Scan(id, fences, from, to) <==>
            forall i :: 0 <= i < |fences| ==> !MissedExit(fences[i], covers[i], from, to)
  {
    hide CellOf;
    EvaluateMatchesFullScan(id, fences, covers, from, to);
    forall i | 0 <= i < |fences|
      ensures Missed(fences[i], covers[i], from, to) <==> MissedExit(fences[i], covers[i], from, to)
    {
      assert IndexedWhereItHolds(fences[i], covers[i], to);
    }
  }

  /** Such fences miss nothing of a move within one cell. */
  lemma SameCellMatchesFullScan(id: UInt32, fences: seq<Fence>, covers: seq<seq<UInt8>>, from: Point, to: Point)
    requires |covers| == |fences|
    requires forall i :: 0 <= i < |fences| ==>
               IndexedWhereItHolds(fences[i], covers[i], from) && IndexedWhereItHolds(fences[i], covers[i], to)
    requires CellOf(from) == CellOf(to)
    ensures Scan(id, Near(fences, covers, CellOf(to)), Some(from), to) == Scan(id, fences, Some(from), to)
  {
    hide CellOf;
    EvaluateMatchesFullScan(id, fences, covers, Some(from), to);
    forall i | 0 <= i < |fences| && Verdict(fences[i], Some(from), to).Some? ensures CellOf(to) in covers[i] {
      assert IndexedWhereItHolds(fences[i], covers[i], from) && IndexedWhereItHolds(fences[i], covers[i], to);
    }
  }

  /** An exit that the evaluator does not report: leaving a small fence for a far cell. */
  lemma ExitMissed()
    ensures
      var f := Fence("f", (lat: real, lng: real) => 0.0 <= lat < 1.0 && 0.0 <= lng < 1.0, 0.5, 0.5, 1000.0);
      var cover := Cells.Cover(Cells.BoxAround(0.5, 0.5, 1000.0, 1.0));
      var from, to := Point(0.5, 0.5), Point(50.0, 0.5);
      && IndexedWhereItHolds(f, cover, from) && IndexedWhereItHolds(f, cover, to)
      && Verdict(f, Some(from), to) == Some(Exit)
      && Scan(7, Near([f], [cover], CellOf(to)), Some(from), to) == []
  {
    var f := Fence("f", (lat: real, lng: real) => 0.0 <= lat < 1.0 && 0.0 <= lng < 1.0, 0.5, 0.5, 1000.0);
    var b := Cells.BoxAround(0.5, 0.5, 1000.0, 1.0);
    var to := Point(50.0, 0.5);
    assert b.FirstRow() == 8 && b.LastRow() == 8;
    assert b.FirstColumn() == 8 && b.LastColumn() == 8;
    Cells.CoverFinds(b, CellOf(Point(0.5, 0.5)));
    Cells.CoverFinds(b, CellOf(to));
    assert CellOf(Point(0.5, 0.5)) == Cells.Key(8, 8);
    NearScanIsIndexedScan(7, [f], [Cells.Cover(b)], CellOf(to), Some(Point(0.5, 0.5)), to);
  }

  /** An enter that the evaluator does not report: the box of a circle is a little narrower than the circle, as it
      takes a degree for 111320 m. dist gives 27809.85 m for the two points, the great-circle distance on a sphere
      of radius 6371000 m; the box around (11, 0.5) with radius 27815 m ends below latitude 11.25. */
  lemma EnterMissed(dist: (real, real, real, real) -> real, cosLat: real)
    requires dist(11.0, 0.5, 11.2501, 0.5) <= 27815.0 && 0.9 <= cosLat <= 1.0
    ensures
      var f := Circle("f", 11.0, 0.5, 27815.0, dist);
      var cover := Cells.Cover(Cells.BoxAround(f.centerLat, f.centerLng, f.boundingRadius, cosLat));
      var to := Point(11.2501, 0.5);
      && !IndexedWhereItHolds(f, cover, to)
      && Verdict(f, None, to) == Some(Enter)
      && Scan(7, Near([f], [cover], CellOf(to)), None, to) == []
  {
    var f := Circle("f", 11.0, 0.5, 27815.0, dist);
    var b := Cells.BoxAround(11.0, 0.5, 27815.0, cosLat);
    var to := Point(11.2501, 0.5);
    assert b.FirstRow() == 8 && b.LastRow() == 8;
    assert CellOf(to) == Cells.Key(9, 8);
    Cells.CoverFinds(b, CellOf(to));
    assert forall j :: Cells.Key(8, j) != Cells.Key(9, 8);
    NearScanIsIndexedScan(7, [f], [Cells.Cover(b)], CellOf(to), None, to);
  }

  // ----- whole runs -----

  function Before(ps: seq<Point>): Option<Point> {
    if ps == [] then None else Some(ps[|ps| - 1])
  }

  /** All events of an entity that starts without a position and visits ps. */
  function RunEvents(id: UInt32, fences: seq<Fence>, covers: seq<seq<UInt8>>, ps: seq<Point>): seq<FenceEvent>
    requires |covers| == |fences|
  {
    if ps == [] then []
    else
      var n := |ps| - 1;
      RunEvents(id, fences, covers, ps[..n]) + Scan(id, Near(fences, covers, CellOf(ps[n])), Before(ps[..n]), ps[n])
  }

  /** The verdict as the fence's index lets it be seen. */
  function VerdictTypes(f: Fence, indexed: bool, from: Option<Point>, to: Point): seq<EventType> {
    match Verdict(f, from, to)
    case None => []
    case Some(t) => if indexed then [t] else []
  }

  /** What the run means for one fence: its verdicts at the cells where it is indexed. */
  function FenceRun(f: Fence, cover: seq<UInt8>, ps: seq<Point>): seq<EventType> {
    if ps == [] then []
    else
      var n := |ps| - 1;
      FenceRun(f, cover, ps[..n]) + VerdictTypes(f, CellOf(ps[n]) in cover, Before(ps[..n]), ps[n])
  }

  function Types(es: seq<FenceEvent>, name: string): seq<EventType> {
    if es == [] then []
    else Types(es[..|es| - 1], name) + if es[|es| - 1].fenceName == name then [es[|es| - 1].eventType] else []
  }

  lemma {:induction false} TypesAppend(es: seq<FenceEvent>, es': seq<FenceEvent>, name: string)
    ensures Types(es + es', name) == Types(es, name) + Types(es', name)
  {
    if es' == [] {
      assert es + es' == es;
    } else {
      var all := es + es';
      assert all[..|all| - 1] == es + es'[..|es'| - 1];
      TypesAppend(es, es'[..|es'| - 1], name);
    }
  }

  ghost predicate DistinctNames(fences: seq<Fence>) {
    forall i, j :: 0 <= i < j < |fences| ==> fences[i].name != fences[j].name
  }

  lemma TypesOfEvents(id: UInt32, f: Fence, name: string, from: Option<Point>, to: Point)
    ensures Types(EventsOf(id, f, from, to), name) == VerdictTypes(f, f.name == name, from, to)
  {
  }

  lemma {:induction false} NoTypesOfOthers(id: UInt32, fences: seq<Fence>, covers: seq<seq<UInt8>>, cell: UInt8,
          name: string, from: Option<Point>, to: Point)
    requires |covers| == |fences| && forall i :: 0 <= i < |fences| ==> fences[i].name != name
    ensures Types(ScanIndexed(id, fences, covers, cell, from, to), name) == []
  {
    assert Types([], name) == [];
    if |fences| == 0 {
    } else {
      var n := |fences| - 1;
      hide EventsOf, Verdict, Types;
      NoTypesOfOthers(id, fences[..n], covers[..n], cell, name, from, to);
      TypesOfEvents(id, fences[n], name, from, to);
      var earlier := ScanIndexed(id, fences[..n], covers[..n], cell, from, to);
      TypesAppend(earlier, EventsOf(id, fences[n], from, to), name);
      assert earlier + [] == earlier;
    }
  }

  /** The events of one move that carry a fence's name are that fence's verdict. */
  lemma {:induction false} TypesOfMove(id: UInt32, fences: seq<Fence>, covers: seq<seq<UInt8>>, i: nat, cell: UInt8,
          from: Option<Point>, to: Point)
    requires |covers| == |fences| && i < |fences| && DistinctNames(fences)
    ensures Types(ScanIndexed(id, fences, covers, cell, from, to), fences[i].name) ==
            VerdictTypes(fences[i], cell in covers[i], from, to)
  {
    hide EventsOf, Verdict, Types;
    var n, name := |fences| - 1, fences[i].name;
    TypesOfEvents(id, fences[n], name, from, to);
    var earlier := ScanIndexed(id, fences[..n], covers[..n], cell, from, to);
    TypesAppend(earlier, EventsOf(id, fences[n], from, to), name);
    assert earlier + [] == earlier;
    if i == n {
      NoTypesOfOthers(id, fences[..n], covers[..n], cell, name, from, to);
    } else {
      TypesOfMove(id, fences[..n], covers[..n], i, cell, from, to);
    }
  }

  /** The events of a whole run that carry a fence's name are that fence's own run. */
  lemma {:induction false} TypesOfRun(id: UInt32, fences: seq<Fence>, covers: seq<seq<UInt8>>, ps: seq<Point>, i: nat)
    requires |covers| == |fences| && i < |fences| && DistinctNames(fences)
    ensures Types(RunEvents(id, fences, covers, ps), fences[i].name) == FenceRun(fences[i], covers[i], ps)
  {
    hide CellOf;
    if ps == [] {
    } else {
      var n := |ps| - 1;
      TypesOfRun(id, fences, covers, ps[..n], i);
      var cell, from := CellOf(ps[n]), Before(ps[..n]);
      var events := Scan(id, Near(fences, covers, cell), from, ps[n]);
      TypesAppend(RunEvents(id, fences, covers, ps[..n]), events, fences[i].name);
      NearScanIsIndexedScan(id, fences, covers, cell, from, ps[n]);
      TypesOfMove(id, fences, covers, i, cell, from, ps[n]);
    }
  }

  function Count(es: seq<EventType>, t: EventType): (n: nat)
    ensures n <= |es|
  {
    if es == [] then 0 else Count(es[..|es| - 1], t) + if es[|es| - 1] == t then 1 else 0
  }

  /** How many moves of the run left the fence for a cell where it is not indexed, and entered it in such a cell. */
  ghost function MissedExits(f: Fence, cover: seq<UInt8>, ps: seq<Point>): nat {
    if ps == [] then 0
    else
      var n := |ps| - 1;
      MissedExits(f, cover, ps[..n]) + if MissedExit(f, cover, Before(ps[..n]), ps[n]) then 1 else 0
  }

  ghost function MissedEnters(f: Fence, cover: seq<UInt8>, ps: seq<Point>): nat {
    if ps == [] then 0
    else
      var n := |ps| - 1;
      MissedEnters(f, cover, ps[..n]) + if MissedEnter(f, cover, Before(ps[..n]), ps[n]) then 1 else 0
  }

  predicate InsideNow(f: Fence, ps: seq<Point>) {
    ps != [] && f.Holds(ps[|ps| - 1])
  }

  lemma CountVerdict(es: seq<EventType>, f: Fence, indexed: bool, from: Option<Point>, to: Point)
    ensures
      var es' := es + VerdictTypes(f, indexed, from, to);
      Count(es', Enter) - Count(es', Exit) == Count(es, Enter) - Count(es, Exit) +
      if !indexed then 0
      else if Verdict(f, from, to) == Some(Enter) then 1
      else if Verdict(f, from, to) == Some(Exit) then -1
      else 0
  {
    hide Verdict;
    var es' := es + VerdictTypes(f, indexed, from, to);
    if |es'| > |es| {
      assert es'[..|es|] == es;
    } else {
      assert es' == es;
    }
  }

  /** The ledger of a fence over any run: enters minus exits is one if the entity is inside now, plus the missed
      exits, minus the missed enters. */
  lemma {:induction false} LedgerBalances(f: Fence, cover: seq<UInt8>, ps: seq<Point>)
    ensures Count(FenceRun(f, cover, ps), Enter) - Count(FenceRun(f, cover, ps), Exit) ==
            (if InsideNow(f, ps) then 1 else 0) + MissedExits(f, cover, ps) - MissedEnters(f, cover, ps)
  {
    hide CellOf;
    if ps == [] {
    } else {
      var n := |ps| - 1;
      LedgerBalances(f, cover, ps[..n]);
      CountVerdict(FenceRun(f, cover, ps[..n]), f, CellOf(ps[n]) in cover, Before(ps[..n]), ps[n]);
    }
  }

  /** The reported events alternate, starting with an Enter. */
  ghost predicate Alternates(es: seq<EventType>) {
    forall k :: 0 <= k < |es| ==> es[k] == if k % 2 == 0 then Enter else Exit
  }

  /** The events alternate, and their parity tells whether the entity is inside. */
  ghost predicate Follows(f: Fence, cover: seq<UInt8>, ps: seq<Point>) {
    && Alternates(FenceRun(f, cover, ps))
    && (|FenceRun(f, cover, ps)| % 2 == 1 <==> InsideNow(f, ps))
  }

  lemma {:induction false} AlternationCount(es: seq<EventType>)
    requires Alternates(es)
    ensures Count(es, Enter) - Count(es, Exit) == |es| % 2
  {
    if es == [] {
    } else {
      AlternationCount(es[..|es| - 1]);
    }
  }

  lemma AlternatesOneMore(es: seq<EventType>, t: EventType)
    requires Alternates(es)
    ensures Alternates(es + [t]) <==> t == if |es| % 2 == 0 then Enter else Exit
    ensures es + [] == es
  {
    assert (es + [t])[|es|] == t;
  }

  lemma InsideBefore(f: Fence, ps: seq<Point>)
    ensures InsideNow(f, ps) <==> Before(ps).Some? && f.Holds(Before(ps).value)
  {
  }

  /** One more visited point keeps the events in step with the entity iff nothing about it is missed. */
  lemma OneMorePoint(f: Fence, cover: seq<UInt8>, ps: seq<Point>)
    requires ps != [] && Follows(f, cover, ps[..|ps| - 1])
    ensures Follows(f, cover, ps) <==> !Missed(f, cover, Before(ps[..|ps| - 1]), ps[|ps| - 1])
  {
    hide CellOf, Alternates, Before;
    var init, es := ps[..|ps| - 1], FenceRun(f, cover, ps[..|ps| - 1]);
    InsideBefore(f, init);
    AlternatesOneMore(es, Enter);
    AlternatesOneMore(es, Exit);
  }

  lemma NothingVisited(f: Fence, cover: seq<UInt8>)
    ensures Follows(f, cover, [])
  {
  }

  lemma MissedIsExitOrEnter(f: Fence, cover: seq<UInt8>, from: Option<Point>, to: Point)
    ensures Missed(f, cover, from, to) <==> MissedExit(f, cover, from, to) || MissedEnter(f, cover, from, to)
  {
  }

  /** After every prefix of the run the reported events alternate, starting with an Enter, and their parity tells
      whether the entity is inside, iff no exit and no enter was missed. */
  lemma {:induction false} EventsAlternate(f: Fence, cover: seq<UInt8>, ps: seq<Point>)
    ensures MissedExits(f, cover, ps) == 0 && MissedEnters(f, cover, ps) == 0 <==>
            forall n :: 0 <= n <= |ps| ==> Follows(f, cover, ps[..n])
  {
    hide CellOf, Follows, Verdict;
    if ps == [] {
      NothingVisited(f, cover);
    } else {
      var init := ps[..|ps| - 1];
      EventsAlternate(f, cover, init);
      assert forall n :: 0 <= n <= |init| ==> init[..n] == ps[..n];
      assert ps[..|ps|] == ps && init[..|init|] == init;
      if Follows(f, cover, init) {
        OneMorePoint(f, cover, ps);
      }
      MissedIsExitOrEnter(f, cover, Before(init), ps[|ps| - 1]);
    }
  }

  lemma {:induction false} NoEnterMissed(f: Fence, cover: seq<UInt8>, ps: seq<Point>)
    requires forall k :: 0 <= k < |ps| ==> IndexedWhereItHolds(f, cover, ps[k])
    ensures MissedEnters(f, cover, ps) == 0
  {
    hide CellOf;
    if ps == [] {
    } else {
      NoEnterMissed(f, cover, ps[..|ps| - 1]);
      assert IndexedWhereItHolds(f, cover, ps[|ps| - 1]);
    }
  }

  /** A fence that is indexed wherever it holds a visited point misses no enter; the end of the run then tells
      whether an exit was missed. */
  lemma EndTellsMissedExits(f: Fence, cover: seq<UInt8>, ps: seq<Point>)
    requires forall k :: 0 <= k < |ps| ==> IndexedWhereItHolds(f, cover, ps[k])
    ensures MissedEnters(f, cover, ps) == 0
    ensures MissedExits(f, cover, ps) == 0 <==> Follows(f, cover, ps)
  {
    hide CellOf;
    NoEnterMissed(f, cover, ps);
    EventsAlternate(f, cover, ps);
    LedgerBalances(f, cover, ps);
    if MissedExits(f, cover, ps) == 0 {
      assert ps[..|ps|] == ps;
    } else if Follows(f, cover, ps) {
      AlternationCount(FenceRun(f, cover, ps));
    }
  }

  lemma {:induction false} IndexedMissesNothing(f: Fence, cover: seq<UInt8>, ps: seq<Point>)
    requires forall k :: 0 <= k < |ps| ==> CellOf(ps[k]) in cover
    ensures MissedExits(f, cover, ps) == 0 && MissedEnters(f, cover, ps) == 0
  {
    hide CellOf, Verdict;
    if ps == [] {
    } else {
      IndexedMissesNothing(f, cover, ps[..|ps| - 1]);
    }
  }
}
