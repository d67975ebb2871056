/** BroadcastMulti: records grouped by cell and broadcast cell by cell in any order (pkg/fanout/engine.go). */
module Multi {
  import opened Words
  import opened Seqs
  import opened Delivery
  import opened Fanout
  import Cells
  import Coords
  import Egress
  import Grids
  import Ticks

  type Groups = map<UInt8, seq<Egress.Record>>

  type Stray = Egress.Record -> UInt8

  /** The cell of a record with finite coordinates. What the conversion of another coordinate to an integer gives
      depends on the machine: stray stands for it. */
  function CellOfRecord(r: Egress.Record, stray: Stray): UInt8 {
    if Finite(r.lat) && Finite(r.lng) then Cells.ShardKey(Value(r.lat), Value(r.lng)) else stray(r)
  }

  /** The records by cell, in their given order. */
  function Grouped(records: seq<Egress.Record>, stray: Stray): Groups
  {
    if records == [] then map[]
    else
      var r := records[|records| - 1];
      var groups := Grouped(records[..|records| - 1], stray);
      var cell := CellOfRecord(r, stray);
      groups[cell := (if cell in groups then groups[cell] else []) + [r]]
  }

  /** A group holds exactly the records of its cell. */
  lemma {:induction false} GroupedFinds(records: seq<Egress.Record>, stray: Stray, cell: UInt8, r: Egress.Record)
    ensures cell in Grouped(records, stray) && r in Grouped(records, stray)[cell] <==>
            r in records && CellOfRecord(r, stray) == cell
  {
    hide CellOfRecord;
    if records == [] {
    } else {
      GroupedFinds(records[..|records| - 1], stray, cell, r);
      assert r in records <==> r in records[..|records| - 1] || r == records[|records| - 1];
    }
  }

  /** The groups after more records of a cell. */
  function Joined(groups: Groups, cell: UInt8, rs: seq<Egress.Record>): Groups {
    if rs == [] then groups else groups[cell := (if cell in groups then groups[cell] else []) + rs]
  }

  lemma JoinedOneMore(groups: Groups, cell: UInt8, rs: seq<Egress.Record>, r: Egress.Record)
    ensures Joined(Joined(groups, cell, rs), cell, [r]) == Joined(groups, cell, rs + [r])
  {
    if rs == [] {
      assert rs + [r] == [r];
    } else {
      var before := if cell in groups then groups[cell] else [];
      assert before + rs + [r] == before + (rs + [r]);
    }
  }

  lemma GroupedOneMore(rs: seq<Egress.Record>, r: Egress.Record, stray: Stray)
    ensures Grouped(rs + [r], stray) == Joined(Grouped(rs, stray), CellOfRecord(r, stray), [r])
  {
    hide CellOfRecord;
    assert (rs + [r])[..|rs|] == rs;
  }

  /** Records of one cell join its group in order. */
  lemma {:induction false} GroupedSameCell(rs: seq<Egress.Record>, ss: seq<Egress.Record>, stray: Stray, cell: UInt8)
    requires forall r :: r in ss ==> CellOfRecord(r, stray) == cell
    ensures Grouped(rs + ss, stray) == Joined(Grouped(rs, stray), cell, ss)
  {
    hide CellOfRecord, Grouped;
    if ss == [] {
      assert rs + ss == rs;
    } else {
      var init, last := ss[..|ss| - 1], ss[|ss| - 1];
      GroupedSameCell(rs, init, stray, cell);
      assert rs + ss == rs + init + [last];
      GroupedOneMore(rs + init, last, stray);
      JoinedOneMore(Grouped(rs, stray), cell, init, last);
      assert init + [last] == ss;
    }
  }

  lemma RecordStays(id: UInt32, c: Coords.Coord, stray: Stray)
    ensures CellOfRecord(Coords.RecordOf(id, c), stray) == Coords.CellOf(c)
  {
  }

  lemma RecordsOfCell(g: Grids.Grid, cell: UInt8, records: seq<Egress.Record>, stray: Stray)
    requires Grids.WellPlaced(g) && Grids.ListsCell(records, g, cell)
    ensures forall r :: r in records ==> CellOfRecord(r, stray) == cell
  {
    hide CellOfRecord, Coords.CellOf, Coords.RecordOf, Grids.In, Grids.At;
    forall r | r in records ensures CellOfRecord(r, stray) == cell {
      RecordStays(r.entityId, Grids.At(g, cell, r.entityId), stray);
    }
  }

  lemma NothingGrouped(stray: Stray)
    ensures Grouped([], stray) == map[]
  {
  }

  /** Grouping undoes the listing of a well-placed grid cell by cell: each cell that holds something gets back exactly
      its own list. */
  lemma {:induction false} GroupedListing(g: Grids.Grid, listing: Ticks.Listing, n: nat, stray: Stray, cell: UInt8)
    requires n <= 256 && Grids.WellPlaced(g) && forall c: UInt8 :: Grids.ListsCell(listing[c], g, c)
    ensures
      var groups := Grouped(Ticks.Flatten(listing, n), stray);
      && (cell in groups <==> cell < n && listing[cell] != [])
      && (cell in groups ==> groups[cell] == listing[cell])
  {
    hide Grouped, Grids.WellPlaced, Grids.ListsCell, CellOfRecord;
    if n == 0 {
      assert Grouped([], stray) == map[] by { NothingGrouped(stray); }
    } else {
      var c: UInt8 := n - 1;
      GroupedListing(g, listing, n - 1, stray, cell);
      GroupedListing(g, listing, n - 1, stray, c);
      RecordsOfCell(g, c, listing[c], stray);
      GroupedSameCell(Ticks.Flatten(listing, n - 1), listing[c], stray, c);
    }
  }

  /** The cells in which the subscription takes the group. */
  ghost function TakenCells(sub: Sub, groups: Groups): set<UInt8> {
    set c | c in groups && Takes(sub, Batch(c, groups[c]))
  }

  /** The batches go through the groups, each once. */
  ghost predicate Enumerates(bs: seq<Batch>, groups: Groups) {
    && (forall i :: 0 <= i < |bs| ==> bs[i].cell in groups && bs[i].records == groups[bs[i].cell])
    && (forall i, j :: 0 <= i < j < |bs| ==> bs[i].cell != bs[j].cell)
    && (forall c :: c in groups ==> exists i :: 0 <= i < |bs| && bs[i].cell == c)
  }

  lemma NoGroups(groups: Groups)
    requires forall c: UInt8 :: c !in groups
    ensures groups.Keys == {}
  {
  }

  lemma TakenCellsSplit(sub: Sub, groups: Groups, b: Batch)
    requires b.cell in groups && groups[b.cell] == b.records
    ensures |TakenCells(sub, groups)| == |TakenCells(sub, groups - {b.cell})| + if Takes(sub, b) then 1 else 0
  {
    hide Takes;
    var rest: Groups := groups - {b.cell};
    assert b == Batch(b.cell, groups[b.cell]);
    if Takes(sub, b) {
      assert TakenCells(sub, groups) == TakenCells(sub, rest) + {b.cell};
    } else {
      assert TakenCells(sub, groups) == TakenCells(sub, rest);
    }
  }

  /** The number of frames a subscription is offered does not depend on the order of the groups. */
  lemma {:induction false} FramesCount(sub: Sub, bs: seq<Batch>, groups: Groups)
    requires Enumerates(bs, groups)
    ensures |FramesFor(sub, bs)| == |TakenCells(sub, groups)|
  {
    hide Takes;
    if bs == [] {
      NoGroups(groups);
      assert TakenCells(sub, groups) == {};
    } else {
      var init, b := bs[..|bs| - 1], bs[|bs| - 1];
      var rest: Groups := groups - {b.cell};
      forall c | c in rest ensures exists i :: 0 <= i < |init| && init[i].cell == c {
        var i :| 0 <= i < |bs| && bs[i].cell == c;
        assert init[i].cell == c;
      }
      FramesCount(sub, init, rest);
      TakenCellsSplit(sub, groups, b);
    }
  }

  /** Sums over the subscribers of the lesser of the free slots and the cells they take, and of the rest. */
  ghost function GroupRoom(s: State, ids: seq<SubscriberId>, groups: Groups): nat
    requires Known(s, ids) && forall id :: id in ids ==> |s.queues[id]| <= QUEUE_SIZE
  {
    if ids == [] then 0
    else
      var id := ids[|ids| - 1];
      GroupRoom(s, ids[..|ids| - 1], groups) + Min(Free(s.queues[id]), |TakenCells(s.subs[id], groups)|)
  }

  ghost function GroupExcess(s: State, ids: seq<SubscriberId>, groups: Groups): nat
    requires Known(s, ids) && forall id :: id in ids ==> |s.queues[id]| <= QUEUE_SIZE
  {
    if ids == [] then 0
    else
      var id := ids[|ids| - 1];
      var n := |TakenCells(s.subs[id], groups)|;
      GroupExcess(s, ids[..|ids| - 1], groups) + (n - Min(Free(s.queues[id]), n))
  }

  lemma {:induction false} GroupSums(s: State, ids: seq<SubscriberId>, bs: seq<Batch>, groups: Groups)
    requires Known(s, ids) && (forall id :: id in ids ==> |s.queues[id]| <= QUEUE_SIZE) && Enumerates(bs, groups)
    ensures RoomSum(s, ids, bs) == GroupRoom(s, ids, groups)
    ensures ExcessSum(s, ids, bs) == GroupExcess(s, ids, groups)
  {
    hide Enumerates, TakenCells, FramesFor;
    if ids == [] {
    } else {
      GroupSums(s, ids[..|ids| - 1], bs, groups);
      FramesCount(s.subs[ids[|ids| - 1]], bs, groups);
    }
  }

  /** Any order of the groups gives the same totals. */
  lemma OrderDoesNotMatter(s: State, bs: seq<Batch>, groups: Groups)
    requires WellFormed(s) && Enumerates(bs, groups)
    ensures SentAll(s, bs) == GroupRoom(s, s.live, groups)
    ensures BroadcastedAll(s, bs).dropped == s.dropped + GroupExcess(s, s.live, groups)
  {
    hide Enumerates, NoDuplicates, SentAll, BroadcastedAll, GroupRoom, GroupExcess, RoomSum, ExcessSum;
    BroadcastAccounting(s, bs);
    GroupSums(s, s.live, bs, groups);
  }

  method Group(records: seq<Egress.Record>, stray: Stray) returns (cellRecords: Groups)
    ensures cellRecords == Grouped(records, stray)
  {
    hide CellOfRecord;
    cellRecords := map[];
    var i := 0;
    while i < |records|
      invariant 0 <= i <= |records|
      invariant cellRecords == Grouped(records[..i], stray)
    {
      assert records[..i + 1][..i] == records[..i];
      var cell := CellOfRecord(records[i], stray);
      cellRecords := cellRecords[cell := (if cell in cellRecords then cellRecords[cell] else []) + [records[i]]];
      i := i + 1;
    }
    assert records[..i] == records;
  }

  /** The batches go through the groups outside rest, each once. */
  ghost predicate Visited(bs: seq<Batch>, groups: Groups, rest: set<UInt8>) {
    && (forall i :: 0 <= i < |bs| ==>
          bs[i].cell in groups && bs[i].cell !in rest && bs[i].records == groups[bs[i].cell])
    && (forall i, j :: 0 <= i < j < |bs| ==> bs[i].cell != bs[j].cell)
    && (forall c :: c in groups && c !in rest ==> exists i :: 0 <= i < |bs| && bs[i].cell == c)
  }

  lemma VisitOne(bs: seq<Batch>, groups: Groups, rest: set<UInt8>, cell: UInt8)
    requires Visited(bs, groups, rest) && cell in rest && cell in groups
    ensures Visited(bs + [Batch(cell, groups[cell])], groups, rest - {cell})
  {
    var bs' := bs + [Batch(cell, groups[cell])];
    forall c | c in groups && c !in rest - {cell} ensures exists i :: 0 <= i < |bs'| && bs'[i].cell == c {
      if c == cell {
        assert bs'[|bs|].cell == c;
      } else {
        var i :| 0 <= i < |bs| && bs[i].cell == c;
        assert bs'[i].cell == c;
      }
    }
  }

  lemma AllVisited(bs: seq<Batch>, groups: Groups)
    requires Visited(bs, groups, {})
    ensures Enumerates(bs, groups)
  {
  }

  method BroadcastMulti(e: FanoutEngine, records: seq<Egress.Record>, stray: Stray)
    returns (total: nat, ghost bs: seq<Batch>)
    requires e.Valid()
    modifies e`droppedFrames, e.channels`chans
    ensures e.Valid() && Enumerates(bs, Grouped(records, stray))
    ensures e.AsState() == BroadcastedAll(old(e.AsState()), bs)
    ensures total == GroupRoom(old(e.AsState()), old(e.live), Grouped(records, stray))
    ensures e.droppedFrames ==
            old(e.droppedFrames) + GroupExcess(old(e.AsState()), old(e.live), Grouped(records, stray))
  {
    var cellRecords := Group(records, stray);
    ghost var s := e.AsState();
    total := 0;
    bs := [];
    var rest := cellRecords.Keys;
    while rest != {}
      invariant rest <= cellRecords.Keys
      invariant e.Valid() && e.AsState() == BroadcastedAll(s, bs)
      invariant total == SentAll(s, bs)
      invariant Visited(bs, cellRecords, rest)
      decreases rest
    {
      hide NoDuplicates, Visited, Broadcasted, SentSum, FanoutEngine.IndexValid;
      var cell: UInt8 :| cell in rest;
      ghost var b := Batch(cell, cellRecords[cell]);
      VisitOne(bs, cellRecords, rest, cell);
      assert (bs + [b])[..|bs|] == bs;
      var sent := e.Broadcast(cell, cellRecords[cell]);
      total := total + sent;
      bs := bs + [b];
      rest := rest - {cell};
    }
    AllVisited(bs, cellRecords);
    OrderDoesNotMatter(s, bs, cellRecords);
  }
}
