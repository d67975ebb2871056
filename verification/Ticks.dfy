/** One broadcast tick, end to end: from the last positions to the bytes on a subscriber's queue
    (pkg/engine/pipeline.go, pkg/spatial/grid.go, pkg/fanout/engine.go, pkg/binary/egress.go). */
module Ticks {
  import opened Words
  import opened Seqs
  import opened Coords
  import opened Grids
  import opened Delivery
  import opened GridQueries
  import Egress

  /** What a tick reads of each cell. */
  type Listing = l: seq<seq<Egress.Record>> | |l| == CELLS witness seq(CELLS, _ => [])

  /** The batches of the first n cells. */
  function Batches(listing: Listing, n: nat): (bs: seq<Batch>)
    requires n <= CELLS
    ensures |bs| == n
  {
    if n == 0 then [] else Batches(listing, n - 1) + [Batch(n - 1, listing[n - 1])]
  }

  /** A tick may skip the cells that nobody subscribed to. */
  ghost predicate ListsSubscribed(listing: Listing, g: Grid, subs: map<SubscriberId, Sub>) {
    forall id, c: UInt8 :: id in subs && c in subs[id].cells ==> ListsCell(listing[c], g, c)
  }

  /** What the frames decode to, one after the other. */
  function DecodeAll(frames: seq<Frame>): seq<Egress.Record> {
    if frames == [] then []
    else
      DecodeAll(frames[..|frames| - 1]) +
      match Egress.Decode(frames[|frames| - 1])
      case Ok(records) => records
      case WrongSize => []
  }

  /** What a subscription should hear of the first n cells. */
  function Heard(sub: Sub, listing: Listing, n: nat): seq<Egress.Record>
    requires n <= CELLS
  {
    if n == 0 then []
    else
      var c: UInt8 := n - 1;
      Heard(sub, listing, n - 1) + if c in sub.cells then Wanted(sub, listing[c]) else []
  }

  /** The last positions that a subscription covers and wants. */
  function Visible(last: Positions, sub: Sub): Positions {
    map e | e in last && CellOf(last[e]) in sub.cells && sub.Wants(e) :: last[e]
  }

  lemma DecodeOneMore(frames: seq<Frame>, records: seq<Egress.Record>)
    ensures DecodeAll(frames + [Egress.Encode(records)]) == DecodeAll(frames) + records
    ensures DecodeAll(frames + []) == DecodeAll(frames) + []
  {
    hide Egress.Decode, Egress.Encode;
    Egress.DecodeEncode(records);
    assert (frames + [Egress.Encode(records)])[..|frames|] == frames;
    assert frames + [] == frames;
  }

  lemma {:induction false} DecodeFrames(sub: Sub, listing: Listing, n: nat)
    requires n <= CELLS
    ensures DecodeAll(FramesFor(sub, Batches(listing, n))) == Heard(sub, listing, n)
  {
    hide Egress.Decode, Wanted, Egress.Encode;
    if n == 0 {
    } else {
      DecodeFrames(sub, listing, n - 1);
      var bs := Batches(listing, n);
      assert bs[..|bs| - 1] == Batches(listing, n - 1);
      DecodeOneMore(FramesFor(sub, Batches(listing, n - 1)), Wanted(sub, listing[n - 1]));
    }
  }

  /** The frame has the size of some records, at least one. */
  predicate HoldsRecords(frame: Frame) {
    match Egress.Decode(frame)
    case Ok(records) => records != []
    case WrongSize => false
  }

  /** No frame is empty or of the wrong size. */
  lemma {:induction false} FramesWellFormed(sub: Sub, bs: seq<Batch>, k: nat)
    requires k < |FramesFor(sub, bs)|
    ensures HoldsRecords(FramesFor(sub, bs)[k])
  {
    hide Egress.Decode, Egress.Encode, Wanted;
    var b := bs[|bs| - 1];
    if k == |FramesFor(sub, bs[..|bs| - 1])| {
      Egress.DecodeEncode(Wanted(sub, b.records));
    } else {
      FramesWellFormed(sub, bs[..|bs| - 1], k);
    }
  }

  ghost function CellsBelow(sub: Sub, n: nat): set<UInt8> {
    set c | c in sub.cells && c < n
  }

  /** At most one frame per cell of the subscription. */
  lemma {:induction false} FramesPerCell(sub: Sub, listing: Listing, n: nat)
    requires n <= CELLS
    ensures |FramesFor(sub, Batches(listing, n))| <= |CellsBelow(sub, n)|
  {
    hide Wanted;
    if n == 0 {
    } else {
      FramesPerCell(sub, listing, n - 1);
      var bs := Batches(listing, n);
      assert bs[..|bs| - 1] == Batches(listing, n - 1);
      var c: UInt8 := n - 1;
      if c in sub.cells {
        assert CellsBelow(sub, n) == CellsBelow(sub, n - 1) + {c};
      } else {
        assert CellsBelow(sub, n) == CellsBelow(sub, n - 1);
        assert !Takes(sub, bs[|bs| - 1]);
      }
    }
  }

  ghost function Elements(s: seq<UInt8>): set<UInt8> {
    set c | c in s
  }

  lemma {:induction false} ElementsBound(s: seq<UInt8>)
    ensures |Elements(s)| <= |s|
  {
    if s == [] {
      assert Elements(s) == {};
    } else {
      var init, last := s[..|s| - 1], s[|s| - 1];
      ElementsBound(init);
      assert Elements(s) == Elements(init) + {last};
      assert |Elements(init) + {last}| <= |Elements(init)| + |{last}|;
    }
  }

  lemma FramesBound(sub: Sub, listing: Listing)
    ensures |FramesFor(sub, Batches(listing, CELLS))| <= |sub.cells|
  {
    FramesPerCell(sub, listing, CELLS);
    ElementsBound(sub.cells);
    assert CellsBelow(sub, CELLS) == Elements(sub.cells);
  }

  ghost predicate DistinctIds(records: seq<Egress.Record>) {
    forall i, j :: 0 <= i < j < |records| ==> records[i].entityId != records[j].entityId
  }

  /** Wanted keeps exactly the wanted records, and keeps them distinct. */
  lemma {:induction false} WantedFinds(sub: Sub, records: seq<Egress.Record>)
    ensures forall r :: r in Wanted(sub, records) <==> r in records && sub.Wants(r.entityId)
    ensures DistinctIds(records) ==> DistinctIds(Wanted(sub, records))
  {
    if records == [] {
    } else {
      var init, last := records[..|records| - 1], records[|records| - 1];
      WantedFinds(sub, init);
      assert records == init + [last];
    }
  }

  /** The record reports the last position of a visible entity, in one of the first n cells. */
  ghost predicate ReportsVisible(last: Positions, sub: Sub, n: nat, r: Egress.Record) {
    var e := r.entityId;
    e in last && CellOf(last[e]) in sub.cells && sub.Wants(e) && CellOf(last[e]) < n && r == RecordOf(e, last[e])
  }

  lemma NoneDistinct()
    ensures DistinctIds([])
  {
  }

  lemma ListedOfCell(last: Positions, c: UInt8, records: seq<Egress.Record>)
    requires Lists(records, PositionsIn(last, c))
    ensures DistinctIds(records)
    ensures forall r :: r in records <==>
            r.entityId in last && CellOf(last[r.entityId]) == c && r == RecordOf(r.entityId, last[r.entityId])
  {
    hide CellOf;
    var m := PositionsIn(last, c);
    forall r ensures r in records <==> r.entityId in m && r == RecordOf(r.entityId, m[r.entityId]) {
      if r.entityId in m {
        assert RecordOf(r.entityId, m[r.entityId]) in records;
      }
    }
  }

  lemma DistinctAppend(rs: seq<Egress.Record>, rs': seq<Egress.Record>)
    requires DistinctIds(rs) && DistinctIds(rs')
    requires forall r, r' :: r in rs && r' in rs' ==> r.entityId != r'.entityId
    ensures DistinctIds(rs + rs')
  {
  }

  lemma {:induction false} HeardFinds(last: Positions, sub: Sub, listing: Listing, n: nat)
    requires n <= CELLS && forall c: UInt8 :: c in sub.cells ==> Lists(listing[c], PositionsIn(last, c))
    ensures DistinctIds(Heard(sub, listing, n))
    ensures forall r :: r in Heard(sub, listing, n) <==> ReportsVisible(last, sub, n, r)
  {
    hide CellOf, Wanted, Sub.Wants, DistinctIds;
    if n == 0 {
      NoneDistinct();
    } else {
      var c: UInt8 := n - 1;
      HeardFinds(last, sub, listing, n - 1);
      WantedFinds(sub, listing[c]);
      if c in sub.cells {
        ListedOfCell(last, c, listing[c]);
        DistinctAppend(Heard(sub, listing, n - 1), Wanted(sub, listing[c]));
      } else {
        assert Heard(sub, listing, n) == Heard(sub, listing, n - 1);
      }
    }
  }

  lemma DistinctLists(records: seq<Egress.Record>, m: Positions)
    requires DistinctIds(records)
    requires forall r :: r in records <==> r.entityId in m && r == RecordOf(r.entityId, m[r.entityId])
    ensures Lists(records, m)
  {
    forall id | id in m ensures exists i :: 0 <= i < |records| && records[i].entityId == id {
      assert RecordOf(id, m[id]) in records;
    }
    ListLength(records, m);
  }

  /** What the tick's frames say to a subscription is exactly the visible last positions, each once. */
  lemma HeardIsVisible(g: Grid, last: Positions, subs: map<SubscriberId, Sub>, id: SubscriberId, listing: Listing)
    requires Agrees(g, last) && id in subs && ListsSubscribed(listing, g, subs)
    ensures Lists(Heard(subs[id], listing, CELLS), Visible(last, subs[id]))
  {
    hide CellOf, Agrees, Lists, ListsCell, Sub.Wants, Heard;
    var sub := subs[id];
    forall c: UInt8 | c in sub.cells ensures Lists(listing[c], PositionsIn(last, c)) {
      RecordsAgree(g, last, c, listing[c]);
    }
    HeardFinds(last, sub, listing, CELLS);
    DistinctLists(Heard(sub, listing, CELLS), Visible(last, sub));
  }

  /** End to end: on a grid that agrees with the last positions, a tick appends to a subscriber's queue, as far as
      there is room, frames that decode to exactly the last positions of the entities that the subscription covers
      and wants, each once; all of them arrive iff there are enough free slots, for which one per cell suffices. */
  lemma TickDelivers(s: State, g: Grid, last: Positions, listing: Listing, id: SubscriberId)
    requires WellFormed(s) && id in s.subs && Agrees(g, last) && ListsSubscribed(listing, g, s.subs)
    ensures
      var sub, queue := s.subs[id], s.queues[id];
      var frames := FramesFor(sub, Batches(listing, CELLS));
      var queue' := BroadcastedAll(s, Batches(listing, CELLS)).queues[id];
      && Lists(DecodeAll(frames), Visible(last, sub))
      && queue' == Received(queue, frames)
      && (queue' == queue + frames <==> |frames| <= Free(queue))
      && |frames| <= |sub.cells|
      && forall k :: 0 <= k < |frames| ==> HoldsRecords(frames[k])
  {
    hide Lists, Agrees, ListsSubscribed, Batches, FramesFor, Heard, DecodeAll, NoDuplicates, BroadcastedAll,
         Visible, CellOf, HoldsRecords;
    var sub, queue := s.subs[id], s.queues[id];
    var frames := FramesFor(sub, Batches(listing, CELLS));
    HeardIsVisible(g, last, s.subs, id, listing);
    DecodeFrames(sub, listing, CELLS);
    FramesBound(sub, listing);
    QueueAfterAll(s, Batches(listing, CELLS), id);
    assert |frames| <= Free(queue) ==> frames[..|frames|] == frames;
    forall k | 0 <= k < |frames| ensures HoldsRecords(frames[k]) {
      FramesWellFormed(sub, Batches(listing, CELLS), k);
    }
  }

  lemma {:induction false} NobodyDrops(s: State, ids: seq<SubscriberId>, b: Batch)
    requires Known(s, ids) && forall id :: id in s.subs ==> !Takes(s.subs[id], b)
    ensures DroppedSum(s, ids, b) == 0
  {
    hide Takes;
    if ids == [] {
    } else {
      NobodyDrops(s, ids[..|ids| - 1], b);
    }
  }

  /** A batch that nobody takes changes nothing. */
  lemma NobodyTakes(s: State, b: Batch)
    requires WellFormed(s) && forall id :: id in s.subs ==> !Takes(s.subs[id], b)
    ensures Broadcasted(s, b) == s
  {
    hide Takes, NoDuplicates;
    NobodyDrops(s, s.live, b);
  }

  lemma {:induction false} BatchesPrefix(listing: Listing, cell: UInt8, records: seq<Egress.Record>, n: nat)
    requires n <= cell
    ensures Batches(listing[cell := records], n) == Batches(listing, n)
  {
    if n == 0 {
    } else {
      BatchesPrefix(listing, cell, records, n - 1);
    }
  }

  /** The queue has grown by well-formed frames, none of them empty, that together decode to the visible positions, as
      far as there was room for them. */
  ghost predicate Delivered(queue: seq<Frame>, queue': seq<Frame>, last: Positions, sub: Sub)
    requires |queue| <= QUEUE_SIZE
  {
    exists frames: seq<Frame> ::
      && Lists(DecodeAll(frames), Visible(last, sub))
      && |frames| <= |sub.cells|
      && (forall k :: 0 <= k < |frames| ==> HoldsRecords(frames[k]))
      && queue' == Received(queue, frames)
  }

  lemma AllDelivered(s: State, g: Grid, last: Positions, listing: Listing)
    requires WellFormed(s) && Agrees(g, last) && ListsSubscribed(listing, g, s.subs)
    ensures forall id :: id in s.subs ==>
              Delivered(s.queues[id], BroadcastedAll(s, Batches(listing, CELLS)).queues[id], last, s.subs[id])
  {
    hide Lists, Agrees, ListsSubscribed, Batches, FramesFor, DecodeAll, NoDuplicates, BroadcastedAll, Visible;
    forall id | id in s.subs
      ensures Delivered(s.queues[id], BroadcastedAll(s, Batches(listing, CELLS)).queues[id], last, s.subs[id])
    {
      TickDelivers(s, g, last, listing, id);
    }
  }

  // ----- the cells partition the positions -----

  function Flatten(listing: Listing, n: nat): seq<Egress.Record>
    requires n <= CELLS
  {
    if n == 0 then [] else Flatten(listing, n - 1) + listing[n - 1]
  }

  lemma {:induction false} FlattenFinds(last: Positions, listing: Listing, n: nat)
    requires n <= CELLS && forall c: UInt8 :: Lists(listing[c], PositionsIn(last, c))
    ensures DistinctIds(Flatten(listing, n))
    ensures forall r :: r in Flatten(listing, n) <==>
                        r.entityId in last && CellOf(last[r.entityId]) < n &&
                        r == RecordOf(r.entityId, last[r.entityId])
  {
    hide CellOf, DistinctIds, Lists;
    if n == 0 {
      NoneDistinct();
    } else {
      var c: UInt8 := n - 1;
      FlattenFinds(last, listing, n - 1);
      ListedOfCell(last, c, listing[c]);
      DistinctAppend(Flatten(listing, n - 1), listing[c]);
    }
  }

  /** The records of the 256 cells together list every entity of the reference map exactly once. */
  lemma CellsPartition(g: Grid, last: Positions, listing: Listing)
    requires Agrees(g, last) && forall c: UInt8 :: ListsCell(listing[c], g, c)
    ensures Lists(Flatten(listing, CELLS), last)
  {
    hide CellOf, Agrees, Lists, ListsCell;
    forall c: UInt8 ensures Lists(listing[c], PositionsIn(last, c)) {
      RecordsAgree(g, last, c, listing[c]);
    }
    FlattenFinds(last, listing, CELLS);
    DistinctLists(Flatten(listing, CELLS), last);
  }
}
