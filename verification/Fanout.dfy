/** The fanout engine on the heap (pkg/fanout/engine.go, subscription.go, channel.go). */
module Fanout {
  import opened Words
  import opened Seqs
  import opened Delivery
  import CellIndex
  import Cells
  import Egress

  /** The buffered channels by subscriber; a channel is the queue of frames that wait in it. */
  class ChannelManager {
    var chans: map<SubscriberId, seq<Frame>>
    var closed: seq<(SubscriberId, seq<Frame>)>  // with the frames that a reader still finds in them

    constructor ()
      ensures chans == map[] && closed == []
    {
      chans, closed := map[], [];
    }

    /** A channel that the subscriber has already is dropped without being closed. */
    method Create(id: SubscriberId)
      modifies this`chans
      ensures chans == old(chans)[id := []]
    {
      chans := chans[id := []];
    }

    method Get(id: SubscriberId) returns (ch: Option<seq<Frame>>)
      ensures ch == if id in chans then Some(chans[id]) else None
    {
      if id in chans {
        return Some(chans[id]);
      }
      return None;
    }

    /** select { case ch <- frame: ...; default: ... } */
    method TrySend(id: SubscriberId, frame: Frame) returns (sent: bool)
      requires id in chans
      modifies this`chans
      ensures chans == old(chans)[id := Send(old(chans)[id], frame)]
      ensures sent <==> |old(chans)[id]| < QUEUE_SIZE
    {
      sent := |chans[id]| < QUEUE_SIZE;
      if sent {
        chans := chans[id := chans[id] + [frame]];
      } else {
        assert chans[id := chans[id]] == chans;
      }
    }

    /** The reader at the other end takes the first frame, if one waits. */
    method Receive(id: SubscriberId) returns (frame: Option<Frame>)
      modifies this`chans
      ensures
        if id in old(chans) && old(chans)[id] != []
        then frame == Some(old(chans)[id][0]) && chans == old(chans)[id := old(chans)[id][1..]]
        else frame == None && chans == old(chans)
    {
      if id in chans && chans[id] != [] {
        frame := Some(chans[id][0]);
        chans := chans[id := chans[id][1..]];
      } else {
        frame := None;
      }
    }

    /** Closes the channel of a known subscriber; removing an unknown one does nothing. */
    method Remove(id: SubscriberId)
      modifies this
      ensures chans == old(chans) - {id}
      ensures closed == old(closed) + if id in old(chans) then [(id, old(chans)[id])] else []
    {
      if id in chans {
        closed := closed + [(id, chans[id])];
        chans := chans - {id};
      }
    }

    method Count() returns (n: nat)
      ensures n == |chans|
    {
      n := |chans|;
    }
  }

  // ----- the cell index -----

  /** The live subscribers that cover the cell, in order of arrival. */
  function Covering(live: seq<SubscriberId>, subs: map<SubscriberId, Sub>, cell: UInt8): (r: seq<SubscriberId>)
    ensures forall i :: 0 <= i < |r| ==> r[i] in subs && cell in subs[r[i]].cells
  {
    if live == [] then []
    else
      var last := live[|live| - 1];
      Covering(live[..|live| - 1], subs, cell) + if last in subs && cell in subs[last].cells then [last] else []
  }

  lemma {:induction false} CoveringFinds(live: seq<SubscriberId>, subs: map<SubscriberId, Sub>, cell: UInt8)
    ensures forall id: SubscriberId :: id in Covering(live, subs, cell) <==>
            id in live && id in subs && cell in subs[id].cells
    ensures NoDuplicates(live) ==> NoDuplicates(Covering(live, subs, cell))
  {
    if live == [] {
    } else {
      CoveringFinds(live[..|live| - 1], subs, cell);
      assert forall id: SubscriberId :: id in live <==> id in live[..|live| - 1] || id == live[|live| - 1];
    }
  }

  lemma {:induction false} CoveringIgnores(live: seq<SubscriberId>, subs: map<SubscriberId, Sub>, id: SubscriberId,
          sub: Sub, cell: UInt8)
    requires id !in live
    ensures Covering(live, subs[id := sub], cell) == Covering(live, subs, cell)
  {
    if live == [] {
    } else {
      CoveringIgnores(live[..|live| - 1], subs, id, sub, cell);
    }
  }

  /** A new subscriber comes last in the list of each of its cells. */
  lemma CoveringAdded(live: seq<SubscriberId>, subs: map<SubscriberId, Sub>, id: SubscriberId, sub: Sub)
    requires id !in live && NoDuplicates(live)
    ensures NoDuplicates(live + [id])
    ensures forall cell: UInt8 ::
              Covering(live + [id], subs[id := sub], cell) ==
                  Covering(live, subs, cell) + if cell in sub.cells then [id] else []
  {
    forall cell: UInt8
      ensures Covering(live + [id], subs[id := sub], cell) ==
              Covering(live, subs, cell) + if cell in sub.cells then [id] else []
    {
      CoveringIgnores(live, subs, id, sub, cell);
      assert (live + [id])[..|live|] == live;
    }
  }

  /** append(s[:i], s[i+1:]...) at the first match, if there is one. */
  function RemoveFirst(s: seq<SubscriberId>, id: SubscriberId): seq<SubscriberId> {
    if s == [] then [] else if s[0] == id then s[1..] else [s[0]] + RemoveFirst(s[1..], id)
  }

  lemma {:induction false} RemoveFirstAt(s: seq<SubscriberId>, id: SubscriberId, i: nat)
    requires i <= |s| && id !in s[..i] && (i < |s| ==> s[i] == id)
    ensures RemoveFirst(s, id) == if i < |s| then s[..i] + s[i + 1..] else s
  {
    if i == 0 {
    } else {
      var rest := s[1..];
      assert rest[..i - 1] == s[1..i];
      assert forall x :: x in s[1..i] ==> x in s[..i];
      RemoveFirstAt(rest, id, i - 1);
      assert s[0] in s[..i];
      assert s[..i] == [s[0]] + s[1..i];
      assert i < |s| ==> rest[i..] == s[i + 1..];
    }
  }

  lemma {:induction false} WithoutAbsent(s: seq<SubscriberId>, id: SubscriberId)
    requires id !in s
    ensures Without(s, id) == s
  {
    if s == [] {
    } else {
      WithoutAbsent(s[..|s| - 1], id);
    }
  }

  lemma {:induction false} WithoutSplit(s: seq<SubscriberId>, id: SubscriberId, i: nat)
    requires i < |s| && s[i] == id && NoDuplicates(s)
    ensures Without(s, id) == s[..i] + s[i + 1..]
  {
    if i == |s| - 1 {
      WithoutAbsent(s[..i], id);
    } else {
      WithoutSplit(s[..|s| - 1], id, i);
    }
  }

  lemma {:induction false} RemoveFirstIsWithout(s: seq<SubscriberId>, id: SubscriberId)
    requires NoDuplicates(s)
    ensures RemoveFirst(s, id) == Without(s, id)
  {
    if id in s {
      var i :| 0 <= i < |s| && s[i] == id;
      RemoveFirstAt(s, id, i);
      WithoutSplit(s, id, i);
    } else {
      RemoveFirstAt(s, id, |s|);
      WithoutAbsent(s, id);
    }
  }

  lemma {:induction false} WithoutFinds(s: seq<SubscriberId>, id: SubscriberId)
    ensures forall x: SubscriberId :: x in Without(s, id) <==> x in s && x != id
    ensures NoDuplicates(s) ==> NoDuplicates(Without(s, id))
  {
    if s == [] {
    } else {
      WithoutFinds(s[..|s| - 1], id);
      assert NoDuplicates(s) ==> s[|s| - 1] !in s[..|s| - 1];
      assert forall x: SubscriberId :: x in s <==> x in s[..|s| - 1] || x == s[|s| - 1];
    }
  }

  lemma CoveringOneMore(live: seq<SubscriberId>, id: SubscriberId, subs: map<SubscriberId, Sub>, cell: UInt8)
    ensures Covering(live + [id], subs, cell) ==
            if id in subs && cell in subs[id].cells then Covering(live, subs, cell) + [id]
            else Covering(live, subs, cell)
  {
    assert (live + [id])[..|live|] == live;
    assert Covering(live, subs, cell) + [] == Covering(live, subs, cell);
  }

  lemma WithoutOneMore(s: seq<SubscriberId>, y: SubscriberId, x: SubscriberId)
    ensures Without(s + [y], x) == if y == x then Without(s, x) else Without(s, x) + [y]
  {
    assert (s + [y])[..|s|] == s;
    assert Without(s, x) + [] == Without(s, x);
  }

  lemma NoneCovering(subs: map<SubscriberId, Sub>, id: SubscriberId, cell: UInt8)
    ensures Covering(Without([], id), subs - {id}, cell) == Without(Covering([], subs, cell), id)
  {
  }

  /** Removing a subscriber from the list of arrivals removes it from the list of every cell. */
  lemma {:induction false} CoveringWithout(live: seq<SubscriberId>, subs: map<SubscriberId, Sub>, id: SubscriberId,
          cell: UInt8)
    ensures Covering(Without(live, id), subs - {id}, cell) == Without(Covering(live, subs, cell), id)
  {
    hide Covering, Without;
    if live == [] {
      NoneCovering(subs, id, cell);
    } else {
      var init, last := live[..|live| - 1], live[|live| - 1];
      CoveringWithout(init, subs, id, cell);
      assert live == init + [last];
      CoveringOneMore(init, last, subs, cell);
      WithoutOneMore(init, last, id);
      WithoutOneMore(Covering(init, subs, cell), last, id);
      CoveringOneMore(Without(init, id), last, subs - {id}, cell);
    }
  }

  lemma CoveringDropped(live: seq<SubscriberId>, subs: map<SubscriberId, Sub>, id: SubscriberId)
    requires NoDuplicates(live) && id in subs
    ensures NoDuplicates(Without(live, id))
    ensures forall x: SubscriberId :: x in Without(live, id) <==> x in live && x != id
    ensures forall cell: UInt8 ::
              Covering(Without(live, id), subs - {id}, cell) ==
              if cell in subs[id].cells then RemoveFirst(Covering(live, subs, cell), id) else Covering(live, subs, cell)
  {
    WithoutFinds(live, id);
    forall cell: UInt8
      ensures Covering(Without(live, id), subs - {id}, cell) ==
              if cell in subs[id].cells then RemoveFirst(Covering(live, subs, cell), id) else Covering(live, subs, cell)
    {
      var ids := Covering(live, subs, cell);
      CoveringWithout(live, subs, id, cell);
      CoveringFinds(live, subs, cell);
      if cell in subs[id].cells {
        RemoveFirstIsWithout(ids, id);
      } else {
        WithoutAbsent(ids, id);
      }
    }
  }

  lemma NotTaken(sub: Sub, queue: seq<Frame>, b: Batch)
    requires b.cell !in sub.cells
    ensures SentTo(sub, queue, b) == 0 && DroppedFor(sub, queue, b) == 0 && QueueAfter(sub, queue, b) == queue
  {
  }

  lemma KnownLast(s: State, ids: seq<SubscriberId>)
    requires Known(s, ids) && ids != []
    ensures Known(s, ids[..|ids| - 1]) && ids[|ids| - 1] in s.subs && ids[|ids| - 1] in s.queues
  {
  }

  lemma SumsOneMore(s: State, ids: seq<SubscriberId>, id: SubscriberId, b: Batch)
    requires Known(s, ids) && id in s.subs && id in s.queues
    ensures Known(s, ids + [id])
    ensures SentSum(s, ids + [id], b) == SentSum(s, ids, b) + SentTo(s.subs[id], s.queues[id], b)
    ensures DroppedSum(s, ids + [id], b) == DroppedSum(s, ids, b) + DroppedFor(s.subs[id], s.queues[id], b)
  {
    hide SentTo, DroppedFor;
    assert (ids + [id])[..|ids|] == ids;
  }

  /** A sum over the subscribers of a cell is a sum over all of them: the others take nothing. */
  lemma {:induction false} CoveringSums(s: State, live: seq<SubscriberId>, b: Batch)
    requires Known(s, live)
    ensures Known(s, Covering(live, s.subs, b.cell))
    ensures SentSum(s, Covering(live, s.subs, b.cell), b) == SentSum(s, live, b)
    ensures DroppedSum(s, Covering(live, s.subs, b.cell), b) == DroppedSum(s, live, b)
  {
    hide SentTo, DroppedFor, NoDuplicates, Known, SentSum, DroppedSum;
    if live == [] {
      assert Covering(live, s.subs, b.cell) == live;
    } else {
      var init, last := live[..|live| - 1], live[|live| - 1];
      KnownLast(s, live);
      CoveringSums(s, init, b);
      assert live == init + [last];
      SumsOneMore(s, init, last, b);
      SumsOneMore(s, Covering(init, s.subs, b.cell), last, b);
      if b.cell !in s.subs[last].cells {
        assert Covering(live, s.subs, b.cell) == Covering(init, s.subs, b.cell);
        NotTaken(s.subs[last], s.queues[last], b);
      }
    }
  }

  // ----- what keeps the state well formed -----

  type Index = seq<seq<SubscriberId>>

  /** The lists of the cells are, for one order of arrival, the live subscribers that cover each cell, and the
      subscriptions and channels fit them. */
  ghost predicate InOrder(order: seq<SubscriberId>, subs: map<SubscriberId, Sub>, chans: map<SubscriberId, seq<Frame>>,
          index: Index)
  {
    && WellFormed(State(order, subs, chans, 0))
    && |index| == 256 && forall c: UInt8 :: index[c] == Covering(order, subs, c)
  }

  ghost predicate Consistent(subs: map<SubscriberId, Sub>, chans: map<SubscriberId, seq<Frame>>, index: Index) {
    exists order :: InOrder(order, subs, chans, index)
  }

  /** The index after a subscription. */
  ghost function Appended(index: Index, cells: seq<UInt8>, id: SubscriberId): Index
    requires |index| == 256
  {
    seq(256, c requires 0 <= c < 256 => index[c] + if (c as UInt8) in cells then [id] else [])
  }

  lemma NothingWithout(id: SubscriberId)
    ensures Without([], id) == []
  {
  }

  lemma {:induction false} CoveringWithoutIdle(live: seq<SubscriberId>, subs: map<SubscriberId, Sub>, id: SubscriberId,
          cell: UInt8)
    requires id in subs && subs[id].cells == []
    ensures Covering(Without(live, id), subs, cell) == Covering(live, subs, cell)
  {
    hide Covering, Without;
    if live == [] {
      NothingWithout(id);
    } else {
      var init, last := live[..|live| - 1], live[|live| - 1];
      CoveringWithoutIdle(init, subs, id, cell);
      assert live == init + [last];
      WithoutOneMore(init, last, id);
      CoveringOneMore(init, last, subs, cell);
      CoveringOneMore(Without(init, id), last, subs, cell);
    }
  }

  /** A subscription that is new, or takes the place of one that covers nothing, keeps the arrival order right. */
  lemma SubscribedInOrder(s: State, index: Index, id: SubscriberId, cells: seq<UInt8>)
    requires InOrder(s.live, s.subs, s.queues, index) && NoDuplicates(cells)
    requires id !in s.subs || s.subs[id].cells == []
    ensures
      var s' := Subscribed(s, id, cells);
      InOrder(s'.live, s'.subs, s'.queues, Appended(index, cells, id))
  {
    hide Covering, NoDuplicates, Without;
    WithoutFinds(s.live, id);
    var rest := if id in s.subs then Without(s.live, id) else s.live;
    assert id !in rest by { assert id !in s.subs ==> id !in s.live; }
    CoveringAdded(rest, s.subs, id, Sub(cells, None));
    if id in s.subs {
      forall c: UInt8 ensures Covering(rest, s.subs, c) == Covering(s.live, s.subs, c) {
        CoveringWithoutIdle(s.live, s.subs, id, c);
      }
    }
  }

  /** A live id that covers a cell stays in the cell's old list: no order of arrival explains the lists. */
  lemma SubscribedInconsistent(s: State, index: Index, id: SubscriberId, cells: seq<UInt8>)
    requires InOrder(s.live, s.subs, s.queues, index)
    requires id in s.subs && s.subs[id].cells != []
    ensures
      var s' := Subscribed(s, id, cells);
      !Consistent(s'.subs, s'.queues, Appended(index, cells, id))
  {
    hide Covering, Without;
    var s' := Subscribed(s, id, cells);
    var c := s.subs[id].cells[0];
    var ids := index[c];
    CoveringFinds(s.live, s.subs, c);
    var ids' := Appended(index, cells, id)[c];
    var i :| 0 <= i < |ids| && ids[i] == id;
    assert id in ids' && (c in cells ==> ids'[i] == ids'[|ids|]);
    forall order | InOrder(order, s'.subs, s'.queues, Appended(index, cells, id)) ensures false {
      CoveringFinds(order, s'.subs, c);
    }
  }

  /** Subscribing keeps lists, subscriptions and channels consistent iff the id is not live, or covers no cell. */
  lemma SubscribedConsistent(s: State, index: Index, id: SubscriberId, cells: seq<UInt8>)
    requires InOrder(s.live, s.subs, s.queues, index) && NoDuplicates(cells)
    ensures
      var s' := Subscribed(s, id, cells);
      var index' := Appended(index, cells, id);
      && (Consistent(s'.subs, s'.queues, index') <==> id !in s.subs || s.subs[id].cells == [])
      && (InOrder(s'.live, s'.subs, s'.queues, index') <==> id !in s.subs || s.subs[id].cells == [])
  {
    hide InOrder, Appended, Subscribed;
    if id !in s.subs || s.subs[id].cells == [] {
      SubscribedInOrder(s, index, id, cells);
    } else {
      SubscribedInconsistent(s, index, id, cells);
    }
  }

  /** The counterpart for the arrival list alone. */
  lemma SubscribedWellFormed(s: State, id: SubscriberId, cells: seq<UInt8>)
    requires WellFormed(s) && NoDuplicates(cells)
    ensures WellFormed(Subscribed(s, id, cells)) <==> id !in s.subs || s.subs[id].cells == []
  {
    WithoutFinds(s.live, id);
    var live := Arrived(s, id);
    if id in s.subs && s.subs[id].cells != [] {
      assert id in s.live;
      var i :| 0 <= i < |s.live| && s.live[i] == id;
      assert live[i] == live[|s.live|];
    } else {
      var rest := live[..|live| - 1];
      assert id !in rest && NoDuplicates(rest) by { assert id !in s.subs ==> id !in s.live; }
      assert live == rest + [id];
    }
  }

  lemma UnsubscribedWellFormed(s: State, id: SubscriberId)
    requires WellFormed(s)
    ensures WellFormed(Unsubscribed(s, id))
  {
    WithoutFinds(s.live, id);
    hide NoDuplicates;
  }

  lemma BroadcastedWellFormed(s: State, b: Batch)
    requires WellFormed(s)
    ensures WellFormed(Broadcasted(s, b))
  {
    hide NoDuplicates, Wanted, DroppedSum;
  }

  /** What a subscription follows does not matter for the index. */
  lemma {:induction false} CoveringSameCells(live: seq<SubscriberId>, subs: map<SubscriberId, Sub>, id: SubscriberId,
          following: Option<set<UInt32>>)
    requires id in subs
    ensures forall cell: UInt8 ::
              Covering(live, subs[id := subs[id].(following := following)], cell) == Covering(live, subs, cell)
  {
    if live == [] {
    } else {
      CoveringSameCells(live[..|live| - 1], subs, id, following);
    }
  }

  // ----- the engine -----

  /** One subscriber is offered a batch of one of its cells. */
  function Offered(s: State, id: SubscriberId, b: Batch): State
    requires id in s.subs && id in s.queues
  {
    s.(queues := s.queues[id := QueueAfter(s.subs[id], s.queues[id], b)],
       dropped := s.dropped + DroppedFor(s.subs[id], s.queues[id], b))
  }

  /** The subscribers in ids have been offered the batch. */
  ghost function OfferedAll(s: State, ids: seq<SubscriberId>, b: Batch): State
    requires Known(s, ids) && s.queues.Keys <= s.subs.Keys
  {
    s.(queues := map id | id in s.queues :: if id in ids then QueueAfter(s.subs[id], s.queues[id], b) else s.queues[id],
       dropped := s.dropped + DroppedSum(s, ids, b))
  }

  lemma OfferedTo(s: State, ids: seq<SubscriberId>, id: SubscriberId, more: seq<SubscriberId>, b: Batch)
    requires Known(s, ids) && Known(s, more) && s.queues.Keys <= s.subs.Keys && id !in ids && id in s.subs &&
             id in s.queues
    requires forall x: SubscriberId :: x in more <==> x in ids || x == id
    requires DroppedSum(s, more, b) == DroppedSum(s, ids, b) + DroppedFor(s.subs[id], s.queues[id], b)
    ensures OfferedAll(s, more, b) == Offered(OfferedAll(s, ids, b), id, b)
  {
    hide DroppedFor, QueueAfter, DroppedSum, Known;
    assert OfferedAll(s, more, b).queues == Offered(OfferedAll(s, ids, b), id, b).queues;
  }

  lemma NextId(ids: seq<SubscriberId>, i: nat)
    requires i < |ids| && NoDuplicates(ids)
    ensures ids[i] !in ids[..i]
    ensures forall id: SubscriberId :: id in ids[..i + 1] <==> id in ids[..i] || id == ids[i]
  {
  }

  lemma OfferNext(s: State, ids: seq<SubscriberId>, i: nat, b: Batch)
    requires Known(s, ids) && i < |ids| && NoDuplicates(ids) && s.queues.Keys <= s.subs.Keys
    ensures Known(s, ids[..i]) && Known(s, ids[..i + 1])
    ensures SentSum(s, ids[..i + 1], b) == SentSum(s, ids[..i], b) + SentTo(s.subs[ids[i]], s.queues[ids[i]], b)
    ensures OfferedAll(s, ids[..i], b).subs == s.subs
    ensures ids[i] in OfferedAll(s, ids[..i], b).queues && OfferedAll(s, ids[..i], b).queues[ids[i]] == s.queues[ids[i]]
    ensures OfferedAll(s, ids[..i + 1], b) == Offered(OfferedAll(s, ids[..i], b), ids[i], b)
  {
    hide SentTo, DroppedFor, QueueAfter, NoDuplicates;
    NextId(ids, i);
    assert ids[..i + 1][..i] == ids[..i];
    OfferedTo(s, ids[..i], ids[i], ids[..i + 1], b);
  }

  lemma NothingOffered(s: State, b: Batch)
    requires s.queues.Keys <= s.subs.Keys
    ensures OfferedAll(s, [], b) == s && SentSum(s, [], b) == 0
  {
  }

  /** Offering the batch to the subscribers of its cell is the whole broadcast. */
  lemma OfferedCovering(s: State, b: Batch)
    requires WellFormed(s)
    ensures
      var ids := Covering(s.live, s.subs, b.cell);
      && NoDuplicates(ids) && Known(s, ids)
      && (forall id :: id in ids ==> b.cell in s.subs[id].cells)
      && OfferedAll(s, ids, b) == Broadcasted(s, b)
      && SentSum(s, ids, b) == SentSum(s, s.live, b)
      && OfferedAll(s, [], b) == s && SentSum(s, [], b) == 0
  {
    hide Covering, SentSum, DroppedSum, SentTo, DroppedFor, QueueAfter, NoDuplicates;
    CoveringSums(s, s.live, b);
    CoveringFinds(s.live, s.subs, b.cell);
    NothingOffered(s, b);
    forall id | id in s.queues && b.cell !in s.subs[id].cells
      ensures QueueAfter(s.subs[id], s.queues[id], b) == s.queues[id]
    {
      NotTaken(s.subs[id], s.queues[id], b);
    }
  }

  datatype Outcome = Skipped | Accepted | Dropped

  /** Appends the wanted records to a pooled buffer and copies its bytes. */
  method BuildFrame(sub: Sub, records: seq<Egress.Record>) returns (frame: seq<UInt8>, n: nat)
    ensures frame == Egress.Encode(Wanted(sub, records)) && n == |Wanted(sub, records)|
  {
    var buf := Egress.GetEgressBuffer();
    var i := 0;
    while i < |records|
      invariant 0 <= i <= |records|
      invariant fresh(buf) && fresh(buf.data) && buf.Valid()
      invariant buf.n == |Wanted(sub, records[..i])|
      invariant buf.Contents() == Egress.Encode(Wanted(sub, records[..i]))
    {
      var rec := records[i];
      ghost var wanted := Wanted(sub, records[..i]);
      assert records[..i + 1][..i] == records[..i];
      assert (wanted + [rec])[..|wanted|] == wanted && wanted + [] == wanted;
      if sub.Wants(rec.entityId) {
        buf.Append(rec);
      }
      i := i + 1;
    }
    assert records[..i] == records;
    frame, n := buf.Bytes(), buf.n;
  }

  class FanoutEngine {
    var subs: map<SubscriberId, Sub>
    const cellIndex: array<seq<SubscriberId>>
    const channels: ChannelManager
    var droppedFrames: nat
    ghost var live: seq<SubscriberId>  // in order of arrival

    ghost function AsState(): State
      reads this, channels
    {
      State(live, subs, channels.chans, droppedFrames)
    }

    /** The cell index lists, for every cell, exactly the live subscribers that cover it, in order of arrival,
        none twice; there is a channel for every subscription. */
    ghost predicate Valid()
      reads this, cellIndex, channels
    {
      && WellFormed(AsState())
      && IndexValid()
    }

    ghost predicate IndexValid()
      reads this`subs, this`live, cellIndex
    {
      && cellIndex.Length == 256
      && forall c: UInt8 :: cellIndex[c] == Covering(live, subs, c)
    }

    constructor ()
      ensures Valid() && fresh(cellIndex) && fresh(channels)
      ensures AsState() == State([], map[], map[], 0)
    {
      subs, droppedFrames, live := map[], 0, [];
      cellIndex := new seq<SubscriberId>[256](_ => []);
      channels := new ChannelManager();
    }

    /** For some order of arrival the engine is valid. */
    ghost predicate ConsistentNow()
      reads this, cellIndex, channels
    {
      Consistent(subs, channels.chans, cellIndex[..])
    }

    /** cosLat is the cosine of lat. Ids come from a counter; one that is live already would stay in its old lists. */
    method Subscribe(id: SubscriberId, lat: real, lng: real, radiusM: real, cosLat: real)
      requires Valid() && cosLat != 0.0
      modifies this, cellIndex, channels`chans
      ensures
        var cells := Cells.Cover(Cells.BoxAround(lat, lng, radiusM, cosLat));
        && AsState() == Subscribed(old(AsState()), id, cells)
        && cellIndex.Length == 256
        && forall c: UInt8 :: cellIndex[c] == old(cellIndex[c]) + if c in cells then [id] else []
      ensures ConsistentNow() <==> id !in old(subs) || old(subs)[id].cells == []
      ensures Valid() <==> ConsistentNow()
    {
      hide Cells.Cover, Cells.BoxAround, NoDuplicates, Covering, InOrder, Consistent;
      var cells := Cells.ShardsForRadius(lat, lng, radiusM, cosLat);
      Cells.CoverFinds(Cells.BoxAround(lat, lng, radiusM, cosLat), 0);
      ghost var s, index := AsState(), cellIndex[..];
      ValidInOrder();
      SubscribedConsistent(s, index, id, cells);
      subs := subs[id := Sub(cells, None)];
      CellIndex.AppendTo<SubscriberId>(cellIndex, cells, id);
      live := Arrived(s, id);
      channels.Create(id);
      assert cellIndex[..] == Appended(index, cells, id);
      ValidInOrder();
    }

    lemma ValidInOrder()
      ensures Valid() <==> cellIndex.Length == 256 && InOrder(live, subs, channels.chans, cellIndex[..])
    {
      hide NoDuplicates, Covering;
    }

    method Unsubscribe(id: SubscriberId)
      requires Valid()
      modifies this, cellIndex, channels
      ensures Valid()
      ensures AsState() == Unsubscribed(old(AsState()), id)
      ensures channels.closed == old(channels.closed) + if id in old(subs) then [(id, old(channels.chans)[id])] else []
    {
      hide NoDuplicates, Covering, Without, RemoveFirst;
      if id !in subs {
        return;
      }
      CoveringDropped(live, subs, id);
      UnsubscribedWellFormed(AsState(), id);
      RemoveFrom(subs[id].cells, id);
      subs := subs - {id};
      live := Without(live, id);
      channels.Remove(id);
    }

    /** Removes the first occurrence of id from the index of each of the cells. */
    method RemoveFrom(cells: seq<UInt8>, id: SubscriberId)
      requires cellIndex.Length == 256 && NoDuplicates(cells)
      modifies cellIndex
      ensures forall c: UInt8 ::
                cellIndex[c] == if c in cells then RemoveFirst(old(cellIndex[c]), id) else old(cellIndex[c])
    {
      hide RemoveFirst;
      var k := 0;
      while k < |cells|
        invariant 0 <= k <= |cells|
        invariant forall c: UInt8 :: cellIndex[c] ==
                    if c in cells[..k] then RemoveFirst(old(cellIndex[c]), id) else old(cellIndex[c])
      {
        var cell := cells[k];
        assert cell !in cells[..k];
        var ids := cellIndex[cell];
        var i := 0;
        while i < |ids| && ids[i] != id
          invariant 0 <= i <= |ids| && id !in ids[..i]
        {
          i := i + 1;
        }
        RemoveFirstAt(ids, id, i);
        if i < |ids| {
          cellIndex[cell] := ids[..i] + ids[i + 1..];
        }
        assert cells[..k + 1] == cells[..k] + [cell];
        k := k + 1;
      }
      assert cells[..k] == cells;
    }

    method Follow(subId: SubscriberId, entity: UInt32)
      requires Valid()
      modifies this`subs
      ensures Valid() && AsState() == Following(old(AsState()), subId, entity)
    {
      hide NoDuplicates, Covering;
      if subId in subs {
        var following := subs[subId].following;
        if following.None? {
          following := Some({});
        }
        CoveringSameCells(live, subs, subId, Some(following.value + {entity}));
        subs := subs[subId := subs[subId].(following := Some(following.value + {entity}))];
      }
    }

    method Unfollow(subId: SubscriberId, entity: UInt32)
      requires Valid()
      modifies this`subs
      ensures Valid() && AsState() == Unfollowing(old(AsState()), subId, entity)
    {
      hide NoDuplicates, Covering;
      if subId in subs && subs[subId].following.Some? {
        var following := subs[subId].following.value - {entity};
        CoveringSameCells(live, subs, subId, Some(following));
        subs := subs[subId := subs[subId].(following := Some(following))];
      }
    }

    method SubscribersInCell(cell: UInt8) returns (n: nat)
      requires Valid()
      ensures n == |Covering(live, subs, cell)|
    {
      n := |cellIndex[cell]|;
    }

    method Broadcast(cell: UInt8, records: seq<Egress.Record>) returns (sent: nat)
      requires Valid()
      modifies this`droppedFrames, channels`chans
      ensures Valid()
      ensures AsState() == Broadcasted(old(AsState()), Batch(cell, records))
      ensures sent == SentSum(old(AsState()), old(live), Batch(cell, records))
    {
      hide Covering, NoDuplicates, Offered, SentTo, OfferedAll, SentSum, DroppedSum;
      ghost var b := Batch(cell, records);
      ghost var s := AsState();
      OfferedCovering(s, b);
      BroadcastedWellFormed(s, b);
      var subIDs := cellIndex[cell];
      sent := 0;
      var i := 0;
      while i < |subIDs|
        invariant 0 <= i <= |subIDs|
        invariant AsState() == OfferedAll(s, subIDs[..i], b)
        invariant sent == SentSum(s, subIDs[..i], b)
      {
        OfferNext(s, subIDs, i, b);
        var outcome := Deliver(subIDs[i], cell, records);
        if outcome == Accepted {
          sent := sent + 1;
        }
        i := i + 1;
      }
      assert subIDs[..i] == subIDs;
    }

    /** The body of the loop of Broadcast: builds the frame of one subscription and tries to send it. */
    method Deliver(id: SubscriberId, ghost cell: UInt8, records: seq<Egress.Record>) returns (outcome: Outcome)
      requires id in subs && id in channels.chans && cell in subs[id].cells
      modifies this`droppedFrames, channels`chans
      ensures AsState() == Offered(old(AsState()), id, Batch(cell, records))
      ensures SentTo(subs[id], old(channels.chans)[id], Batch(cell, records)) == if outcome == Accepted then 1 else 0
    {
      var frame, n := BuildFrame(subs[id], records);
      if n == 0 {
        assert channels.chans[id := channels.chans[id]] == channels.chans;
        return Skipped;
      }
      var ch := channels.Get(id);
      outcome := Skipped;
      if ch.Some? {
        var sent := channels.TrySend(id, frame);
        if sent {
          outcome := Accepted;
        } else {
          outcome := Dropped;
          droppedFrames := droppedFrames + 1;
        }
      }
    }
  }
}
