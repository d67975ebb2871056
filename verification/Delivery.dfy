/** Fanout as values (pkg/fanout/engine.go, subscription.go, channel.go): which subscriptions are live,
    what their bounded queues hold, and what a broadcast does to them. */
module Delivery {
  import opened Words
  import opened Seqs
  import Egress

  type SubscriberId = UInt64
  type Frame = seq<UInt8>

  const QUEUE_SIZE: nat := 1024

  /** What a subscription wants: some cells, and every entity until it follows one. */
  datatype Sub = Sub(cells: seq<UInt8>, following: Option<set<UInt32>>) {
    predicate Wants(entity: UInt32) {
      following.Some? ==> entity in following.value
    }
  }

  /** live lists the subscribers in order of arrival. */
  datatype State = State(live: seq<SubscriberId>, subs: map<SubscriberId, Sub>,
                         queues: map<SubscriberId, seq<Frame>>, dropped: nat)

  ghost predicate WellFormed(s: State) {
    && NoDuplicates(s.live)
    && (forall id: SubscriberId {:trigger id in s.live} :: id in s.live <==> id in s.subs)
    && s.queues.Keys == s.subs.Keys
    && (forall id :: id in s.subs ==> NoDuplicates(s.subs[id].cells))
    && (forall id :: id in s.queues ==> |s.queues[id]| <= QUEUE_SIZE)
  }

  // ----- subscribing -----

  function Without<T(==)>(s: seq<T>, x: T): seq<T> {
    if s == [] then [] else Without(s[..|s| - 1], x) + if s[|s| - 1] == x then [] else [s[|s| - 1]]
  }

  /** A live subscriber that covers nothing may as well arrive anew. */
  function Arrived(s: State, id: SubscriberId): seq<SubscriberId> {
    (if id in s.subs && s.subs[id].cells == [] then Without(s.live, id) else s.live) + [id]
  }

  function Subscribed(s: State, id: SubscriberId, cells: seq<UInt8>): State {
    State(Arrived(s, id), s.subs[id := Sub(cells, None)], s.queues[id := []], s.dropped)
  }

  function Unsubscribed(s: State, id: SubscriberId): State {
    if id !in s.subs then s
    else State(Without(s.live, id), s.subs - {id}, s.queues - {id}, s.dropped)
  }

  function Following(s: State, id: SubscriberId, entity: UInt32): State {
    if id !in s.subs then s
    else
      var sub := s.subs[id];
      var followed := if sub.following.Some? then sub.following.value else {};
      s.(subs := s.subs[id := Sub(sub.cells, Some(followed + {entity}))])
  }

  function Unfollowing(s: State, id: SubscriberId, entity: UInt32): State {
    if id !in s.subs || s.subs[id].following.None? then s
    else s.(subs := s.subs[id := Sub(s.subs[id].cells, Some(s.subs[id].following.value - {entity}))])
  }

  /** Unfollow undoes Follow iff the subscription already followed some set without the entity: a first
      follow that is undone leaves a subscription that wants nothing any more. */
  lemma UnfollowUndoesFollow(s: State, id: SubscriberId, entity: UInt32)
    requires id in s.subs
    ensures Unfollowing(Following(s, id, entity), id, entity) == s <==>
            s.subs[id].following.Some? && entity !in s.subs[id].following.value
    ensures s.subs[id].following.None? ==>
              forall e: UInt32 :: s.subs[id].Wants(e) &&
                  !Unfollowing(Following(s, id, entity), id, entity).subs[id].Wants(e)
  {
  }

  /** Who wants what afterwards: a new subscription everything; after a first follow only that entity; after another
      follow that one more, and after an unfollow that one less. An unfollow before any follow changes nothing. */
  lemma WantsAfter(s: State, id: SubscriberId, entity: UInt32, cells: seq<UInt8>, x: UInt32)
    ensures Subscribed(s, id, cells).subs[id].Wants(x) && Subscribed(s, id, cells).subs[id].cells == cells
    ensures id in s.subs ==>
              var before, followed, unfollowed :=
                s.subs[id], Following(s, id, entity).subs[id], Unfollowing(s, id, entity).subs[id];
              && (followed.Wants(x) <==> x == entity || (before.following.Some? && before.Wants(x)))
              && (unfollowed.Wants(x) <==> before.Wants(x) && (before.following.Some? ==> x != entity))
              && followed.cells == unfollowed.cells == before.cells
  {
  }

  // ----- broadcasting -----

  datatype Batch = Batch(cell: UInt8, records: seq<Egress.Record>)

  /** The records of a batch that the subscription wants, in order. */
  function Wanted(sub: Sub, records: seq<Egress.Record>): seq<Egress.Record> {
    if records == [] then []
    else Wanted(sub, records[..|records| - 1]) +
         if sub.Wants(records[|records| - 1].entityId) then [records[|records| - 1]] else []
  }

  /** The subscription covers the batch's cell and wants some record of it. */
  predicate Takes(sub: Sub, b: Batch) {
    b.cell in sub.cells && Wanted(sub, b.records) != []
  }

  /** A non-blocking send. */
  function Send(queue: seq<Frame>, frame: Frame): seq<Frame> {
    if |queue| < QUEUE_SIZE then queue + [frame] else queue
  }

  function QueueAfter(sub: Sub, queue: seq<Frame>, b: Batch): seq<Frame> {
    if Takes(sub, b) then Send(queue, Egress.Encode(Wanted(sub, b.records))) else queue
  }

  function SentTo(sub: Sub, queue: seq<Frame>, b: Batch): nat {
    if Takes(sub, b) && |queue| < QUEUE_SIZE then 1 else 0
  }

  function DroppedFor(sub: Sub, queue: seq<Frame>, b: Batch): nat {
    if Takes(sub, b) && |queue| >= QUEUE_SIZE then 1 else 0
  }

  predicate Known(s: State, ids: seq<SubscriberId>) {
    forall id :: id in ids ==> id in s.subs && id in s.queues
  }

  function SentSum(s: State, ids: seq<SubscriberId>, b: Batch): nat
    requires Known(s, ids)
  {
    if ids == [] then 0
    else
      var id := ids[|ids| - 1];
      SentSum(s, ids[..|ids| - 1], b) + SentTo(s.subs[id], s.queues[id], b)
  }

  function DroppedSum(s: State, ids: seq<SubscriberId>, b: Batch): nat
    requires Known(s, ids)
  {
    if ids == [] then 0
    else
      var id := ids[|ids| - 1];
      DroppedSum(s, ids[..|ids| - 1], b) + DroppedFor(s.subs[id], s.queues[id], b)
  }

  /** One Broadcast: every live subscription that takes the batch gets one frame, if its queue has room. */
  function Broadcasted(s: State, b: Batch): State
    requires Known(s, s.live) && s.queues.Keys <= s.subs.Keys
  {
    s.(queues := map id | id in s.queues :: QueueAfter(s.subs[id], s.queues[id], b),
       dropped := s.dropped + DroppedSum(s, s.live, b))
  }

  function BroadcastedAll(s: State, bs: seq<Batch>): (s': State)
    requires Known(s, s.live) && s.queues.Keys <= s.subs.Keys
    ensures s'.live == s.live && s'.subs == s.subs && s'.queues.Keys == s.queues.Keys
  {
    if bs == [] then s else Broadcasted(BroadcastedAll(s, bs[..|bs| - 1]), bs[|bs| - 1])
  }

  /** The frames that all batches together send to all live subscriptions. */
  function SentAll(s: State, bs: seq<Batch>): nat
    requires Known(s, s.live) && s.queues.Keys <= s.subs.Keys
  {
    if bs == [] then 0
    else
      var init := bs[..|bs| - 1];
      SentAll(s, init) + SentSum(BroadcastedAll(s, init), s.live, bs[|bs| - 1])
  }

  // ----- accounting -----

  /** The frames that a subscription would get of the batches if its queue were unbounded. */
  function FramesFor(sub: Sub, bs: seq<Batch>): (fs: seq<Frame>)
    ensures |fs| <= |bs|
  {
    if bs == [] then []
    else
      var b := bs[|bs| - 1];
      FramesFor(sub, bs[..|bs| - 1]) + if Takes(sub, b) then [Egress.Encode(Wanted(sub, b.records))] else []
  }

  function Free(queue: seq<Frame>): nat
    requires |queue| <= QUEUE_SIZE
  {
    QUEUE_SIZE - |queue|
  }

  /** queue after fs has been sent to it frame by frame. */
  function Received(queue: seq<Frame>, fs: seq<Frame>): seq<Frame>
    requires |queue| <= QUEUE_SIZE
  {
    queue + fs[..Min(Free(queue), |fs|)]
  }

  lemma SendOneMore(queue: seq<Frame>, fs: seq<Frame>, frame: Frame)
    requires |queue| <= QUEUE_SIZE
    ensures Send(Received(queue, fs), frame) == Received(queue, fs + [frame])
  {
  }

  lemma NothingReceived(queue: seq<Frame>)
    requires |queue| <= QUEUE_SIZE
    ensures Received(queue, []) == queue
  {
  }

  /** Each queue receives the first frames meant for it, as many as have room. */
  lemma {:induction false} QueueAfterAll(s: State, bs: seq<Batch>, id: SubscriberId)
    requires WellFormed(s) && id in s.subs
    ensures BroadcastedAll(s, bs).queues[id] == Received(s.queues[id], FramesFor(s.subs[id], bs))
  {
    hide Takes, Received, Send;
    if bs == [] {
      NothingReceived(s.queues[id]);
    } else {
      var init, b := bs[..|bs| - 1], bs[|bs| - 1];
      QueueAfterAll(s, init, id);
      SendOneMore(s.queues[id], FramesFor(s.subs[id], init), Egress.Encode(Wanted(s.subs[id], b.records)));
      assert FramesFor(s.subs[id], init) + [] == FramesFor(s.subs[id], init);
    }
  }

  /** Sum over the subscribers of the frames that find room, and of those that do not. */
  function RoomSum(s: State, ids: seq<SubscriberId>, bs: seq<Batch>): nat
    requires Known(s, ids) && forall id :: id in ids ==> |s.queues[id]| <= QUEUE_SIZE
  {
    if ids == [] then 0
    else
      var id := ids[|ids| - 1];
      RoomSum(s, ids[..|ids| - 1], bs) + Min(Free(s.queues[id]), |FramesFor(s.subs[id], bs)|)
  }

  function ExcessSum(s: State, ids: seq<SubscriberId>, bs: seq<Batch>): nat
    requires Known(s, ids) && forall id :: id in ids ==> |s.queues[id]| <= QUEUE_SIZE
  {
    if ids == [] then 0
    else
      var id := ids[|ids| - 1];
      var n := |FramesFor(s.subs[id], bs)|;
      ExcessSum(s, ids[..|ids| - 1], bs) + (n - Min(Free(s.queues[id]), n))
  }

  lemma {:induction false} LastBatchSums(s: State, ids: seq<SubscriberId>, bs: seq<Batch>)
    requires WellFormed(s) && bs != [] && forall id :: id in ids ==> id in s.subs
    ensures
      var before := BroadcastedAll(s, bs[..|bs| - 1]);
      && Known(before, ids)
      && RoomSum(s, ids, bs) == RoomSum(s, ids, bs[..|bs| - 1]) + SentSum(before, ids, bs[|bs| - 1])
      && ExcessSum(s, ids, bs) == ExcessSum(s, ids, bs[..|bs| - 1]) + DroppedSum(before, ids, bs[|bs| - 1])
  {
    hide Takes;
    if ids == [] {
    } else {
      LastBatchSums(s, ids[..|ids| - 1], bs);
      QueueAfterAll(s, bs[..|bs| - 1], ids[|ids| - 1]);
    }
  }

  lemma {:induction false} NoBatchSums(s: State, ids: seq<SubscriberId>)
    requires Known(s, ids) && forall id :: id in ids ==> |s.queues[id]| <= QUEUE_SIZE
    ensures RoomSum(s, ids, []) == 0 && ExcessSum(s, ids, []) == 0
  {
    if ids == [] {
    } else {
      NoBatchSums(s, ids[..|ids| - 1]);
    }
  }

  /** Accounting for any sequence of broadcasts that nobody reads from: the frames sent are, summed over the
      subscribers, the lesser of the free slots and the batches they take; the rest is counted as dropped. */
  lemma {:induction false} BroadcastAccounting(s: State, bs: seq<Batch>)
    requires WellFormed(s)
    ensures SentAll(s, bs) == RoomSum(s, s.live, bs)
    ensures BroadcastedAll(s, bs).dropped == s.dropped + ExcessSum(s, s.live, bs)
  {
    if bs == [] {
      NoBatchSums(s, s.live);
    } else {
      BroadcastAccounting(s, bs[..|bs| - 1]);
      LastBatchSums(s, s.live, bs);
    }
  }
}
