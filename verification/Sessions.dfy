/** Whole runs in which packets and seeds arrive, ticks broadcast, and subscribers come, follow, unfollow, read and
    leave (pkg/engine/pipeline.go, callbacks.go, pkg/fanout/engine.go). */
module Sessions {
  import opened Words
  import opened Seqs
  import opened Coords
  import opened Grids
  import opened Delivery
  import opened Ticks
  import Cells
  import Egress
  import Fanout
  import GridQueries
  import Pipeline

  datatype Session = Session(pipe: Pipeline.State, fan: State)

  /** listing is what the tick reads of the cells; cells are those of the subscription's circle; Take is the reader at
      the other end of the channel. */
  datatype Event =
    | Packet(id: UInt32, coord: Coord)
    | Seed(id: UInt32, coord: Coord)
    | Tick(listing: Listing)
    | Join(sub: SubscriberId, cells: seq<UInt8>)
    | Take(sub: SubscriberId)
    | Leave(sub: SubscriberId)
    | Follow(sub: SubscriberId, entity: UInt32)
    | Unfollow(sub: SubscriberId, entity: UInt32)

  function Opening(): Session {
    Session(Pipeline.Initial(), State([], map[], map[], 0))
  }

  ghost predicate Sane(s: Session) {
    s.pipe.Valid() && WellFormed(s.fan)
  }

  /** A tick reads the grid, and a subscriber that joins gets a new id from a counter. */
  ghost predicate Possible(s: Session, e: Event) {
    && Sane(s)
    && (e.Tick? ==> ListsSubscribed(e.listing, s.pipe.grid, s.fan.subs))
    && (e.Join? ==> e.sub !in s.fan.subs && NoDuplicates(e.cells))
  }

  /** What an event means for the pipeline. */
  function OpsOf(e: Event): seq<Pipeline.Op> {
    match e
    case Packet(id, c) => [Pipeline.Op.Packet(id, c)]
    case Seed(id, c) => [Pipeline.Op.Seed(id, c)]
    case Tick(_) => [Pipeline.Op.Tick]
    case _ => []
  }

  function PipeAfter(w: Pipeline.TheWorld, p: Pipeline.State, e: Event): (p': Pipeline.State)
    requires |p.counted| == CELLS
    ensures |p'.counted| == CELLS
  {
    if OpsOf(e) == [] then p else Pipeline.Step(w, p, OpsOf(e)[0])
  }

  function Taking(f: State, id: SubscriberId): State {
    if id !in f.queues || f.queues[id] == [] then f else f.(queues := f.queues[id := f.queues[id][1..]])
  }

  /** What an event means for the subscribers. */
  ghost function FanAfter(f: State, e: Event): State
    requires WellFormed(f)
  {
    match e
    case Tick(listing) => BroadcastedAll(f, Batches(listing, CELLS))
    case Join(id, cells) => Subscribed(f, id, cells)
    case Take(id) => Taking(f, id)
    case Leave(id) => Unsubscribed(f, id)
    case Follow(id, entity) => Following(f, id, entity)
    case Unfollow(id, entity) => Unfollowing(f, id, entity)
    case _ => f
  }

  /** An event that is not possible changes nothing. */
  ghost function After(w: Pipeline.TheWorld, s: Session, e: Event): Session {
    if Possible(s, e) then Session(PipeAfter(w, s.pipe, e), FanAfter(s.fan, e)) else s
  }

  ghost function Run(w: Pipeline.TheWorld, es: seq<Event>): Session {
    if es == [] then Opening() else After(w, Run(w, es[..|es| - 1]), es[|es| - 1])
  }

  // ----- every run stays well formed -----

  lemma {:induction false} BroadcastedAllWellFormed(f: State, bs: seq<Batch>)
    requires WellFormed(f)
    ensures WellFormed(BroadcastedAll(f, bs))
  {
    hide NoDuplicates, Broadcasted;
    if bs == [] {
    } else {
      BroadcastedAllWellFormed(f, bs[..|bs| - 1]);
      Fanout.BroadcastedWellFormed(BroadcastedAll(f, bs[..|bs| - 1]), bs[|bs| - 1]);
    }
  }

  lemma FanStaysWellFormed(f: State, e: Event)
    requires WellFormed(f) && (e.Join? ==> e.sub !in f.subs && NoDuplicates(e.cells))
    ensures WellFormed(FanAfter(f, e))
  {
    hide NoDuplicates, BroadcastedAll, Batches;
    match e
    case Tick(listing) => BroadcastedAllWellFormed(f, Batches(listing, CELLS));
    case Join(id, cells) => Fanout.SubscribedWellFormed(f, id, cells);
    case Leave(id) => Fanout.UnsubscribedWellFormed(f, id);
    case _ =>
  }

  lemma OpeningSane()
    ensures Sane(Opening())
  {
  }

  lemma {:induction false} RunSane(w: Pipeline.TheWorld, es: seq<Event>)
    ensures Sane(Run(w, es))
  {
    hide WellFormed, FanAfter, PipeAfter, ListsSubscribed, NoDuplicates;
    if es == [] {
      OpeningSane();
    } else {
      RunSane(w, es[..|es| - 1]);
      var s, e := Run(w, es[..|es| - 1]), es[|es| - 1];
      if Possible(s, e) {
        FanStaysWellFormed(s.fan, e);
      }
    }
  }

  // ----- what a subscriber has been sent -----

  predicate Joins(e: Event, id: SubscriberId) {
    e.Join? && e.sub == id
  }

  predicate Hears(f: State, e: Event, id: SubscriberId) {
    e.Tick? && id in f.subs
  }

  predicate Reads(f: State, e: Event, id: SubscriberId) {
    e == Take(id) && id in f.queues && f.queues[id] != []
  }

  /** The frames of the ticks since the subscriber joined, as many as there would be without a bound on its queue. */
  ghost function FramesSince(w: Pipeline.TheWorld, es: seq<Event>, id: SubscriberId): seq<Frame> {
    if es == [] then []
    else
      var s, e := Run(w, es[..|es| - 1]), es[|es| - 1];
      var before := FramesSince(w, es[..|es| - 1], id);
      if !Possible(s, e) then before
      else if Joins(e, id) then []
      else if Hears(s.fan, e, id) then before + FramesFor(s.fan.subs[id], Batches(e.listing, CELLS))
      else before
  }

  lemma ReceivedTwice(queue: seq<Frame>, fs: seq<Frame>, gs: seq<Frame>)
    requires |queue| <= QUEUE_SIZE
    ensures |Received(queue, fs)| <= QUEUE_SIZE
    ensures Received(Received(queue, fs), gs) == Received(queue, fs + gs)
  {
    var free := Free(queue);
    if |fs| <= free {
      assert fs[..|fs|] == fs;
      assert (fs + gs)[..Min(free, |fs + gs|)] == fs + gs[..Min(free - |fs|, |gs|)];
    } else {
      assert (fs + gs)[..free] == fs[..free];
      assert gs[..0] == [];
    }
  }

  /** One event lets the subscriber's queue receive the frames that it means for it. */
  lemma QueueAfterEvent(s: Session, e: Event, id: SubscriberId, fs: seq<Frame>)
    requires Possible(s, e) && e != Take(id)
    requires id in s.fan.subs ==> s.fan.queues[id] == Received([], fs)
    ensures
      var f := FanAfter(s.fan, e);
      id in f.subs ==>
        && id in f.queues
        && f.queues[id] ==
           if Joins(e, id) then []
           else if Hears(s.fan, e, id) then Received([], fs + FramesFor(s.fan.subs[id], Batches(e.listing, CELLS)))
           else Received([], fs)
  {
    hide NoDuplicates, BroadcastedAll, Batches, Received, FramesFor, ListsSubscribed;
    match e
    case Tick(listing) =>
      if id in s.fan.subs {
        QueueAfterAll(s.fan, Batches(listing, CELLS), id);
        ReceivedTwice([], fs, FramesFor(s.fan.subs[id], Batches(listing, CELLS)));
      }
    case _ =>
  }

  lemma NothingYet()
    ensures Received([], []) == []
  {
  }

  lemma FirstReceived(fs: seq<Frame>)
    ensures Received([], fs) == fs[..Min(1024, |fs|)]
  {
  }

  /** After any run in which a live subscriber's queue is not read, it holds the first frames of the ticks since the
      subscriber joined, as many as have room: whoever else came, followed, read or left meanwhile, and whatever it
      followed when. */
  lemma {:induction false} QueueHoldsFramesSince(w: Pipeline.TheWorld, es: seq<Event>, id: SubscriberId)
    requires Take(id) !in es
    ensures
      var f := Run(w, es).fan;
      var frames := FramesSince(w, es, id);
      id in f.subs ==> id in f.queues && f.queues[id] == frames[..Min(1024, |frames|)]
  {
    hide Possible, FanAfter, PipeAfter, Received, FramesFor, Batches;
    if es == [] {
    } else {
      var init, e := es[..|es| - 1], es[|es| - 1];
      FirstReceived(FramesSince(w, init, id));
      QueueHoldsFramesSince(w, init, id);
      if Possible(Run(w, init), e) {
        QueueAfterEvent(Run(w, init), e, id, FramesSince(w, init, id));
        NothingYet();
        FirstReceived(FramesSince(w, es, id));
      }
    }
  }

  /** The first frames of a tick, as many as have room. */
  ghost function Fitting(f: State, listing: Listing, id: SubscriberId): seq<Frame>
    requires WellFormed(f) && id in f.subs
  {
    var frames := FramesFor(f.subs[id], Batches(listing, CELLS));
    frames[..Min(Free(f.queues[id]), |frames|)]
  }

  /** The frames since the subscriber joined that found room, and those that were read. */
  ghost function SentSince(w: Pipeline.TheWorld, es: seq<Event>, id: SubscriberId): seq<Frame> {
    if es == [] then []
    else
      var s, e := Run(w, es[..|es| - 1]), es[|es| - 1];
      var before := SentSince(w, es[..|es| - 1], id);
      if !Possible(s, e) then before
      else if Joins(e, id) then []
      else if Hears(s.fan, e, id) then before + Fitting(s.fan, e.listing, id)
      else before
  }

  ghost function TakenSince(w: Pipeline.TheWorld, es: seq<Event>, id: SubscriberId): seq<Frame> {
    if es == [] then []
    else
      var s, e := Run(w, es[..|es| - 1]), es[|es| - 1];
      var before := TakenSince(w, es[..|es| - 1], id);
      if !Possible(s, e) then before
      else if Joins(e, id) then []
      else if Reads(s.fan, e, id) then before + [s.fan.queues[id][0]]
      else before
  }

  lemma FifoAfterEvent(s: Session, e: Event, id: SubscriberId, sent: seq<Frame>, taken: seq<Frame>)
    requires Possible(s, e)
    requires id in s.fan.subs ==> sent == taken + s.fan.queues[id]
    ensures
      var f := FanAfter(s.fan, e);
      id in f.subs ==>
        && id in f.queues
        && if Joins(e, id) then f.queues[id] == []
           else if Hears(s.fan, e, id) then sent + Fitting(s.fan, e.listing, id) == taken + f.queues[id]
           else if Reads(s.fan, e, id) then sent == taken + [s.fan.queues[id][0]] + f.queues[id]
           else sent == taken + f.queues[id]
  {
    hide NoDuplicates, BroadcastedAll, Batches, FramesFor, ListsSubscribed;
    match e
    case Tick(listing) =>
      if id in s.fan.subs {
        QueueAfterAll(s.fan, Batches(listing, CELLS), id);
      }
    case _ =>
  }

  /** After any run, readers included, a live subscriber has read, in order, what was sent to it, but for what still
      waits in its queue: nothing is lost, repeated or reordered once it has found room. */
  lemma {:induction false} QueueIsFifo(w: Pipeline.TheWorld, es: seq<Event>, id: SubscriberId)
    ensures
      var f := Run(w, es).fan;
      id in f.subs ==> id in f.queues && SentSince(w, es, id) == TakenSince(w, es, id) + f.queues[id]
  {
    hide Possible, FanAfter, PipeAfter, Fitting;
    if es == [] {
    } else {
      var init, e := es[..|es| - 1], es[|es| - 1];
      QueueIsFifo(w, init, id);
      if Possible(Run(w, init), e) {
        FifoAfterEvent(Run(w, init), e, id, SentSince(w, init, id), TakenSince(w, init, id));
        assert forall queue: seq<Frame> :: [] + queue == queue;
      }
    }
  }

  // ----- what a subscriber wants -----

  /** The cells that the subscriber named when it joined. */
  ghost function JoinedFor(w: Pipeline.TheWorld, es: seq<Event>, id: SubscriberId): seq<UInt8> {
    if es == [] then []
    else
      var init, e := es[..|es| - 1], es[|es| - 1];
      if Possible(Run(w, init), e) && Joins(e, id) then e.cells else JoinedFor(w, init, id)
  }

  /** The subscriber has followed some entity since it joined. */
  ghost predicate FollowedSome(w: Pipeline.TheWorld, es: seq<Event>, id: SubscriberId) {
    es != [] &&
    var init, e := es[..|es| - 1], es[|es| - 1];
    !(Possible(Run(w, init), e) && Joins(e, id)) &&
    ((e.Follow? && e.sub == id) || FollowedSome(w, init, id))
  }

  /** Its latest Follow or Unfollow of the entity since it joined is a Follow. */
  ghost predicate FollowedLast(w: Pipeline.TheWorld, es: seq<Event>, id: SubscriberId, entity: UInt32) {
    es != [] &&
    var init, e := es[..|es| - 1], es[|es| - 1];
    !(Possible(Run(w, init), e) && Joins(e, id)) && e != Unfollow(id, entity) &&
    (e == Follow(id, entity) || FollowedLast(w, init, id, entity))
  }

  ghost predicate SubscribedTo(f: State, id: SubscriberId, cells: seq<UInt8>, some: bool, entity: UInt32, last: bool) {
    id in f.subs ==>
      && f.subs[id].cells == cells
      && (f.subs[id].following.Some? <==> some)
      && (f.subs[id].Wants(entity) <==> !some || last)
  }

  lemma SubscribedToAfter(s: Session, e: Event, id: SubscriberId, cells: seq<UInt8>, some: bool, entity: UInt32,
          last: bool)
    requires Possible(s, e) && SubscribedTo(s.fan, id, cells, some, entity, last) && (last ==> some)
    ensures SubscribedTo(FanAfter(s.fan, e), id,
                         if Joins(e, id) then e.cells else cells,
                         !Joins(e, id) && ((e.Follow? && e.sub == id) || some),
                         entity,
                         !Joins(e, id) && e != Unfollow(id, entity) && (e == Follow(id, entity) || last))
  {
    hide NoDuplicates, BroadcastedAll, Batches, ListsSubscribed;
    if e.Follow? || e.Unfollow? {
      WantsAfter(s.fan, e.sub, e.entity, [], entity);
    }
  }

  lemma {:induction false} LastIsSome(w: Pipeline.TheWorld, es: seq<Event>, id: SubscriberId, entity: UInt32)
    ensures FollowedLast(w, es, id, entity) ==> FollowedSome(w, es, id)
  {
    hide Possible, Run;
    if es == [] {
    } else {
      LastIsSome(w, es[..|es| - 1], id, entity);
    }
  }

  lemma FollowsArePossible(s: Session, e: Event)
    requires Sane(s) && (e.Follow? || e.Unfollow?)
    ensures Possible(s, e)
  {
  }

  /** After any run, a live subscriber covers the cells that it joined for. It wants an entity iff it has followed
      nothing since it joined, or its latest Follow or Unfollow of that entity since then is a Follow. */
  lemma {:induction false} SubscriptionSince(w: Pipeline.TheWorld, es: seq<Event>, id: SubscriberId, entity: UInt32)
    ensures
      var subs := Run(w, es).fan.subs;
      id in subs ==>
        && subs[id].cells == JoinedFor(w, es, id)
        && (subs[id].following.Some? <==> FollowedSome(w, es, id))
        && (subs[id].Wants(entity) <==> !FollowedSome(w, es, id) || FollowedLast(w, es, id, entity))
  {
    hide Possible, FanAfter, PipeAfter, Sub.Wants;
    if es == [] {
    } else {
      var init, e := es[..|es| - 1], es[|es| - 1];
      SubscriptionSince(w, init, id, entity);
      LastIsSome(w, init, id, entity);
      RunSane(w, init);
      if Possible(Run(w, init), e) {
        SubscribedToAfter(Run(w, init), e, id, JoinedFor(w, init, id), FollowedSome(w, init, id), entity,
                          FollowedLast(w, init, id, entity));
      } else if e.Follow? || e.Unfollow? {
        FollowsArePossible(Run(w, init), e);
      }
    }
  }

  // ----- and what those frames say -----

  ghost function OpsOfRun(w: Pipeline.TheWorld, es: seq<Event>): seq<Pipeline.Op> {
    if es == [] then []
    else
      var init, e := es[..|es| - 1], es[|es| - 1];
      OpsOfRun(w, init) + if Possible(Run(w, init), e) then OpsOf(e) else []
  }

  /** Subscribers do not disturb the pipeline. */
  lemma {:induction false} PipeRuns(w: Pipeline.TheWorld, es: seq<Event>)
    ensures Run(w, es).pipe == Pipeline.Run(w, OpsOfRun(w, es))
  {
    hide Possible, FanAfter, Pipeline.Step;
    if es == [] {
    } else {
      var init, e := es[..|es| - 1], es[|es| - 1];
      PipeRuns(w, init);
      RunSane(w, init);
      var ops, more := OpsOfRun(w, init), if Possible(Run(w, init), e) then OpsOf(e) else [];
      if more == [] {
        assert ops + more == ops;
      } else {
        assert (ops + more)[..|ops + more| - 1] == ops;
      }
    }
  }

  /** Each tick of a run with allowed seeds says to each live subscriber exactly the positions that the reference router
      holds at the time, of the entities that the subscription covers and wants at the time, each once. */
  lemma TickTellsPositions(w: Pipeline.TheWorld, es: seq<Event>, listing: Listing, id: SubscriberId)
    requires Pipeline.SeedsAllowed(w, OpsOfRun(w, es)) && Possible(Run(w, es), Tick(listing))
    requires id in Run(w, es).fan.subs
    ensures
      var sub := Run(w, es).fan.subs[id];
      var frames := FramesFor(sub, Batches(listing, CELLS));
      var last := Pipeline.GlobalMap(Pipeline.Accepted(w, OpsOfRun(w, es)));
      && FramesSince(w, es + [Tick(listing)], id) == FramesSince(w, es, id) + frames
      && GridQueries.Lists(DecodeAll(frames), Visible(last, sub))
  {
    hide WellFormed, Agrees, GridQueries.Lists, DecodeAll, Visible, FramesFor, Batches, Heard, Pipeline.Run, Run,
         Pipeline.SeedsAllowed, Pipeline.GlobalMap, Pipeline.Accepted, ListsSubscribed;
    var s, ops := Run(w, es), OpsOfRun(w, es);
    var next := es + [Tick(listing)];
    assert next[..|next| - 1] == es;
    PipeRuns(w, es);
    Pipeline.RunAgrees(w, ops);
    Pipeline.LastIsGlobalMap(w, ops);
    HeardIsVisible(s.pipe.grid, s.pipe.last, s.fan.subs, id, listing);
    DecodeFrames(s.fan.subs[id], listing, CELLS);
  }

  /** The same, record by record: after any run with allowed seeds, the next tick's frames for a live subscriber hold
      the record of an entity iff the reference router has it in one of the cells that the subscriber joined for, and
      the subscriber follows it or has followed nothing; latitude and longitude are the router's. No entity comes
      twice. */
  lemma TickTellsRecords(w: Pipeline.TheWorld, es: seq<Event>, listing: Listing, id: SubscriberId, r: Egress.Record)
    requires Pipeline.SeedsAllowed(w, OpsOfRun(w, es)) && Possible(Run(w, es), Tick(listing))
    requires id in Run(w, es).fan.subs
    ensures
      var frames := FramesFor(Run(w, es).fan.subs[id], Batches(listing, CELLS));
      var last := Pipeline.GlobalMap(Pipeline.Accepted(w, OpsOfRun(w, es)));
      var e := r.entityId;
      && FramesSince(w, es + [Tick(listing)], id) == FramesSince(w, es, id) + frames
      && DistinctIds(DecodeAll(frames))
      && (r in DecodeAll(frames) <==>
            && e in last
            && Cells.ShardKey(Value(last[e].lat), Value(last[e].lng)) in JoinedFor(w, es, id)
            && (!FollowedSome(w, es, id) || FollowedLast(w, es, id, e))
            && r.lat == last[e].lat && r.lng == last[e].lng)
  {
    hide Possible, Cells.ShardKey, Value, DecodeAll, FramesFor, Batches, Run, Pipeline.SeedsAllowed,
         Pipeline.GlobalMap, Pipeline.Accepted, Sub.Wants, FramesSince, FollowedSome, FollowedLast, JoinedFor;
    TickTellsPositions(w, es, listing, id);
    SubscriptionSince(w, es, id, r.entityId);
    var sub := Run(w, es).fan.subs[id];
    var frames := FramesFor(sub, Batches(listing, CELLS));
    var last := Pipeline.GlobalMap(Pipeline.Accepted(w, OpsOfRun(w, es)));
    GridQueries.ListsFields(DecodeAll(frames), Visible(last, sub), r);
  }
}
