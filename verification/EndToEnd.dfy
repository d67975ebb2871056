/** From packets to frames: what a tick delivers after any interleaving (pkg/engine/pipeline.go). */
module EndToEnd {
  import opened Grids
  import opened Pipeline
  import opened Machine
  import opened InFlight
  import opened Serializability
  import Delivery
  import Ticks

  /** After any interleaving with at most one packet of each entity in flight, once no worker is busy, a tick appends
      to every subscriber's queue, as far as there is room, frames that decode to exactly the entities it covers and
      wants, each once, with the positions that the reference router holds after the accepted packets and seeds. */
  lemma TickAfterInterleaving(w: TheWorld, n: nat, steps: seq<Action>, f: Delivery.State, listing: Ticks.Listing)
    requires AllApart(w, n, steps) && Quiescent(Exec(w, n, steps))
    requires Delivery.WellFormed(f) && Ticks.ListsSubscribed(listing, Exec(w, n, steps).grid, f.subs)
    ensures
      var last := GlobalMap(Accepted(w, Log(w, n, steps)));
      var f' := Delivery.BroadcastedAll(f, Ticks.Batches(listing, 256));
      forall id :: id in f.subs ==> Ticks.Delivered(f.queues[id], f'.queues[id], last, f.subs[id])
  {
    hide Delivery.WellFormed, Delivery.BroadcastedAll, Ticks.ListsSubscribed, Ticks.Batches, Ticks.Delivered, Agrees,
         AllApart, Exec, Log, Run, GlobalMap, Accepted, Quiescent, Sound;
    Serializable(w, n, steps);
    OneInFlight(w, n, steps);
    LastIsGlobalMap(w, Log(w, n, steps));
    Ticks.AllDelivered(f, Exec(w, n, steps).grid, GlobalMap(Accepted(w, Log(w, n, steps))), listing);
  }
}
