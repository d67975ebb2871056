/** The engine's per-entity and per-cell tables on the heap (pkg/engine/engine.go, pipeline.go). */
module Tables {
  import opened Words
  import opened Coords
  import opened Grids
  import opened HyperLogLogs

  const PREV_POS_SHARDS: nat := 128

  /** The last-position map: 128 maps from entities to packets, which updates overwrite in place. */
  class PositionTable {
    const shards: array<map<UInt32, CoordPacket>>
    ghost var packets: map<UInt32, CoordPacket>  // all shards together
    ghost var last: Positions                    // what the packets hold

    /** Every entity is in the shard of its id, and no two entities share a packet. */
    ghost predicate Valid()
      reads this, shards, packets.Values
    {
      && Sharded()
      && (forall id, id' :: id in packets && id' in packets && id != id' ==> packets[id] != packets[id'])
      && (forall id: UInt32 :: id in packets <==> id in last)
      && (forall id :: id in packets ==> packets[id].Get() == last[id])
    }

    ghost predicate Sharded()
      reads this, shards
    {
      && shards.Length == PREV_POS_SHARDS
      && forall id: UInt32 {:trigger id in packets} ::
           && (id in packets <==> id in shards[id % PREV_POS_SHARDS])
           && (id in packets ==> packets[id] == shards[id % PREV_POS_SHARDS][id])
    }

    constructor ()
      ensures Valid() && fresh(shards) && packets == map[] && last == map[]
    {
      shards := new map<UInt32, CoordPacket>[PREV_POS_SHARDS](_ => map[]);
      packets, last := map[], map[];
    }

    /** The packet of an entity, not a copy of it. */
    method Load(id: UInt32) returns (p: CoordPacket?)
      requires Valid()
      ensures p == if id in packets then packets[id] else null
      ensures Lookup(last, id) == if p == null then None else Some(p.Get())
    {
      var shard := shards[id % PREV_POS_SHARDS];
      p := if id in shard then shard[id] else null;
    }

    /** Overwrites the packet of an entity in place, and allocates one for an entity that has none. */
    method Store(id: UInt32, coord: Coord)
      requires Valid()
      modifies this, shards, packets.Values
      ensures Valid() && fresh(packets.Values - old(packets.Values))
      ensures id in old(packets) ==> packets == old(packets)
      ensures last == old(last)[id := coord]
    {
      if id in shards[id % PREV_POS_SHARDS] {
        assert packets[id] in packets.Values;
        Overwrite(id, coord);
      } else {
        PointToNew(id, coord);
      }
    }

    method Overwrite(id: UInt32, coord: Coord)
      requires Valid() && id in packets
      modifies this`last, packets[id]
      ensures Valid() && last == old(last)[id := coord]
    {
      shards[id % PREV_POS_SHARDS][id].Set(coord);
      last := last[id := coord];
    }

    /** Lets the entity point to a new packet; the old one, if any, is not touched. */
    method PointToNew(id: UInt32, coord: Coord)
      requires Valid()
      modifies this, shards
      ensures Valid() && fresh(packets.Values - old(packets.Values))
      ensures id in packets && fresh(packets[id]) && last == old(last)[id := coord]
    {
      var p := new CoordPacket(coord);
      var s := id % PREV_POS_SHARDS;
      shards[s] := shards[s][id := p];
      packets := packets[id := p];
      last := last[id := coord];
    }
  }

  /** One distinct counter per cell. */
  class CellCounters {
    const sketches: seq<HyperLogLog>
    ghost var counted: seq<seq<UInt32>>  // the ids that each counter was given

    ghost function Registers(): set<object> {
      set i | 0 <= i < |sketches| :: sketches[i].registers
    }

    ghost predicate Distinct() {
      && |sketches| == CELLS
      && forall i, j :: 0 <= i < j < CELLS ==>
           sketches[i] != sketches[j] && sketches[i].registers != sketches[j].registers
    }

    ghost predicate Valid()
      reads this, sketches, Registers()
    {
      && Distinct() && |counted| == CELLS
      && forall i :: 0 <= i < CELLS ==> sketches[i].Valid() && sketches[i].adds == counted[i]
    }

    constructor ()
      ensures Valid() && fresh(sketches) && fresh(Registers())
      ensures counted == seq(CELLS, _ => [])
    {
      var all: seq<HyperLogLog> := [];
      var i := 0;
      while i < CELLS
        invariant 0 <= i <= CELLS && |all| == i
        invariant forall j :: 0 <= j < i ==> fresh(all[j]) && fresh(all[j].registers)
        invariant forall j :: 0 <= j < i ==> all[j].Valid() && all[j].adds == []
        invariant forall j, k :: 0 <= j < k < i ==> all[j] != all[k] && all[j].registers != all[k].registers
      {
        var sketch := new HyperLogLog();
        all := all + [sketch];
        i := i + 1;
      }
      sketches := all;
      counted := seq(CELLS, _ => []);
    }

    method Add(cell: UInt8, id: UInt32)
      requires Valid()
      modifies this, sketches[cell], sketches[cell].registers
      ensures Valid() && counted == old(counted)[cell := old(counted)[cell] + [id]]
    {
      sketches[cell].Add(id);
      counted := counted[cell := counted[cell] + [id]];
    }
  }
}
