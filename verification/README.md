# Aerocast: a verified model of the moving-object index

Aerocast indexes moving objects. A packet `(id, lng, lat)` passes a rate limiter, is compared with the entity's
last position, moves the entity between the 256 cells of a sharded, striped grid, fires geofence events, overwrites
the last position in place and feeds a distinct counter per cell. Every tick resets the limiter and sends, for each
cell, the grid's contents as 20-byte records to the bounded queues of the subscribers that cover the cell.

The project models these components and proves how they behave together:

- **Cells.dfy** cell arithmetic: clamping `ShardKey` against masking `ShardsForRadius`, across the antimeridian and
  at the poles; **Words.dfy** machine words and the numbers that finite doubles denote; **Seqs.dfy** duplicates;
  **CellIndex.dfy** the lists by cell that fences and subscriptions share.
- **Grid.dfy**, **GridQueries.dfy** the striped grid as a class over its 4096 maps, refining one map of positions.
- **Coords.dfy**, **Tables.dfy** coordinate packets on the heap, the last-position map that points to them and
  overwrites them, and the distinct counters of the cells.
- **Hashes.dfy**, **CountMin.dfy**, **Bloom.dfy**, **HyperLogLog.dfy** the three sketches and what their hash constants
  make exact.
- **Polygon.dfy**, **Fences.dfy**, **Ledger.dfy** ray casting, the fence index and the move evaluator.
- **Egress.dfy** the growing buffer and its parser.
- **Delivery.dfy**, **Fanout.dfy**, **Multi.dfy** subscriptions, the inverted cell index and delivery accounting.
- **Pipeline.dfy** one packet, seed or tick as a function on states, and its runs; **Engine.dfy** the same on the
  heap, composed of the classes above; **Ticks.dfy** a broadcast tick end to end.
- **Sessions.dfy** runs in which subscribers come, follow, read and leave between packets and ticks, and what each queue
  then holds; **Service.dfy** the engine on the heap serving such a run.
- **Machine.dfy** the concurrent engine as a step machine over its lock regions and atomic counters;
  **Races.dfy** what holds over every interleaving; **InFlight.dfy** and **Serializability.dfy** what holds with at
  most one packet of each entity in flight; **QuietTicks.dfy** ticks that overlap packets; **EndToEnd.dfy** packets
  to frames.

Conventions. Objects that the source updates in place are classes; each of their methods is proved to do to the
object's abstract value what a function of the old value says, and the theorems are lemmas about those functions and
their runs. Coordinates are finite doubles, kept as bit patterns; arithmetic on them is exact. `cosLat` stands for
the cosine that `ShardsForRadius` computes and `dist` for the great-circle distance. In the step machine a read of
`prev` without the lock gives what the packet holds if no other worker is busy with the entity, and anything at all
otherwise; attempts at steps that are not possible change nothing, so every sequence of attempts is a run. The
heap engine and the step machine meet in Pipeline.dfy: the engine's methods are proved to be its operations, and
interleavings are proved to end where its runs do.

Findings. The source does not meet some natural expectations. For each, this is when it does:

- The grid agrees with a map of positions if at most one packet of each entity is in flight (`InFlight.OneInFlight`).
  Whenever no worker is busy, any two packets of one entity with different coordinates, both admitted and neither a
  duplicate, can break that for good: into two cells, they leave the entity in both shards; into one cell, they leave it
  with the position of the packet that was not stored last (`Races.TwoInFlightTwoShards`).
- A move fires the events of a scan of all fences iff every fence with something to report is indexed at the cell that
  the move leads to (`Ledger.EvaluateMatchesFullScan`). Exits into other cells are missed (`Ledger.ExitMissed`), and so
  are enters beyond the box of a circle, which is a little narrower than the circle (`Ledger.EnterMissed`).
- A seed keeps the grid in agreement iff the entity is new or stays in its cell (`Grids.RouteAgrees`).
- Dropping a packet that repeats the last position loses nothing iff the register that the id falls into has reached its
  rank already, as it has once some packet of the entity was routed into the cell
  (`Pipeline.DuplicateDropIsTransparent`); after a seed alone it has not (`Pipeline.SeededDuplicateIsNotCounted`).
- Unfollowing undoes a follow iff the subscription followed some set without the entity before; undoing a first follow
  leaves a subscription that wants nothing (`Delivery.UnfollowUndoesFollow`).
- Subscribing keeps lists, subscriptions and channels consistent, for some order of arrival, iff the id is not live or
  its subscription covers no cell (`Fanout.SubscribedConsistent`, `Fanout.FanoutEngine.Subscribe`).
- A point of a circle's box has its cell covered iff all three hold: its latitude is below 90 or the box starts below 90;
  its longitude is below 180 or the box reaches a column congruent to 15; its longitude is at least -180 or the box
  reaches a column congruent to 0 (`Cells.CoverContainsShardKey`, `Cells.RadiusCovers`). So the points of the map are,
  but for its closing edges (`Cells.NorthPoleCovered`, `Cells.AntimeridianCovered`); coordinates are not validated, and
  the centre of the circle of 100 km around longitude 200 on the equator is not (`Cells.BeyondTheEdge`).
- The Bloom filter reports an id iff one congruent to it modulo 2048 was added or, for a multiple of 32, one congruent
  to 31 times it (`Bloom.FilterIsExact`).

## Model

| member | source | states |
|---|---|---|
| Words.NextValue | pkg/binary/codec.go:26-33 | each pattern without a sign denotes the number one ulp above the one before, also where the exponent changes, from 0 on |
| Words.SignNegates | pkg/binary/codec.go:26-33 | the sign bit negates the number |
| Words.ValueOrdered | pkg/binary/codec.go:26-33 | numbers are ordered as their patterns, with a sign the other way round, and only the two zeros denote the same number |
| Cells.KeyLocates | pkg/spatial/hash.go:5-21 | for any numbers whatever, a point has the key of row r and column c iff it is in the r-th 11.25 degrees from the south pole and the c-th 22.5 degrees from -180, the outer ones being open-ended |
| Cells.BoxIsWithinMetres | pkg/spatial/hash.go:49-64 | a point is in the box of a circle iff it is between the poles and, 111320 m to a degree and the cosine of the centre to a degree of longitude, within the radius in latitude and in longitude |
| Cells.ShardsForRadius | pkg/spatial/hash.go:48-83 | the nested loops with the seen table return the sweep of the box's masked rows and columns; every point within the radius in latitude and longitude has its key among them, but for the edges of the map |
| Cells.CoverFinds | pkg/spatial/hash.go:48-83 | a key is returned iff some row and column of the box mask to it, and none is returned twice |
| Cells.CoverLength | pkg/spatial/hash.go:65-81 | there are min(16, rows) * min(16, columns) keys, however far the box wraps around |
| Cells.ShardKeyIsMasked | pkg/spatial/hash.go:5-21 | away from the closing edges the clamped key is the masked one, after any number of full turns |
| Cells.CoverContainsShardKey | pkg/spatial/hash.go:5-83 | a point of a box between the poles, up to full turns of longitude, has its key among those returned iff the three conditions hold: below latitude 90 or the box starts below it; beyond longitude 180 a column congruent to 15 is reached; below -180 one congruent to 0 |
| Cells.ReachesColumnIff | pkg/spatial/hash.go:58-70 | a box reaches a column iff, at some turn, the column's 22.5 degrees meet the box: the condition in terms of the box alone |
| Cells.RadiusCovers | pkg/spatial/hash.go:48-83 | the same for every circle and every point of its box, wherever centre and point lie |
| Cells.NorthPoleCovered | pkg/spatial/hash.go:5-83 | latitude 90 clamps into row 15 but masks into row 0: at any longitude its key is returned iff the box starts below it and the column is reached |
| Cells.AntimeridianCovered | pkg/spatial/hash.go:5-83 | longitude 180 clamps into column 15 but masks into column 0: at any latitude its key is returned iff the row is reached and the box starts before the edge or goes on to the next column 15 |
| Cells.BeyondTheEdge | pkg/spatial/hash.go:5-83 | the centre of a circle of 100 km at longitude 200, whose own cell is not among those returned |
| Grids.SpatialGrid.constructor | pkg/spatial/grid.go:20-28 | a new grid is empty |
| Grids.SpatialGrid.Route | pkg/spatial/grid.go:30-38 | the entry is put into the slot of its shard and stripe, and no other slot changes |
| Grids.SpatialGrid.RouteWithPrevious | pkg/spatial/grid.go:40-63 | delete from the shard of the previous position, skipped in the same cell, then insert; returns whether the cell changed |
| Grids.SpatialGrid.Remove | pkg/spatial/grid.go:65-72 | only the entity's entry in the shard of the given position goes |
| Grids.SpatialGrid.Get | pkg/spatial/grid.go:74-86 | the entry of the first shard that holds the entity, or nothing if none does |
| Grids.SpatialGrid.ShardStats | pkg/spatial/grid.go:130-143 | each count is the sum of the shard's stripe sizes |
| Grids.SpatialGrid.Count | pkg/spatial/grid.go:145-156 | the number of entries of all slots |
| Grids.SpatialGrid.EgressRecords | pkg/spatial/grid.go:158-185 | every entry of the shard exactly once with its coordinate, in whatever order the maps are iterated |
| Grids.InsertPlaces | pkg/spatial/grid.go:30-38 | an insert adds exactly one (cell, entity) and changes no other entry; stripes stay right |
| Grids.DeleteRemoves | pkg/spatial/grid.go:44-52 | a delete takes away exactly one (cell, entity) and changes no other entry |
| Grids.MoveAgrees | pkg/spatial/grid.go:40-63 | routing with the true previous position is the single map's update: full agreement is kept |
| Grids.RouteAgrees | pkg/spatial/grid.go:30-38 | Route keeps agreement iff the entity is new or stays in its cell |
| Grids.RemoveAgrees | pkg/spatial/grid.go:65-72 | Remove is the single map's deletion iff the entity is unknown or the position is in its cell |
| Grids.AgreementIsWellPlaced | pkg/spatial/grid.go:11-18 | on an agreeing grid every entry is in the shard of its coordinate and the stripe of its id |
| Grids.EntriesAgree | pkg/spatial/grid.go:145-156 | Count of an agreeing grid is the size of the single map |
| GridQueries.GetAgrees | pkg/spatial/grid.go:74-86 | Get of an agreeing grid is the single map's lookup |
| GridQueries.ShardStatsSum | pkg/spatial/grid.go:130-156 | the statistics of the first k shards sum to their entries; over all shards that is Count |
| GridQueries.RecordsAgree | pkg/spatial/grid.go:158-185 | a cell's records of an agreeing grid list exactly the entities whose position is in the cell, each once |
| GridQueries.ListsFields | pkg/spatial/grid.go:175-180 | a record is listed iff its entity is, with its latitude and longitude as the record's |
| GridQueries.QueryCircle | pkg/spatial/grid.go:88-107 | the ids of the near entries of the covered cells; on a grid that agrees with a map, each once, exactly the entities of covered cells whose distance is at most the radius |
| GridQueries.QueryAgrees | pkg/spatial/grid.go:88-107 | on an agreeing grid: exactly the near entities whose cell is covered, each once, so every near one inside the box |
| Tables.PositionTable.Load | pkg/engine/pipeline.go:40-45 | returns the entity's packet itself, which holds its last position |
| Tables.PositionTable.Store | pkg/engine/pipeline.go:57-64 | the write goes into the same packet if there is one, and touches no other entity's |
| Tables.PositionTable.PointToNew | pkg/engine/callbacks.go:43-53 | a seed points the entity to a new packet and leaves the old one as it was |
| Tables.CellCounters.Add | pkg/engine/pipeline.go:66-67 | one cell's counter gets the id, the 255 others do not change |
| CountMin.CountMinSketch.AddAndEstimate | pkg/engine/cms.go:17-38 | every cell of the table is the wrapped number of adds that hit it, and the result is the least of the id's four |
| CountMin.CountMinSketch.Reset | pkg/engine/cms.go:40-48 | after a reset the sketch has seen no adds |
| CountMin.ColumnIsProduct | pkg/engine/cms.go:18-28 | modulo 1024 the four rows multiply the id by 619, 160, 725 and 266, despite the wrap-around at 2^32 |
| CountMin.Row0Separates | pkg/engine/cms.go:18-28 | two ids share a column of row 0 iff they are congruent modulo 1024 |
| CountMin.HitsBoundClass | pkg/engine/cms.go:26-35 | every row counts at least the id's residue class, and row 0 exactly that |
| CountMin.EstimateIsExact | pkg/engine/cms.go:17-38 | for fewer than 2^32 adds the estimate is the number of adds congruent to the id modulo 1024 |
| CountMin.LimiterPassesFirstFifty | pkg/engine/pipeline.go:35-38 | of each class exactly min(50, arrivals) packets pass between two resets |
| Bloom.TickBloomFilter.CheckAndAdd | pkg/engine/bloom.go:20-40 | answers whether both bits were marked by earlier adds, and marks them and no others |
| Bloom.TickBloomFilter.Reset | pkg/engine/bloom.go:42-51 | after a reset no bit is set |
| Bloom.BitsAreProducts | pkg/engine/bloom.go:21-28 | shard and bits are products of the id with 619 and 1589 modulo 2048 |
| Bloom.FilterIsExact | pkg/engine/bloom.go:20-40 | exactly which earlier ids make the filter answer yes; for ids that 32 does not divide, those congruent modulo 2048 |
| Bloom.NoFalseNegatives | pkg/engine/bloom.go:33-36 | an id added since the reset is always reported |
| Bloom.FalsePositive | pkg/engine/bloom.go:33-36 | after 992 alone the filter reports 32 |
| HyperLogLogs.HashSplits | pkg/engine/hll.go:16-19 | the register is the top six bits of the hash; the rank is 27 if the other 26 bits are 0, and otherwise one more than their leading zeros |
| HyperLogLogs.HyperLogLog.Add | pkg/engine/hll.go:15-26 | the registers are those of all ids added so far |
| HyperLogLogs.HyperLogLog.Estimate | pkg/engine/hll.go:28-39 | the loop computes the estimate of those registers |
| HyperLogLogs.HyperLogLog.Reset | pkg/engine/hll.go:41-47 | all registers are zero again |
| HyperLogLogs.RegisterIsMaximum | pkg/engine/hll.go:22-24 | a register is the largest rank among the ids that fall into it, 0 if none does |
| HyperLogLogs.RegisterOfSet | pkg/engine/hll.go:15-26 | registers depend only on the set of ids, not on order or repetition |
| HyperLogLogs.EstimateMonotone | pkg/engine/hll.go:28-39 | the estimate never falls when the set of ids grows |
| HyperLogLogs.EstimateOfEqual | pkg/engine/hll.go:32-38 | 64 registers that all hold v estimate 45.376 * 2^v, rounded down |
| HyperLogLogs.EstimateInIntegers | pkg/engine/hll.go:32-38 | for any registers the estimate is 2904.064 * 2^27 by the sum of 2^(27 - v) over them, rounded down |
| Polygons.Contains | pkg/geofence/fence.go:72-92 | the loop over edges is the parity of crossings of the closed vertex chain; fewer than 3 vertices contain nothing |
| Polygons.CrossesIff | pkg/geofence/fence.go:84-87 | without division: an edge is crossed iff it spans the latitude, its upper end excluded, and the point is strictly west of its line |
| Polygons.CrossesSymmetric | pkg/geofence/fence.go:84-87 | an edge is crossed in both directions or in neither, despite the asymmetric division |
| Polygons.ReversalInvariant | pkg/geofence/fence.go:72-92 | reversing the vertex list changes no answer |
| Polygons.RotationInvariant | pkg/geofence/fence.go:72-92 | rotating the vertex list changes no answer |
| Polygons.DiagonalCut | pkg/geofence/fence.go:72-92 | cutting along a diagonal from the first vertex splits a polygon into two whose answers xor to its own |
| Polygons.FanDecomposition | pkg/geofence/fence.go:72-92 | for every vertex list, convex or not, the answer is the xor of the fan triangles' own answers |
| Polygons.TriangleIsItsSides | pkg/geofence/fence.go:72-92 | a triangle of either orientation contains every point strictly on the same side of its three edge lines, and none strictly on different sides of two |
| Polygons.ContainedInBoundingBox | pkg/geofence/fence.go:72-92 | a contained point lies in the half-open bounding box of the vertices |
| Polygons.RectangleIsBox | pkg/geofence/fence.go:72-92 | a rectangle contains exactly its half-open box |
| Fences.NewPolygon | pkg/geofence/fence.go:44-66 | centre at the mean of the vertices, radius the largest distance of a vertex from it, 0 without vertices |
| Fences.SumsAdd | pkg/geofence/fence.go:50-56 | the sums of which the mean is taken are additive, and of one vertex its coordinates |
| CellIndex.AppendTo | pkg/geofence/store.go:29-31 | each of the given lists gets the new element at its end, and the others stay |
| Fences.Store.Register | pkg/geofence/store.go:19-32 | the fence comes last in the list of each cell of its cover |
| Fences.Store.FencesNear | pkg/geofence/store.go:34-51 | the fences whose cover has the point's cell |
| Fences.IndexedAtFinds | pkg/geofence/store.go:12-32 | a cell lists exactly the fences that cover it, in registration order, none twice |
| Fences.EvaluateMove | pkg/geofence/evaluate.go:30-89 | the events of a scan of the fences near the destination; each tells the given entity, where it is now, and a fence near there that it enters or leaves |
| Ledger.NearScanIsIndexedScan | pkg/geofence/evaluate.go:35-82 | that scan is the scan of all fences, restricted to those indexed at the destination's cell |
| Ledger.IndexedScanCounts | pkg/geofence/evaluate.go:44-82 | there are as many events as fences indexed at the cell that hold just one of the two points |
| Ledger.EvaluateMatchesFullScan | pkg/geofence/evaluate.go:35-82 | for any fences and covers it reports what a scan of all fences would iff every fence with something to report is indexed at the destination's cell |
| Ledger.OnlyExitsMissed | pkg/geofence/evaluate.go:35-82 | for fences indexed wherever they hold the destination: iff the move leaves none for a cell where it is not indexed |
| Ledger.SameCellMatchesFullScan | pkg/geofence/evaluate.go:35-82 | for fences indexed wherever they hold one of the two points, a move within one cell misses nothing |
| Ledger.ExitMissed | pkg/geofence/evaluate.go:35 | a concrete exit that is not reported |
| Ledger.EnterMissed | pkg/spatial/hash.go:48-70 | a circle and a point inside it, 27809.85 m from its centre, whose cell is outside the circle's cover, so that the enter is not reported |
| Ledger.TypesOfMove | pkg/geofence/evaluate.go:44-81 | the events of a move that carry a fence's name are that fence's verdict, where it is indexed |
| Ledger.TypesOfRun | pkg/geofence/evaluate.go:30-89 | the events of a whole run that carry a fence's name are that fence's own run |
| Ledger.LedgerBalances | pkg/geofence/evaluate.go:30-89 | over any run, enters minus exits is whether the entity is inside now, plus the exits and minus the enters that the index misses |
| Ledger.EventsAlternate | pkg/geofence/evaluate.go:30-89 | after every prefix of any run a fence's events alternate from Enter, with parity telling inside from outside, iff no exit and no enter was missed |
| Ledger.EndTellsMissedExits | pkg/geofence/evaluate.go:30-89 | for a fence indexed wherever it holds a visited point, no enter is missed, and the end of the run tells whether an exit was |
| Ledger.IndexedMissesNothing | pkg/geofence/evaluate.go:30-89 | if every visited cell is indexed, no exit and no enter is missed |
| Egress.EgressBuffer.Pooled | pkg/binary/egress.go:27-32 | a reused buffer is empty whatever its storage holds |
| Egress.EgressBuffer.Reset | pkg/binary/egress.go:38-41 | emptying keeps the storage |
| Egress.EgressBuffer.Append | pkg/binary/egress.go:43-57 | doubling always leaves room, the contents grow by the record's bytes, and growth has copied less than twice the length |
| Egress.DecodeEgressFrame | pkg/binary/egress.go:67-83 | the parser's loop decodes record by record, and rejects other lengths than multiples of 20 |
| Egress.DecodeEncode | pkg/binary/egress.go:43-83 | decoding the bytes of any append sequence gives those records in order |
| Egress.EncodeDecode | pkg/binary/egress.go:43-83 | a frame is rejected iff 20 does not divide its length, and otherwise re-encodes to itself |
| Egress.EncodeInjective | pkg/binary/egress.go:43-57 | different records have different bytes |
| Egress.ByteOfFrame | pkg/binary/egress.go:53-55 | byte 20 i + j of a frame is byte j of record i: id, latitude, longitude, each with the least significant byte first |
| Delivery.UnfollowUndoesFollow | pkg/fanout/engine.go:79-96 | unfollowing undoes a follow iff the subscription already followed a set without the entity |
| Delivery.WantsAfter | pkg/fanout/subscription.go:20-26 | a new subscription wants all; after a first follow only that entity, after another one more, after an unfollow one less, and an unfollow before any follow changes nothing |
| Delivery.QueueAfterAll | pkg/fanout/engine.go:112-140 | a queue receives the first frames meant for it, as many as have room, in order |
| Delivery.BroadcastAccounting | pkg/fanout/engine.go:98-143 | over any sequence of broadcasts without a reader, sent is the sum of min(free, wanted) and the rest is counted as dropped |
| Fanout.ChannelManager.Create | pkg/fanout/channel.go:20-26 | the subscriber gets an empty queue |
| Fanout.ChannelManager.TrySend | pkg/fanout/engine.go:131-139 | the frame is queued iff there are fewer than 1024, and nothing else changes |
| Fanout.ChannelManager.Receive | pkg/transport/ws/ws.go:187-195 | the reader takes the oldest frame of that queue, and nothing else changes; from an empty queue nothing |
| Fanout.ChannelManager.Remove | pkg/fanout/channel.go:35-42 | only that channel goes, closed with the frames still in it, and an unknown subscriber is no error |
| Fanout.CoveringFinds | pkg/fanout/engine.go:17-53 | a cell's list has exactly the live subscribers that cover the cell, none twice |
| Fanout.RemoveFirstAt | pkg/fanout/engine.go:64-69 | cutting out the first match is the loop's append of the two halves, and a list without a match stays |
| Fanout.RemoveFirstIsWithout | pkg/fanout/engine.go:63-71 | removing the first match suffices, as no list has a subscriber twice |
| Fanout.SubscribedConsistent | pkg/fanout/engine.go:34-53 | after a subscription some order of arrival explains all cell lists, subscriptions and channels iff the id was not live or covered no cell |
| Fanout.SubscribedWellFormed | pkg/fanout/engine.go:34-53 | the same for the order of arrival that the model keeps |
| Fanout.UnsubscribedWellFormed | pkg/fanout/engine.go:55-77 | they stay consistent when a subscriber leaves |
| Fanout.OfferedCovering | pkg/fanout/engine.go:98-142 | offering a batch to the cell's list is offering it to every live subscriber |
| Fanout.FanoutEngine.constructor | pkg/fanout/engine.go:20-28 | a new engine has no subscription, no queue and an empty list for each of the 256 cells |
| Fanout.FanoutEngine.Subscribe | pkg/fanout/engine.go:34-53 | subscription, index and channel are added together; for some order of arrival the index stays the live coverers in that order, each once, iff the id was not live or covered no cell |
| Fanout.FanoutEngine.Unsubscribe | pkg/fanout/engine.go:55-77 | removal in place from every cell's list leaves the others in arrival order; channel keys equal subscription keys, and the channel is closed |
| Fanout.FanoutEngine.Follow | pkg/fanout/engine.go:79-88 | the entity joins the followed set, and nothing else changes |
| Fanout.FanoutEngine.Unfollow | pkg/fanout/engine.go:90-96 | the entity leaves the followed set if there is one |
| Fanout.FanoutEngine.Broadcast | pkg/fanout/engine.go:98-143 | each live coverer that wants a record gets one frame if its queue has room; the result counts those, the counter the others |
| Fanout.BuildFrame | pkg/fanout/engine.go:114-129 | the frame is the encoding of the wanted records in order |
| Multi.GroupedFinds | pkg/fanout/engine.go:150-154 | a record is in the group of a cell iff it is given and its key is that cell |
| Multi.GroupedListing | pkg/fanout/engine.go:150-154 | grouping the records of all cells of a well-placed grid gives each cell that holds something its own list back |
| Multi.OrderDoesNotMatter | pkg/fanout/engine.go:156-160 | every order of the groups gives the same sent and dropped totals |
| Multi.BroadcastMulti | pkg/fanout/engine.go:149-161 | returns the sum over subscribers of min(free slots, cells with a record it wants), and counts the rest as dropped |
| Pipeline.StepAgrees | pkg/engine/pipeline.go:31-70 | a packet or tick keeps grid and positions in agreement, and a seed does iff it stays in the cell or is new |
| Pipeline.RunAgrees | pkg/spatial/grid.go:30-63 | after any run of packets, ticks and allowed seeds the grid agrees with the last positions |
| Pipeline.LastIsGlobalMap | pkg/spatial/reference_test.go:9-24 | the last positions are what the reference router holds after the accepted packets and the seeds |
| Pipeline.PacketOutcome | pkg/engine/pipeline.go:31-70 | after any run: a packet is dropped iff 50 of its class came since the tick or it repeats the last position's numbers; if not, position, grid, events, its cell's counter and the routed count change as they should |
| Pipeline.EventsCounted | pkg/engine/pipeline.go:54-55 | a move fires one event for each fence that is indexed at the cell into which the grid puts the packet and that holds its latitude and longitude but not the last ones, or the reverse |
| Pipeline.PacketsAccounted | pkg/engine/pipeline.go:31-70 | every packet is counted once, as routed or as dropped |
| Pipeline.FiftyPerTick | pkg/engine/pipeline.go:35-38 | over any run, exactly min(50, arrivals) packets of each class modulo 1024 are admitted since the last tick |
| Pipeline.RunAbsorbs | pkg/engine/pipeline.go:66-67 | without seeds, the counter of every entity's current cell has been given its id |
| Pipeline.CountedIffRoutedInto | pkg/engine/pipeline.go:66-67 | over any run, a cell's counter has been given exactly the ids of the packets routed into the cell |
| Pipeline.CountedIffRouted | pkg/engine/pipeline.go:66-67 | with allowed seeds, the current cell's counter holds an entity's id if any packet of it was routed, and otherwise no counter does |
| Pipeline.RunHome | pkg/spatial/grid.go:30-63 | after every run, seeds into other cells included, each entity is in the shard of its last position with exactly that position |
| Pipeline.DuplicateDropIsTransparent | pkg/engine/pipeline.go:47-67 | after any run, routing a dropped duplicate in full would fire no event, change positions and grid only in the sign of a zero, and change no register iff the id's register has reached its rank; it has if the counter holds the id, which it does iff some packet of the entity was routed into the cell |
| Pipeline.SeededDuplicateIsNotCounted | pkg/engine/callbacks.go:41-55 | a run without a routed packet: after a seed alone, the repeated packet is dropped and routing it would have changed a register |
| Engines.Engine.constructor | pkg/engine/engine.go:43-99 | a new engine is in the initial state, with no fences and no subscribers, and all its parts are new |
| Engines.Engine.ProcessPacket | pkg/engine/pipeline.go:31-70 | the composed classes do to the engine's state what one packet of the sequential pipeline does; a routed packet fires one event for each fence that reports it |
| Engines.Engine.RoutePacket | pkg/engine/pipeline.go:52-69 | though prev is overwritten in place at the end, delete and events use the position from before |
| Engines.Engine.SeedPosition | pkg/engine/callbacks.go:41-55 | position and grid get the seed, and nothing is deleted |
| Engines.Engine.BroadcastCell | pkg/engine/pipeline.go:90-100 | skipping a cell without subscribers or records is a broadcast that nobody takes |
| Engines.Engine.BroadcastTick | pkg/engine/pipeline.go:89-101 | the fanout has taken one batch for each of the 256 cells, with the records of every subscribed cell |
| Engines.Engine.Tick | pkg/engine/pipeline.go:82-84 | the limiter is reset, the fanout takes the batches of a listing of every subscribed cell, and if grid and positions agree every queue has grown by well-formed frames for exactly the visible positions, as far as there was room |
| Engines.CircleEvents | pkg/geofence/fence.go:23-29 | with one registered circle: an event iff the cell is one of those around the circle and exactly one of the two positions is at a distance of at most the radius |
| Engines.Perform | pkg/engine/pipeline.go:26 | a packet, seed or tick on the heap is that step of the sequential pipeline, and keeps fences and subscriptions |
| Engines.Replay | pkg/engine/pipeline.go:12-29 | a new engine with any fences, fed by one worker, is where the sequential pipeline's run is |
| Ticks.DecodeFrames | pkg/engine/pipeline.go:89-101 | a subscriber's frames of a tick decode to the wanted records of its cells in order of the cells |
| Ticks.FramesBound | pkg/engine/pipeline.go:90-99 | a subscriber is sent at most one frame per cell it covers |
| Ticks.HeardIsVisible | pkg/engine/pipeline.go:89-101 | those records are exactly the last positions that the subscription covers and wants, each once |
| Ticks.TickDelivers | pkg/engine/pipeline.go:89-101 | end to end for one tick: the frames appended are a prefix of these, and all of them iff there are enough free slots |
| Ticks.CellsPartition | pkg/spatial/grid.go:158-185 | the records of the 256 cells together list every entity exactly once |
| Sessions.RunSane | pkg/fanout/engine.go:34-143 | after every run lists, subscriptions and channels are consistent |
| Sessions.QueueHoldsFramesSince | pkg/fanout/engine.go:98-143 | over any run of packets, seeds, ticks, arrivals, follows and departures, a live queue that nobody reads holds the first 1024 frames of the ticks since that subscription began |
| Sessions.QueueIsFifo | pkg/fanout/engine.go:131-139 | with readers too: what a live subscriber has read, followed by what waits in its queue, is what was sent to it since it joined, in order |
| Sessions.SubscriptionSince | pkg/fanout/engine.go:34-96 | after any run, a live subscriber covers the cells it joined for, and wants an entity iff it has followed nothing since or its latest follow or unfollow of it is a follow |
| Sessions.PipeRuns | pkg/engine/pipeline.go:12-29 | whatever subscribers do, positions, grid and counters are those of the packets, seeds and ticks alone |
| Sessions.TickTellsPositions | pkg/engine/pipeline.go:80-101 | each tick of a run with allowed seeds adds for each live subscriber frames that decode to exactly the reference router's positions that it covers and wants at the time, each once |
| Sessions.TickTellsRecords | pkg/engine/pipeline.go:80-101 | record by record: those of the entities that the reference router has in a cell the subscriber joined for, and that it follows or has followed nothing, with the router's latitude and longitude |
| Services.ServeSubscriber | pkg/engine/callbacks.go:10-39 | subscribing with a fresh id, reading, leaving, following and unfollowing on the heap are those events of the session |
| Services.Handle | pkg/engine/callbacks.go:10-55 | any request changes the composed engine as its event changes the session |
| Services.Serve | pkg/transport/ws/ws.go:118-158 | a new engine given any requests, each connection with the next id of the counter, goes through a run of the session, so that all of the above holds of it |
| Machine.NextValid | pkg/engine/pipeline.go:40-64 | every step keeps each pointer leading to a packet of its own entity |
| Machine.LastAfter | pkg/engine/pipeline.go:57-64 | only the locked write and the start of a seed change a last position |
| Machine.StepIsLocal | pkg/engine/pipeline.go:31-70 | a worker's step changes grid, pointers and workers at its own entity only |
| Races.StepKeepsPlacement | pkg/spatial/grid.go:40-63 | every step of every worker keeps each entry in the shard of its coordinate and the stripe of its id |
| Races.StepKeepsTicker | pkg/spatial/grid.go:158-185 | counting and reading stripe by stripe among moving workers gives records of the cell only, no entity twice |
| Races.StepAccounts | pkg/engine/pipeline.go:31-70 | every step keeps routed + dropped + in hand equal to the packets begun |
| Races.LimiterInOrder | pkg/engine/pipeline.go:35 | in every interleaving the limiter has counted just what the sequential run of the packets begun has |
| Races.EveryInterleaving | pkg/engine/pipeline.go:31-70 | all of this over every interleaving, and no entity with a position is missing unless a worker is about to insert it |
| Races.NoneLost | pkg/engine/pipeline.go:52-64 | with no worker busy the grid holds exactly the entities that have a position |
| Races.TwoInFlightTwoShards | pkg/engine/pipeline.go:43-64 | whenever no worker is busy, any two admitted packets of one entity with different coordinates, neither a duplicate, have a run after which the grid disagrees with the last positions: it holds the second where the first is stored, and for two cells it holds both, so that it agrees with no map |
| Races.FirstPacketsTwoShards | pkg/engine/pipeline.go:43-52 | such a run for the first two packets of an entity, into cells 218 and 37 |
| Races.FarApart | pkg/spatial/hash.go:5-21 | the cells of the doubles 64 and -64 |
| InFlight.StepSound | pkg/engine/pipeline.go:31-70 | every step keeps the invariant that names each entity's pending delete or insert |
| InFlight.OneInFlight | pkg/engine/pipeline.go:31-70 | over every interleaving with at most one packet per entity in flight, an entity with none is in exactly the shard of its last position |
| Serializability.StepLinked | pkg/engine/pipeline.go:31-70 | every step keeps the link to the sequential run: positions, counters with what workers owe, counted ids |
| Serializability.AgreedGrid | pkg/spatial/grid.go:11-18 | agreement with a map determines the whole grid |
| Serializability.RunLinked | pkg/engine/pipeline.go:31-70 | the link holds at every moment of every such interleaving |
| Serializability.Serializable | pkg/engine/pipeline.go:12-70 | with no worker busy, positions, grid, limiter, counters and all registers are those of the packets taken one at a time |
| QuietTicks.StepShows | pkg/spatial/grid.go:158-185 | while no worker is busy with an entity, what the ticker has counted and read shows it as it is |
| QuietTicks.QuietEntityReported | pkg/engine/pipeline.go:89-101 | a tick that overlaps other packets reports an entity that is quiet meanwhile iff it is in the cell, once and where it is |
| QuietTicks.QuietEntityNotSkipped | pkg/spatial/grid.go:167-169 | a cell is skipped as empty only if no such entity is in it |
| EndToEnd.TickAfterInterleaving | pkg/engine/pipeline.go:31-101 | a tick after any such interleaving delivers in well-formed frames, as far as there is room, exactly the reference router's positions that each subscriber covers and wants |

## Left out

- Cells.ShardKey: does not model the overflow of the conversion to int32, which only coordinates beyond 10^10 degrees reach.
- Cells.ShardsForRadius: the cosine is a parameter other than 0, coordinates are exact reals, so rounding, NaN and infinities are not captured.
- CountMin.EstimateIsExact: is stated for fewer than 2^32 adds between two resets; beyond that the counters wrap.
- Pipeline.PacketOutcome: for the same reason, is stated for fewer than 2^32 - 1 packets since the last tick.
- HyperLogLogs.HyperLogLog.Estimate: is computed in exact arithmetic, so rounding of the sum is not captured.
- GridQueries.QueryCircle: takes the great-circle distance as a parameter; that a distance below the radius implies being in the box is not claimed, and the variant returning coordinates is not modelled.
- Polygons.Contains: uses exact reals, so rounding of the division is not captured.
- Grids.SpatialGrid.Route: the nested shard and stripe arrays are one array of 4096 slots.
- Fences.EvaluateMove: time stamps and the callbacks fired for each event are not modelled; an event carries coordinates as numbers.
- Fences.Store.Register: a fence is a record of its answers to the interface's four questions.
- Fanout.FanoutEngine.Subscribe: with a live id that covers some cell, which the connection counter never supplies, the id stays in its old lists; what later calls do to such lists is not modelled.
- Services.Serve: is stated for fewer than 2^64 requests, so that the counter of connections does not wrap, and for one worker; a reader of a channel that was closed, and the frames left in it, are not modelled.
- Fanout.FanoutEngine.Broadcast: subscriptions and queues are values in map fields, so a broadcast that overlaps an unsubscribe, aliasing of a subscription and a send on a channel that is closed meanwhile are not captured.
- Multi.BroadcastMulti: the key of a record with a NaN or an infinity is a parameter, as Go leaves its conversion to the machine.
- Engines.Engine.ProcessPacket: the 64-bit counters do not wrap.
- Egress.EgressBuffer.Pooled: the pool itself is not modelled; a buffer from it has arbitrary old contents.
- Machine.NextValid: the step machine has no subscriber threads, and its ticker takes any cell in any order without asking for subscribers or sending; ticks that send are in Engine.dfy and Ticks.dfy.
- Fences.NewPolygon: without vertices the source's centre is NaN; here it can be any point.
- InFlight.OneInFlight: assumes at most one packet of each entity in flight and seeds that stay in the cell; Races.TwoInFlightTwoShards and Grids.RouteAgrees show what happens otherwise.
- The UDP listener, WebSocket server, HTTP, configuration, logging and metrics: input and output around the model.
- Coordinate, packet and subscription decoding copy fields from fixed offsets of a datagram or message; they are not modelled, and packets enter the model decoded.
- The engine's callbacks for subscribing, following and disconnecting only call the fanout methods modelled here; Service.dfy calls those.
