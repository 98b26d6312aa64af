# Proofs about a LiDAR-inertial odometry stack

This project models the parts of Super-LIO and of the Hesai driver whose behaviour is more than
plumbing, and proves what they keep, compute and preserve. Every file is plain Dafny;
`dafny verify dfyconfig.toml` checks all of it.

The code that changes things in place is written that way: classes with the source's fields,
arrays and loops, each method tied to a function of the old state. The lemmas are about those
functions. Concurrency is a step relation. Coordinates, distances and time stamps are reals.

## What is modelled

**`robin_hood::detail::Table`** (RobinHoodLayout, RobinHoodSteps, RobinHoodBounds, RobinHoodCourse,
Words, RobinHoodTable). One info byte a slot packs probe distance and hash bits; there is no wrap-around
but an overflow tail behind the home slots and a sentinel byte. The layout invariant says what every
byte is, and that a chain never drops by more than one step. All operations refine a finite map:
lookups with their early exit, insertion by shifting up, erasure by shifting down, halving of all
bytes eight at a time, growth and rehashing. Bytes never overflow and the scan for an empty slot
never passes the sentinel. An insertion can only throw when no byte has room and no hash bit is
left, that is when some stretch of home slots is the home of 126 keys more than it has slots. A
growth throws exactly if, in the order of the old slots, a key comes after keys that are so near in
the new table, and it then loses that key. So an insertion never throws with at most 126 keys,
whatever their hashes, and always for a further key once 127 keys share a hash; it loses bindings
only from 128 keys on. Both numbers are the exact bounds, and both are reached in runs. Where one
growth is not enough, each further one is decided by the key in the last slot.

**`tsl::detail_robin_hash::robin_hash`** (PowersOfTwo, GrowthPolicy, RobinHashLayout,
RobinHashReach, RobinHash). The circular table, insertion by displacement, erasure by backward
shift, rehash by load, by probe length and by flag, with stored 32-bit hashes. It refines a finite
map, too. Its growth policy rounds up to the least power of two, and its mask is a remainder.
Distances are cut to 16 bits where the source cuts them, and none is ever changed by that, whatever
the hash: the probe limit, the growth flag and the doubling together keep them below 16449.

**The voxel map** (VoxelGeometry, KnnTables, KnnFlat, KnnOrder, KnnHeap, KnnSearch, VoxelCache,
VoxelContents, VoxelPoints, VoxelReset, OctVoxMap, KnnRuns). The least-recently-used cache of voxels,
list and index over the same nodes; which points a sub-voxel takes in; the running means of eight sub-voxels; the table-driven search for five nearest
points. The tables are compared with the geometry they stand for, entry by entry. The main result is
that a search that stops early has found five nearest points of the whole map, and that this holds
if and only if the sub-voxel side is at least a quarter, for which the thresholds were made: for any
smaller side a map is filled and searched with a wrong result. Saving
and loading the map keeps all points, if and only if no earlier load is still holding back inserts.

**The voxel filter** (PackedKey, VoxelGrid). One point per occupied voxel, the first of those
nearest to the centre, the middle of the voxel's box, if and only if no index is below -1000 or
above 31767: the packed key tells voxels apart there and no further. Its index is the table above.

**Synchronisation and time** (Sync, Timing). Which IMU samples go with which scan, over whole runs,
and what the filter's stamps do with them: the steps tile the time between observations, and what no
sample covers is accounted for. Which two states each point of a scan is moved by, and exactly when
there are two; a run in which there is only one and the read after it leaves the states.

**The frame pipeline** (FramePipeline, FrameRuns, FrameOrder, RingSdk, FrameBuffer). The receiver, the parser
thread and its workers, under every interleaving: frames are exact in all runs in which none has to
be given up, and after one was, exactly if no packet had been left under way. The ring; compaction
in place; clouds of several frames.

**Serial frames** (Crc32, CrcPolynomial, CrcWords, SerialFrame). The table-driven CRC-32 against the
bit-serial definition and against division by its polynomial,
the frame format both ways, and the errors the CRC detects.

## What the code does

Some facts a reader might not expect; the model follows the code in each.

- `OctVoxMap` evicts when the list reaches the capacity, so it holds at most capacity - 1 voxels.
- `resetMap` during the hold-back of an earlier reset clears the map and then skips its own insert.
- `orders_min_dis2` does not depend on the resolution. Below a resolution of 0.5 the early stop
  can miss nearer points.
- `sync_measure` takes at most one sample stamped exactly at the scan end, and none if no sample
  is before it.
- `Predict` skips the time between the last sample of a group and the scan end, unless they
  coincide.
- `SerialStreamDecode` takes the four bytes before the CRC for random bytes in upgrade frames too,
  which have none.
- When a frame does not end, the driver clears its buffers and, after a pause, zeroes the count of
  computed packets. A packet still in a thread's hands then is counted for the next frame, which is
  published with that packet in place of its own.
- robin_hood keeps at most 127 keys of one hash: with a constant hash the 128th insertion throws,
  after 256 attempts. With one more key behind them in the table, the growth before the next
  insertion throws half-way and the keys not yet moved are lost.
- `sync_measure` can deliver a group without samples. Then there is only one state, and a point that
  is not after it makes `Propagation_Undistort` read the state behind the last.
- A point stamped with the first of several states is moved with a weight of 0 or less, or divided
  by zero if the first two have the same time.
- A voxel index below -1000, negative after the offset, fills the high bits of the packed key, so that
  voxels are mixed up.
- The comment at `next` in robin_hood.h speaks of wrapping around at the end; the table has a tail
  instead and never wraps.
- `CRCCalc` never sets the flag that would keep its table, so it fills the table at every call.

## Model

| member | source | states |
|---|---|---|
| `RobinHoodLayout.InfoClosedForm` | src/Super-LIO/src/super_lio/include/OctVoxMap/tsl/robin_hood.h:1348-1366 | the byte of a key d slots behind its home is inc * (d + 1) plus its hash bits, which is what stepping with next computes |
| `RobinHoodLayout.StoredByte` | src/Super-LIO/src/super_lio/include/OctVoxMap/tsl/robin_hood.h:1348-1366 | in every state that keeps the layout, an occupied byte is inc * (distance + 1) + hash bits, at most 255, the hash bits are below inc, and the distance is below 127 |
| `RobinHoodLayout.BytesFit` | src/Super-LIO/src/super_lio/include/OctVoxMap/tsl/robin_hood.h:2318-2339 | every info byte, sentinel and padding included, fits in eight bits |
| `RobinHoodLayout.SentinelStops` | src/Super-LIO/src/super_lio/include/OctVoxMap/tsl/robin_hood.h:2328-2336 | the sentinel 1 and the padding behind it are smaller than any byte a probe carries: they end every probe and match none |
| `RobinHoodLayout.ProbeStops` | src/Super-LIO/src/super_lio/include/OctVoxMap/tsl/robin_hood.h:1427-1442 | a probe whose byte exceeds the stored byte may stop: the key is in no slot at all, not even beyond |
| `RobinHoodLayout.ContentsIs` | src/Super-LIO/src/super_lio/include/OctVoxMap/tsl/robin_hood.h:1419-1446 | the map a layout stands for is the one map with exactly the bindings of its occupied slots |
| `RobinHoodSteps.InsertStep` | src/Super-LIO/src/super_lio/include/OctVoxMap/tsl/robin_hood.h:1376-1394 | writing the new byte and shifting a run up by one slot keeps the layout and adds exactly the one binding |
| `RobinHoodSteps.EraseStep` | src/Super-LIO/src/super_lio/include/OctVoxMap/tsl/robin_hood.h:1396-1414 | shifting a run down until a slot that is empty or at home keeps the layout, drops exactly the one binding and keeps the room for one more probe step |
| `RobinHoodSteps.HalvePreservesMeaning` | src/Super-LIO/src/super_lio/include/OctVoxMap/tsl/robin_hood.h:2399-2421 | the halved bytes are the bytes of the same keys under the halved increment and the incremented hash shift, occupied slots stay occupied, and every byte has room for one more increment |
| `RobinHoodSteps.HalveStep` | src/Super-LIO/src/super_lio/include/OctVoxMap/tsl/robin_hood.h:2399-2425 | halving the bytes leaves the contents as they are |
| `RobinHoodSteps.ScanStaysInside` | src/Super-LIO/src/super_lio/include/OctVoxMap/tsl/robin_hood.h:2379-2383 | from any home slot an empty slot is found before the sentinel, because fewer keys than tail slots are stored or the tail is longer than any distance |
| `Words.HalveEight` | src/Super-LIO/src/super_lio/include/OctVoxMap/tsl/robin_hood.h:2415-2419 | the 64-bit load, shift, mask with 0x7f7f7f7f7f7f7f7f and store halve all eight bytes, none into its neighbour |
| `RobinHoodTable.Table.constructor` | src/Super-LIO/src/super_lio/include/OctVoxMap/tsl/robin_hood.h:945-948 | an empty table, whose hash is the one mixed with the multiplier |
| `RobinHoodTable.Table.keyToIdx` | src/Super-LIO/src/super_lio/include/OctVoxMap/tsl/robin_hood.h:1348-1360 | masking the mixed hash gives the home slot, its remainder by the number of home slots, and the first byte of a key |
| `RobinHoodTable.Table.findIdx` | src/Super-LIO/src/super_lio/include/OctVoxMap/tsl/robin_hood.h:1419-1446 | the search, two probes a round, returns a slot that holds the key exactly when the key is stored, else the end |
| `RobinHoodTable.Table.probe` | src/Super-LIO/src/super_lio/include/OctVoxMap/tsl/robin_hood.h:1427-1432 | one probe either hits the key or moves on without having missed it |
| `RobinHoodTable.Table.shiftUp` | src/Super-LIO/src/super_lio/include/OctVoxMap/tsl/robin_hood.h:1376-1394 | the run moves up one slot, its bytes grow by one increment without overflow, and the table asks for growth exactly when one of them has no room for another |
| `RobinHoodTable.Table.shiftDown` | src/Super-LIO/src/super_lio/include/OctVoxMap/tsl/robin_hood.h:1396-1414 | the run behind the freed slot moves down one slot up to a slot that is empty or at home |
| `RobinHoodTable.Table.erase` | src/Super-LIO/src/super_lio/include/OctVoxMap/tsl/robin_hood.h:2050-2068 | removes exactly the key and says whether it was there |
| `RobinHoodTable.Table.nextWhileLess` | src/Super-LIO/src/super_lio/include/OctVoxMap/tsl/robin_hood.h:1368-1373 | stops at the first slot whose byte does not exceed the probe's |
| `RobinHoodTable.Table.findEmpty` | src/Super-LIO/src/super_lio/include/OctVoxMap/tsl/robin_hood.h:2370-2383 | the insertion slot and an empty slot behind it, inside the table |
| `RobinHoodTable.Table.makeSpot` | src/Super-LIO/src/super_lio/include/OctVoxMap/tsl/robin_hood.h:2370-2394 | opens a slot for an absent key: with the node written there the table holds the old bindings and the new one, and it asks for growth exactly when some byte is left without room |
| `RobinHoodTable.Table.try_increase_info` | src/Super-LIO/src/super_lio/include/OctVoxMap/tsl/robin_hood.h:2399-2425 | succeeds if and only if the increment exceeds 2; then all bytes are halved, increment and shift follow, the limit on elements is restored, and the contents are unchanged |
| `RobinHoodTable.Table.halveAll` | src/Super-LIO/src/super_lio/include/OctVoxMap/tsl/robin_hood.h:2415-2421 | halves every byte of the table and restores the sentinel |
| `RobinHoodTable.Table.initData` | src/Super-LIO/src/super_lio/include/OctVoxMap/tsl/robin_hood.h:2318-2339 | an empty table of the given size |
| `RobinHoodTable.Table.insert_move` | src/Super-LIO/src/super_lio/include/OctVoxMap/tsl/robin_hood.h:1450-1491 | adds a binding that is not there; throws if and only if the table asks for growth and the increment is down to 2, and then changes nothing |
| `RobinHoodTable.Table.rehashPowerOfTwo` | src/Super-LIO/src/super_lio/include/OctVoxMap/tsl/robin_hood.h:2216-2245 | throws if and only if, in the order of the old slots, some key comes after keys that are too near in the new table, that is 126 more of them than home slots in some stretch; otherwise the table of the new size holds the same bindings. That takes 128 keys; what remains after a throw is a strict part of the bindings |
| `RobinHoodTable.Table.increase_size` | src/Super-LIO/src/super_lio/include/OctVoxMap/tsl/robin_hood.h:2428-2455 | makes room by halving, by a new multiplier or by doubling, with unchanged contents; throws if and only if neither test avoids a rehash and that rehash meets a key behind keys that are too near; if the keys are not too near afterwards the insertion comes nearer with every call |
| `RobinHoodTable.Table.rehashInPlace` | src/Super-LIO/src/super_lio/include/OctVoxMap/tsl/robin_hood.h:2445-2450 | the contents survive a change of the multiplier, which moves every key to another home, if and only if no key comes after keys that are too near under the next multiplier |
| `RobinHoodTable.Table.insertKeyPrepareEmptySpot` | src/Super-LIO/src/super_lio/include/OctVoxMap/tsl/robin_hood.h:2347-2397 | finds the key, or prepares a slot after which writing the node adds exactly the binding; its attempts suffice if the keys are not too near after one growth, as at most 126 keys always are, whatever the hash; with 127 keys of one hash they never do; it loses bindings if the first growth throws; otherwise the growths go through the settings that increase_size leads to, up to the first one with the keys far enough apart, unless one throws before or 256 attempts are used up, and each of them throws if and only if the keys without the one in the last slot are too near for it |
| `RobinHoodTable.Table.emplace` | src/Super-LIO/src/super_lio/include/OctVoxMap/tsl/robin_hood.h:1796-1822 | inserts exactly when the key is absent and changes nothing else; cannot throw if the keys are not too near after one growth, as at most 126 keys always are, whatever their hashes; always throws for an absent key once 127 keys share one hash; loses bindings only from 128 keys on, and whenever the first growth throws; what is left is a strict part; what further growths decide is stated setting by setting, as for insertKeyPrepareEmptySpot |
| `RobinHoodBounds.FewKeysHaveRoom` | src/Super-LIO/src/super_lio/include/OctVoxMap/tsl/robin_hood.h:1376-1394 | at the smallest increment a table of at most 126 keys has room in every byte |
| `RobinHoodBounds.CrowdHasNoRoom` | src/Super-LIO/src/super_lio/include/OctVoxMap/tsl/robin_hood.h:1376-1394 | 127 keys with one hash have brought the increment down to 2 and leave some byte without room |
| `RobinHoodBounds.CrowdBounds` | src/Super-LIO/src/super_lio/include/OctVoxMap/tsl/robin_hood.h:1450-1491 | over all hashes and all tables of n keys: none holds 127 keys of one hash if and only if n <= 126, and none is doomed to lose a binding when it grows if and only if n <= 127 |
| `RobinHoodBounds.DenseIsFull` | src/Super-LIO/src/super_lio/include/OctVoxMap/tsl/robin_hood.h:1376-1394 | a table has no room in some byte and no hash bit left to give up if and only if some stretch of home slots is the home of 126 keys more than it has slots |
| `RobinHoodBounds.FirstHomeIsDoomed` | src/Super-LIO/src/super_lio/include/OctVoxMap/tsl/robin_hood.h:2216-2235 | a table in which 127 keys of one hash are at home in the first slot, and some other key is not, is doomed: the next growth throws, whatever the multiplier and the size |
| `RobinHoodBounds.AllowsFourFifths` | src/Super-LIO/src/super_lio/include/OctVoxMap/tsl/robin_hood.h:2136-2144 | a table may hold four fifths of its slots, rounded down, and above a hundredth of 2^64 slots four fifths of the whole hundreds |
| `RobinHoodBounds.TailIs` | src/Super-LIO/src/super_lio/include/OctVoxMap/tsl/robin_hood.h:2152-2155 | behind the home slots there is one slot for every element allowed, but at most 255; the first table has 8 home slots, 14 slots and room for 6 |
| `RobinHoodCourse.LastDecides` | src/Super-LIO/src/super_lio/include/OctVoxMap/tsl/robin_hood.h:2216-2235 | of a table with no hash bit left, the key in the last slot is at home behind no other, and moving the slots to any setting throws if and only if the other keys are too near there |
| `RobinHoodCourse.FirstFitDecides` | src/Super-LIO/src/super_lio/include/OctVoxMap/tsl/robin_hood.h:2347-2397 | after a first growth that did not throw: if the keys are too near under all 255 further settings the insertion fails; if they are not under one of the first 254 it succeeds, or a growth before that one throws |
| `RobinHoodCourse.NextMultiplier` | src/Super-LIO/src/super_lio/include/OctVoxMap/tsl/robin_hood.h:2458-2462 | each multiplier differs from the one before and is odd; the second is 0x899d73fc350bd8a7 |
| `RobinHoodTable.LosesOne` | src/Super-LIO/src/super_lio/include/OctVoxMap/tsl/robin_hood.h:2347-2397 | with the hashes 1 for one key and 0 for all others, that key and 127 others are inserted without a throw, and the insertion of any further key then loses a binding |
| `RobinHoodTable.OneTooMany` | src/Super-LIO/src/super_lio/include/OctVoxMap/tsl/robin_hood.h:2347-2397 | with one hash for all keys, 127 insertions succeed and the next throws, whatever the hash, with the table intact |
| `RobinHoodTable.Table.clear` | src/Super-LIO/src/super_lio/include/OctVoxMap/tsl/robin_hood.h:1682-1700 | an empty table of the same size |
| `RobinHoodTable.Table.reserve` | src/Super-LIO/src/super_lio/include/OctVoxMap/tsl/robin_hood.h:2193-2213 | the contents are unchanged and the elements asked for are within the limit; it throws if and only if no size_t is large enough, with nothing changed, or the least one that is makes a rehash that meets a key behind keys that are too near, which leaves a strict part of at least 128 keys |
| `RobinHoodTable.LargerAllowsMore` | src/Super-LIO/src/super_lio/include/OctVoxMap/tsl/robin_hood.h:2136-2143 | a larger power of two never allows fewer elements |
| `RobinHoodTable.SizeFor10000` | src/Super-LIO/src/super_lio/include/OctVoxMap/tsl/robin_hood.h:2193-2206 | the least size that reserve finds for 10000 elements is 16384, with room for 13107 |
| `RobinHoodTable.Table.sizeFor` | src/Super-LIO/src/super_lio/include/OctVoxMap/tsl/robin_hood.h:2193-2200 | the least power of two that allows the elements asked for, and 0 exactly when no size_t does |
| `RobinHashLayout.ProbeStops` | src/Super-LIO/src/super_lio/include/OctVoxMap/tsl/robin_hash.h:1110-1128 | a probe farther from home than the bucket it meets may stop: the key is in no bucket |
| `RobinHashLayout.Chain` | src/Super-LIO/src/super_lio/include/OctVoxMap/tsl/robin_hash.h:1130-1159 | going back from a bucket at distance d, the distances fall by at most one a step |
| `RobinHashLayout.NotOnceAround` | src/Super-LIO/src/super_lio/include/OctVoxMap/tsl/robin_hash.h:1110-1128 | with an empty bucket in the array no stored distance reaches the bucket count: no probe goes once around |
| `RobinHashLayout.WriteKeepsRobin` | src/Super-LIO/src/super_lio/include/OctVoxMap/tsl/robin_hash.h:1230-1262 | an entry that takes the bucket of one closer to home keeps the invariant of the array |
| `RobinHashLayout.CarryOther` | src/Super-LIO/src/super_lio/include/OctVoxMap/tsl/robin_hash.h:1237-1258 | when the carried entry and the bucket's change places no binding is lost, and the other entry is carried on |
| `RobinHashLayout.CarryPlace` | src/Super-LIO/src/super_lio/include/OctVoxMap/tsl/robin_hash.h:1260-1262 | the carried entry in an empty bucket completes the table with all bindings |
| `RobinHashLayout.ShiftOne` | src/Super-LIO/src/super_lio/include/OctVoxMap/tsl/robin_hash.h:1144-1157 | one step of the backward shift keeps all bindings and moves the hole on |
| `RobinHashLayout.EndShift` | src/Super-LIO/src/super_lio/include/OctVoxMap/tsl/robin_hash.h:1141-1159 | the shift ends with the invariant of the array whole again |
| `RobinHash.Create` | src/Super-LIO/src/super_lio/include/OctVoxMap/tsl/robin_hash.h:530-560 | for a request up to the largest bucket count an empty table, whose bucket count is the least power of two that is not below it, 0 for 0; for any larger one the length error |
| `RobinHash.RobinHash.bucket_for_hash` | src/Super-LIO/src/super_lio/include/OctVoxMap/tsl/robin_growth_policy.h:124-126 | the mask takes the remainder by the bucket count |
| `RobinHash.RobinHash.find` | src/Super-LIO/src/super_lio/include/OctVoxMap/tsl/robin_hash.h:1110-1128 | the bucket that holds the key exactly when the key is stored, else the end |
| `RobinHash.RobinHash.erase` | src/Super-LIO/src/super_lio/include/OctVoxMap/tsl/robin_hash.h:1130-1159 | removes exactly the key and says whether it was there |
| `RobinHash.RobinHash.erase_from_bucket` | src/Super-LIO/src/super_lio/include/OctVoxMap/tsl/robin_hash.h:1130-1159 | removes exactly the bucket's key, by the backward shift |
| `RobinHash.RobinHash.insert_value_impl` | src/Super-LIO/src/super_lio/include/OctVoxMap/tsl/robin_hash.h:1230-1262 | displaces entries closer to home until an empty bucket is found: the old bindings and the new one |
| `RobinHash.RobinHash.insert_value_on_rehash` | src/Super-LIO/src/super_lio/include/OctVoxMap/tsl/robin_hash.h:1301-1320 | the same walk from the ideal bucket on |
| `RobinHash.RobinHash.homeOnRehash` | src/Super-LIO/src/super_lio/include/OctVoxMap/tsl/robin_hash.h:407-419 | the bucket from the stored 32-bit hash is that from the full hash whenever the stored one is used |
| `RobinHash.RobinHash.rehash_impl` | src/Super-LIO/src/super_lio/include/OctVoxMap/tsl/robin_hash.h:1264-1288 | the table of the new size holds the same bindings |
| `RobinHash.RobinHash.rehash_on_extreme_load` | src/Super-LIO/src/super_lio/include/OctVoxMap/tsl/robin_hash.h:1329-1350 | moves to twice as many buckets exactly for the flag, a probe beyond 8192 or a table half full, and throws instead with more than 2^62 buckets |
| `RobinHash.RobinHash.insert_impl` | src/Super-LIO/src/super_lio/include/OctVoxMap/tsl/robin_hash.h:1162-1210 | inserts exactly when the key is absent and changes no other binding; rehashes exactly for the growth flag, a first probe beyond 8192 or a table half full, and then doubles once unless a later probe is too long again; throws only at the largest size; raises the flag only if it leaves an entry further than 8192 from home; every 16-bit distance on the way is exact |
| `RobinHash.RobinHash.ValidDistsFit` | src/Super-LIO/src/super_lio/include/OctVoxMap/tsl/robin_hash.h:169-169 | in every table that its operations make, whatever the hash, no stored distance exceeds 16448, so none overflows its 16 bits |
| `RobinHash.RobinHash.AtMostHalfFull` | src/Super-LIO/src/super_lio/include/OctVoxMap/tsl/robin_hash.h:1329-1350 | at most half the buckets are taken |
| `RobinHash.RobinHash.StoredHashWillDo` | src/Super-LIO/src/super_lio/include/OctVoxMap/tsl/robin_hash.h:407-419 | the stored 32 bits are used exactly if they give the bucket of every hash, which they do up to 2^32 buckets |
| `RobinHashReach.Reach` | src/Super-LIO/src/super_lio/include/OctVoxMap/tsl/robin_hash.h:1237-1258 | an entry is at most the limit behind the front, beyond which every entry follows one of its own home |
| `RobinHashReach.ShiftedFront` | src/Super-LIO/src/super_lio/include/OctVoxMap/tsl/robin_hash.h:1230-1262 | an insertion moves the front by one bucket at most, and only with an exchange beyond the limit, which asks for growth |
| `RobinHashReach.GrownIsNear` | src/Super-LIO/src/super_lio/include/OctVoxMap/tsl/robin_hash.h:1264-1288 | moving the entries to more buckets never moves the front: a run that came later would hold more keys than the buckets they came from |
| `RobinHashReach.NewKeyFits` | src/Super-LIO/src/super_lio/include/OctVoxMap/tsl/robin_hash.h:1330-1337 | no home ever has more than 8193 keys |
| `RobinHash.RobinHash.clear` | src/Super-LIO/src/super_lio/include/OctVoxMap/tsl/robin_hash.h:668-682 | an empty table |
| `PowersOfTwo.TruncatedBucket` | src/Super-LIO/src/super_lio/include/OctVoxMap/tsl/robin_hash.h:407-419 | cutting a hash to w values does not change its bucket when the bucket count divides w |
| `GrowthPolicy.MaskIsRemainder` | src/Super-LIO/src/super_lio/include/OctVoxMap/tsl/robin_growth_policy.h:124-126 | hash & (n - 1) is hash mod n for every power of two n |
| `GrowthPolicy.is_power_of_two` | src/Super-LIO/src/super_lio/include/OctVoxMap/tsl/robin_growth_policy.h:173-175 | value & (value - 1) is zero, for a value that is not, exactly for the powers of two |
| `GrowthPolicy.round_up_to_power_of_two` | src/Super-LIO/src/super_lio/include/OctVoxMap/tsl/robin_growth_policy.h:156-170 | the shifts and ors give the least power of two that is not below the value |
| `KnnHeap.KNNHeap.constructor` | src/Super-LIO/src/super_lio/include/OctVoxMap/OctVoxMap.hpp:28-30 | an empty heap |
| `KnnHeap.KNNHeap.reset` | src/Super-LIO/src/super_lio/include/OctVoxMap/OctVoxMap.hpp:32-37 | an empty heap again |
| `KnnHeap.KNNHeap.try_insert` | src/Super-LIO/src/super_lio/include/OctVoxMap/OctVoxMap.hpp:45-65 | the heap keeps min(5, n) of the n candidates tried, none twice, leaves out none below max_dist2_, and worst_ marks an entry that attains it, ties and zeros included |
| `KnnHeap.KNNHeap.update_worst_unrolled` | src/Super-LIO/src/super_lio/include/OctVoxMap/OctVoxMap.hpp:68-82 | the comparison tree finds the greatest of the five |
| `KnnHeap.Replace` | src/Super-LIO/src/super_lio/include/OctVoxMap/OctVoxMap.hpp:48-62 | replacing the worst entry by a better candidate leaves out nothing below the new maximum |
| `Nearest.NearestAgree` | src/Super-LIO/src/super_lio/include/OctVoxMap/OctVoxMap.hpp:45-65 | two nearest sets of one size have equally many elements within every radius: their distances agree, whatever the ties |
| `KnnTables.DataMeansDistance` | src/Super-LIO/src/super_lio/include/OctVoxMap/HKNN_list60_gem.h:36-190 | the data bytes of every line are, ascending, exactly the entries whose least possible distance belongs to the group |
| `KnnTables.EntriesDiffer` | src/Super-LIO/src/super_lio/include/OctVoxMap/HKNN_list60_gem.h:18-190 | no two entries denote one offset |
| `KnnTables.EntryOf` | src/Super-LIO/src/super_lio/include/OctVoxMap/HKNN_list60_gem.h:18-190 | every offset that can hold a point closer than three sub-voxel sides has an entry |
| `KnnTables.NeighborIndex` | src/Super-LIO/src/super_lio/include/OctVoxMap/HKNN_list60_gem.h:18-30 | the neighbor table has no voxel twice |
| `KnnFlat.OffsetsFit` | src/Super-LIO/src/super_lio/include/OctVoxMap/HKNN_list60_gem.h:32-190 | the literal offsets 0, 43, 135, 219, 321, 465, 593 cut the flat bytes exactly at the groups |
| `KnnOrder.EntryDenotes` | src/Super-LIO/src/super_lio/include/OctVoxMap/OctVoxMap.hpp:312-360 | mirroring the neighbor and xor-ing the entry denote the query's sub-voxel moved by the mirrored offset, in all octants and at negative indices |
| `KnnOrder.OffsetOfEntry` | src/Super-LIO/src/super_lio/include/OctVoxMap/OctVoxMap.hpp:312-360 | mirroring is its own inverse: a sub-voxel is an entry's if and only if its mirrored offset is the entry's |
| `KnnOrder.NextEntry` | src/Super-LIO/src/super_lio/include/OctVoxMap/OctVoxMap.hpp:339-373 | the visits follow one order in which each offset has one place |
| `KnnOrder.ProgressEntry` | src/Super-LIO/src/super_lio/include/OctVoxMap/OctVoxMap.hpp:347-352 | after an entry the candidates are the occupied sub-voxels with a place up to it, each once |
| `KnnOrder.ProgressAbsent` | src/Super-LIO/src/super_lio/include/OctVoxMap/OctVoxMap.hpp:355-372 | skipping a neighbor voxel that is not in the map misses no stored point |
| `KnnOrder.UnseenIsFar` | src/Super-LIO/src/super_lio/include/OctVoxMap/HKNN_list60_gem.h:10-15 | a stored point the groups up to g have not reached is at least 1, 2, 4, 5, 6, 9 squares of the sub-voxel side away |
| `KnnSearch.ReachedIsExact` | src/Super-LIO/src/super_lio/include/OctVoxMap/OctVoxMap.hpp:306-381 | at any resolution, five entries within the reach of the groups seen, three sides for all six, are five nearest of the whole map |
| `KnnSearch.EarlyStopIsExact` | src/Super-LIO/src/super_lio/include/OctVoxMap/OctVoxMap.hpp:375-378 | a search that stops before its last group has found five nearest of the whole map, for sub-voxels of at least a quarter |
| `KnnSearch.LeftOutIsFar` | src/Super-LIO/src/super_lio/include/OctVoxMap/OctVoxMap.hpp:306-381 | what a search leaves out is no nearer than its worst entry, or beyond the reach of the groups |
| `KnnThresholds.StopsRightFromAQuarter` | src/Super-LIO/src/super_lio/include/OctVoxMap/HKNN_list60_gem.h:10-15 | stopping at the thresholds is right for every map if and only if the sub-voxel side is at least a quarter, that is the resolution at least a half |
| `KnnThresholds.StopsWrong` | src/Super-LIO/src/super_lio/include/OctVoxMap/HKNN_list60_gem.h:10-15 | for every smaller side a map on which the early stop is wrong |
| `KnnSearch.StopsIsEnough` | src/Super-LIO/src/super_lio/include/OctVoxMap/OctVoxMap.hpp:375-378 | the worst of five kept is below a threshold if and only if five of all candidates tried, those from before and the stored points of the groups seen, are |
| `KnnRuns.Filled` | src/Super-LIO/src/super_lio/include/OctVoxMap/OctVoxMap.hpp:264-303 | for every finite world of points, each in its own sub-voxel, and every capacity above their number, a map that stores exactly it, filled by insert |
| `KnnRuns.StopsTooEarly` | src/Super-LIO/src/super_lio/include/OctVoxMap/OctVoxMap.hpp:306-381 | for every sub-voxel side below a quarter a run of insert and getTopK that stops after the first group with five points that are not five nearest |
| `VoxelGeometry.FloorInCell` | src/Super-LIO/src/super_lio/include/OctVoxMap/OctVoxMap.hpp:276-285 | a point lies in the half-open sub-voxel of its index |
| `VoxelGeometry.FloorIs` | src/Super-LIO/src/super_lio/include/OctVoxMap/OctVoxMap.hpp:276-285 | and a point of a half-open sub-voxel has that index |
| `VoxelGeometry.CellsApart` | src/Super-LIO/src/super_lio/include/OctVoxMap/HKNN_list60_gem.h:10-15 | points of two sub-voxels are as far apart as the gaps between them |
| `VoxelGeometry.PartsOfFine` | src/Super-LIO/src/super_lio/include/OctVoxMap/OctVoxMap.hpp:276-285 | voxel and sub-voxel of an index can be told from it, at negative indices too |
| `VoxelCache.RecentIsByLastTouch` | src/Super-LIO/src/super_lio/include/OctVoxMap/OctVoxMap.hpp:287-301 | the list of the distinct keys of a history, by last touch, latest first |
| `VoxelCache.TouchKeepsRecent` | src/Super-LIO/src/super_lio/include/OctVoxMap/OctVoxMap.hpp:287-301 | one touch of a map that holds the last capacity - 1 distinct keys leaves it holding them |
| `VoxelCache.HoldsCapacityLessOne` | src/Super-LIO/src/super_lio/include/OctVoxMap/OctVoxMap.hpp:287-301 | the map holds as many voxels as have been touched, but at most the capacity less one |
| `VoxelContents.NewMeanInCell` | src/Super-LIO/src/super_lio/include/OctVoxMap/OctVoxMap.hpp:113 | the running mean of points of a half-open sub-voxel stays in it |
| `VoxelContents.InsertKeepsCells` | src/Super-LIO/src/super_lio/include/OctVoxMap/OctVoxMap.hpp:264-303 | after any insertions every stored point lies in its own half-open sub-voxel |
| `VoxelPoints.TouchTakes` | src/Super-LIO/src/super_lio/include/OctVoxMap/OctVoxMap.hpp:101-115 | a point is taken in by its sub-voxel exactly if that is empty, or has taken in fewer than 20 points and 100 times the squared distance to the one stored is at most 1; the count grows by one, and the stored point is the mean |
| `VoxelPoints.TouchSpares` | src/Super-LIO/src/super_lio/include/OctVoxMap/OctVoxMap.hpp:287-301 | and changes no other sub-voxel of the voxels still listed, neither count nor point |
| `VoxelPoints.StoredPointMovesLittle` | src/Super-LIO/src/super_lio/include/OctVoxMap/OctVoxMap.hpp:111-113 | one insertion moves a stored point by at most 0.05 |
| `VoxelPoints.RefusedChangesNothing` | src/Super-LIO/src/super_lio/include/OctVoxMap/OctVoxMap.hpp:110-111 | a point more than 0.1 away from the one stored, or one after the twentieth, leaves all stored points of the map as they are |
| `VoxelReset.InsertKeepsOccupied` | src/Super-LIO/src/super_lio/include/OctVoxMap/OctVoxMap.hpp:264-303 | after any insertions every voxel in the list has a stored point |
| `VoxelReset.TriplesOfFloats` | src/Super-LIO/src/super_lio/include/OctVoxMap/OctVoxMap.hpp:421-445 | the floats written are read back as the same points |
| `VoxelReset.FloatsAt` | src/Super-LIO/src/super_lio/include/OctVoxMap/OctVoxMap.hpp:421-427 | three floats a point: x, y and z |
| `VoxelReset.StoredAt` | src/Super-LIO/src/super_lio/include/OctVoxMap/OctVoxMap.hpp:412-427 | the points of a voxel come in the order of its sub-voxels, each behind as many as are occupied before it |
| `VoxelReset.LoadAll` | src/Super-LIO/src/super_lio/include/OctVoxMap/OctVoxMap.hpp:408-447 | the stored points of a map, inserted into one that has none of its voxels and room for all, put its voxels there in the opposite order and evict nothing |
| `VoxelReset.BackwardsWorld` | src/Super-LIO/src/super_lio/include/OctVoxMap/OctVoxMap.hpp:408-451 | the reversed map has the same stored point in every sub-voxel |
| `VoxelReset.ResetRestores` | src/Super-LIO/src/super_lio/include/OctVoxMap/OctVoxMap.hpp:408-451 | resetMap(getMap()) of a map with voxels keeps exactly the stored points and reverses the order if and only if no earlier reset is pending; else the map is empty |
| `VoxelReset.TenthInsertCounts` | src/Super-LIO/src/super_lio/include/OctVoxMap/OctVoxMap.hpp:265-273 | after a reset nine inserts have no effect and the tenth is applied |
| `OctVoxels.NewMeanIsMean` | src/Super-LIO/src/super_lio/include/OctVoxMap/OctVoxMap.hpp:113 | the running mean is the mean of the points taken in |
| `OctVoxels.OctVox.constructor` | src/Super-LIO/src/super_lio/include/OctVoxMap/OctVoxMap.hpp:92-97 | a voxel with its first point |
| `OctVoxels.OctVox.AddPoint` | src/Super-LIO/src/super_lio/include/OctVoxMap/OctVoxMap.hpp:101-115 | a point is taken in by an empty sub-voxel, or one with fewer than 20 points whose mean is within 0.1; the stored point stays the mean of those taken in |
| `OctVoxMap.TryEntry` | src/Super-LIO/src/super_lio/include/OctVoxMap/OctVoxMap.hpp:117-121 | an entry is tried exactly if its sub-voxel has a point in the map, and with that point |
| `OctVoxMap.VoxelOut` | src/Super-LIO/src/super_lio/include/OctVoxMap/OctVoxMap.hpp:117-121 | the points of one voxel come out in the order of its sub-voxels, and only those it has |
| `OctVoxMap.OctVoxMap.constructor` | src/Super-LIO/src/super_lio/include/OctVoxMap/OctVoxMap.hpp:168-187 | an empty map of the resolution |
| `OctVoxMap.OctVoxMap.insert` | src/Super-LIO/src/super_lio/include/OctVoxMap/OctVoxMap.hpp:264-303 | the list and the index change in place to what the points make of the contents; they agree node for node and hold the last capacity - 1 distinct voxels touched; a pending reset holds the points back |
| `OctVoxMap.OctVoxMap.insertAt` | src/Super-LIO/src/super_lio/include/OctVoxMap/OctVoxMap.hpp:287-301 | one point goes to its voxel, new or old, which moves to the front |
| `OctVoxMap.OctVoxMap.evict` | src/Super-LIO/src/super_lio/include/OctVoxMap/OctVoxMap.hpp:294-297 | the last voxel leaves list and index |
| `OctVoxMap.OctVoxMap.splice` | src/Super-LIO/src/super_lio/include/OctVoxMap/OctVoxMap.hpp:300 | a node moves to the front and keeps its identity |
| `OctVoxMap.OctVoxMap.getTopK` | src/Super-LIO/src/super_lio/include/OctVoxMap/OctVoxMap.hpp:306-381 | the candidates are those the heap had tried before and the stored points of exactly the groups seen, each once; the search stops after the first group after which five of all of them are below its threshold; from an empty heap, stopping before the last group with sub-voxels of at least a quarter, the heap holds five nearest of the whole map |
| `OctVoxMap.OctVoxMap.search` | src/Super-LIO/src/super_lio/include/OctVoxMap/OctVoxMap.hpp:335-380 | the loop over the groups, and that it stops first where five candidates are below the threshold |
| `OctVoxMap.OctVoxMap.scanGroup` | src/Super-LIO/src/super_lio/include/OctVoxMap/OctVoxMap.hpp:336-373 | the cursor reads the lines of one group, to its end |
| `OctVoxMap.ScanVoxel` | src/Super-LIO/src/super_lio/include/OctVoxMap/OctVoxMap.hpp:347-353 | the entries of one line are tried, and only those |
| `OctVoxMap.OctVoxMap.lookUpFirst` | src/Super-LIO/src/super_lio/include/OctVoxMap/OctVoxMap.hpp:320-331 | the eight voxels looked up beforehand are those of the first eight neighbors |
| `OctVoxMap.OctVoxMap.getMap` | src/Super-LIO/src/super_lio/include/OctVoxMap/OctVoxMap.hpp:408-429 | the stored points as floats, voxel by voxel in list order |
| `OctVoxMap.OctVoxMap.resetMap` | src/Super-LIO/src/super_lio/include/OctVoxMap/OctVoxMap.hpp:432-451 | clears, inserts the points read, and holds back the inserts that follow; empty input changes nothing |
| `OctVoxMap.OctVoxMap.clear` | src/Super-LIO/src/super_lio/include/OctVoxMap/OctVoxMap.hpp:499-503 | no voxel is left |
| `OctVoxMap.OctVoxMap.decrease_max_group` | src/Super-LIO/src/super_lio/include/OctVoxMap/OctVoxMap.hpp:204-206 | one group fewer, but at least four |
| `OctVoxMap.OctVoxMap.reset_max_group` | src/Super-LIO/src/super_lio/include/OctVoxMap/OctVoxMap.hpp:200-202 | all groups again |
| `PackedKey.KeyIsSum` | src/Super-LIO/src/super_lio/include/OctVoxMap/VoxelGridFilter.h:58-61 | with indices of 15 bits the or of the shifted indices is their sum |
| `PackedKey.KeysDifferUpTo15Bits` | src/Super-LIO/src/super_lio/include/OctVoxMap/VoxelGridFilter.h:58-61 | in a box of indices around 0, keys tell all voxels apart if and only if no index is negative and none needs more than 15 bits |
| `VoxelGrid.FirstsInOrder` | src/Super-LIO/src/super_lio/include/OctVoxMap/VoxelGridFilter.h:63-67 | the keys come in the order of their first points |
| `VoxelGrid.OnePerVoxel` | src/Super-LIO/src/super_lio/include/OctVoxMap/VoxelGridFilter.h:47-79 | with all indices from -1000 to 31767 every occupied voxel has exactly one point in the output, the first of those nearest to its centre |
| `VoxelGrid.RightUpTo15Bits` | src/Super-LIO/src/super_lio/include/OctVoxMap/VoxelGridFilter.h:47-79 | the output has one such point of every occupied voxel for all clouds with indices in a box around -1000 if and only if no index is below -1000 and none above 31767 |
| `VoxelGrid.Init` | src/Super-LIO/src/super_lio/src/lio/super_lio.cpp:82 | a filter of the leaf size, with the inverse that goes with it |
| `VoxelGrid.DownSample` | src/Super-LIO/src/super_lio/src/lio/super_lio.cpp:419-422 | the scan is set and filtered: the points of the output are points of the scan, one of every occupied voxel if the indices fit, the first of those nearest to the middle of its box, unless the table throws, which takes more than 126 keys |
| `VoxelGrid.VoxelGridClosest.filter` | src/Super-LIO/src/super_lio/include/OctVoxMap/VoxelGridFilter.h:47-79 | with the hash table as the index: one point for every key, in order of first occurrence, each the first of least distance with that key, unless the table throws, which takes more than 126 keys |
| `VoxelGrid.CentreIsNear` | src/Super-LIO/src/super_lio/include/OctVoxMap/VoxelGridFilter.h:38-57 | with the inverse that setLeafSize stores, every point lies within half a leaf size of its voxel's centre along every axis |
| `VoxelGrid.RoundIs` | src/Super-LIO/src/super_lio/include/OctVoxMap/VoxelGridFilter.h:54 | indices are rounded to the nearest integer, halves away from zero |
| `VoxelGrid.CentreIsMiddle` | src/Super-LIO/src/super_lio/include/OctVoxMap/VoxelGridFilter.h:54-56 | the centre of a voxel lies in it, and is the one point from which no point of the voxel is further than half a leaf size along any axis |
| `VoxelGrid.OnePerBox` | src/Super-LIO/src/super_lio/include/OctVoxMap/VoxelGridFilter.h:47-79 | the point of the output for a voxel is the first of those nearest to the middle of its box |
| `VoxelGrid.ToldApartFromMinus1000` | src/Super-LIO/src/super_lio/include/OctVoxMap/VoxelGridFilter.h:58-61 | the offset tells all voxels of a box around -1000 apart if and only if no index is below -1000 and none above 31767 |
| `Sync.ROSWrapper.constructor` | src/Super-LIO/src/super_lio/include/ros/ROSWrapper.h:103-107 | empty buffers, no stamp seen |
| `Sync.ROSWrapper.imuHandler` | src/Super-LIO/src/super_lio/src/ros/ROSWrapper.cpp:343-364 | a sample is appended; a stamp that goes back empties the buffer first. In every run the buffer is sorted and ends with the last stamp, and groups delivered and buffer are all samples since |
| `Sync.ROSWrapper.lidarHandler` | src/Super-LIO/src/super_lio/src/ros/ROSWrapper.cpp:241 | a scan is appended |
| `Sync.ROSWrapper.sync_measure` | src/Super-LIO/src/super_lio/src/ros/ROSWrapper.cpp:418-454 | delivers a scan exactly when it is not late and the samples reach its end, with the samples before the end and one stamped with it; drops it exactly when it ends before the last one delivered; loses and reorders nothing |
| `Sync.ROSWrapper.takeImu` | src/Super-LIO/src/super_lio/src/ros/ROSWrapper.cpp:442-448 | the loop takes all samples before the end and the first stamped with it, if any is before |
| `SyncLaws.TakenSplits` | src/Super-LIO/src/super_lio/src/ros/ROSWrapper.cpp:442-448 | the samples taken are not after the end, those left not before it |
| `SyncLaws.GroupBounds` | src/Super-LIO/src/super_lio/src/ros/ROSWrapper.cpp:418-454 | group ends never decrease, and the samples of a group lie between the end of any earlier group and its own |
| `SyncLaws.DroppedWereLate` | src/Super-LIO/src/super_lio/src/ros/ROSWrapper.cpp:431-435 | a scan was dropped if and only if it ends before the last end delivered until then |
| `SyncLaws.FirstFate` | src/Super-LIO/src/super_lio/src/ros/ROSWrapper.cpp:431-435 | the first scan is delivered if and only if its end is not before -1 |
| `ClockLaws.StepsTile` | src/Super-LIO/src/super_lio/src/lio/ESKF.cpp:187-247 | the steps of a group are not negative and add up to the last stamp less the last observation, 0 if no sample is after it |
| `ClockLaws.NoneBeyond` | src/Super-LIO/src/super_lio/src/lio/ESKF.cpp:206-208 | the branch that cuts a step at the end of the scan is never taken with what sync_measure delivers |
| `ClockLaws.TimesAscend` | src/Super-LIO/src/super_lio/src/lio/super_lio.cpp:351-358 | the times of the propagated states never decrease |
| `ClockLaws.ClockArrives` | src/Super-LIO/src/super_lio/src/lio/ESKF.cpp:187-247 | the clock after a group |
| `ClockLaws.StepSpans` | src/Super-LIO/src/super_lio/src/lio/ESKF.cpp:187-247 | whatever the clock, a sample that counts moves it from the later of last sample and last observation to its own stamp, or to the end of the scan if that is earlier and no observation came in between; the step is the difference |
| `ClockLaws.FirstSampleOnlyStarts` | src/Super-LIO/src/super_lio/src/lio/ESKF.cpp:187-247 | the first sample, and one not after the last observation, only move the stamp of the last sample |
| `Timing.RestIs` | src/Super-LIO/src/super_lio/src/lio/ESKF.cpp:187-247 | no time is left uncovered if and only if the last sample is stamped with the scan end, or the scan ends where the one before did |
| `ClockLaws.TimeIsConserved` | src/Super-LIO/src/super_lio/src/lio/super_lio.cpp:351-358 | over a whole run the steps and the uncovered rests add up to the time from the first to the last observation |
| `ClockLaws.FindBracket` | src/Super-LIO/src/super_lio/src/lio/super_lio.cpp:388-395 | every time after the first state and not after the last gets a bracket, any other the first state; the search itself never looks past the last state |
| `ClockLaws.MotionOf` | src/Super-LIO/src/super_lio/src/lio/super_lio.cpp:379-399 | the read of the state after the chosen one leaves the states if and only if there is one state and the point is not after it; between ascending states the pair is apart and the weight in (0, 1] if and only if the point is after the first state and not after the last |
| `ClockLaws.StatesOfGroup` | src/Super-LIO/src/super_lio/src/lio/super_lio.cpp:351-358 | the states of a delivered group ascend from the filter's time to that of its last sample; there is only one exactly if the group is empty |
| `SyncLaws.EmptyGroup` | src/Super-LIO/src/super_lio/src/ros/ROSWrapper.cpp:442-448 | a scan gets no sample exactly if the first one waiting is not before its end |
| `Sync.ScansBetweenSamples` | src/Super-LIO/src/super_lio/src/ros/ROSWrapper.cpp:418-454 | two scans between two samples: the second is delivered without any |
| `ClockLaws.WeightWithin` | src/Super-LIO/src/super_lio/src/lio/super_lio.cpp:396-399 | a weight is in (0, 1] exactly if its point is in the half-open span |
| `ClockLaws.OneBracket` | src/Super-LIO/src/super_lio/src/lio/super_lio.cpp:388-395 | there is only one bracket |
| `Timing.ESKF.Predict` | src/Super-LIO/src/super_lio/src/lio/ESKF.cpp:187-247 | which samples advance the state, by how much, and the stamps afterwards |
| `Timing.SuperLIO.observe` | src/Super-LIO/src/super_lio/src/lio/super_lio.cpp:193-208 | after an observation the clock is what the samples made of it, and the scan's end is the last observation |
| `Timing.SuperLIO.kf_init` | src/Super-LIO/src/super_lio/src/lio/super_lio.cpp:115-160 | completes with the 50th sample; the group that completes it is not empty, so its last sample exists |
| `Timing.SuperLIO.map_init` | src/Super-LIO/src/super_lio/src/lio/super_lio.cpp:163-190 | completes with the fourth scan; the last observation is the scan's end |
| `Timing.SuperLIO.propagate` | src/Super-LIO/src/super_lio/src/lio/super_lio.cpp:351-358 | the clock, the steps and the state times of one group |
| `Timing.SuperLIO.stateProcess` | src/Super-LIO/src/super_lio/src/lio/super_lio.cpp:193-212 | one more tile of time; the state times ascend; in every run without an IMU loop-back each point is left where it is if it is later than the last sample, interpolated with a weight in (0, 1] exactly if it is after the clock and not later than that, and read off the states exactly if there are no samples and it is not after the clock |
| `Timing.SuperLIO.undistort` | src/Super-LIO/src/super_lio/src/lio/super_lio.cpp:360-413 | every point of the scan is treated as its time start_time plus offset says |
| `Timing.OffTheStates` | src/Super-LIO/src/super_lio/src/lio/super_lio.cpp:345-413 | with 50 samples at one time and six scans between them and the next sample, the last of the scans is processed with a single state, and each of its points that is not after that time is read off the states |
| `Timing.SuperLIO.process` | src/Super-LIO/src/super_lio/src/lio/super_lio.cpp:107-112 | runs its state on the first scan exactly when sync_measure delivers it; in every run without an IMU loop-back the tiles fit: each begins where the one before ended, no step is negative, steps and rest add up |
| `Timing.SuperLIO.imuHandler` | src/Super-LIO/src/super_lio/src/ros/ROSWrapper.cpp:343-364 | only a stamp that goes back ends the guarantees |
| `FramePipeline.Barrier` | src/HesaiLidar_ROS_2.0/src/driver/HesaiLidar_SDK_2.0/libhesai/Lidar/lidar.h:457-464 | when the count agrees with packet_index every packet of the frame has been computed exactly once and none is under way |
| `FramePipeline.QueueFits` | src/HesaiLidar_ROS_2.0/src/driver/HesaiLidar_SDK_2.0/libhesai/Lidar/lidar.h:870-874 | no worker queue outgrows its limit: the branch that drops a packet is dead |
| `FramePipeline.PushNeverBlocks` | src/HesaiLidar_ROS_2.0/src/driver/HesaiLidar_SDK_2.0/libhesai/Lidar/lidar.h:440-443 | the ring is never full when the receiver pushes |
| `FramePipeline.KeptByHand` | src/HesaiLidar_ROS_2.0/src/driver/HesaiLidar_SDK_2.0/libhesai/Lidar/lidar.h:868-877 | handing a packet to a worker keeps every packet in exactly one place |
| `FramePipeline.KeptByTake` | src/HesaiLidar_ROS_2.0/src/driver/HesaiLidar_SDK_2.0/libhesai/Lidar/lidar.h:899-902 | so does a worker that takes one |
| `FramePipeline.KeptByCompute` | src/HesaiLidar_ROS_2.0/src/driver/HesaiLidar_SDK_2.0/libhesai/Lidar/lidar.h:903 | and one that has computed it |
| `FramePipeline.ThreadsRest` | src/HesaiLidar_ROS_2.0/src/driver/HesaiLidar_SDK_2.0/driver/hesai_lidar_sdk.hpp:296-298 | past the barrier the parser thread and the workers have nothing to do: no packet of the next frame can be among those computed |
| `FramePipeline.StepKeepsInv` | src/HesaiLidar_ROS_2.0/src/driver/HesaiLidar_SDK_2.0/driver/hesai_lidar_sdk.hpp:283-399 | every step of every thread keeps the account of all packets |
| `FrameRuns.FramesThatEndAreExact` | src/HesaiLidar_ROS_2.0/src/driver/HesaiLidar_SDK_2.0/driver/hesai_lidar_sdk.hpp:283-399 | under every interleaving every frame published has all its packets, each computed once, in every run in which no frame reaches the largest number of packets |
| `FrameRuns.ExactUnlessGivenUp` | src/HesaiLidar_ROS_2.0/src/driver/HesaiLidar_SDK_2.0/driver/hesai_lidar_sdk.hpp:283-399 | for every limit from 2 and any number of workers: runs that give up at most n frames publish only exact ones if and only if n is 0 |
| `FrameRuns.ExactAfterGivingUp` | src/HesaiLidar_ROS_2.0/src/driver/HesaiLidar_SDK_2.0/driver/hesai_lidar_sdk.hpp:390-398 | from a state in which a frame was given up, with a limit of at least 3, all runs up to the next such frame publish only exact frames if and only if no packet was under way |
| `FrameRuns.WrongAfterLongFrame` | src/HesaiLidar_ROS_2.0/src/driver/HesaiLidar_SDK_2.0/driver/hesai_lidar_sdk.hpp:390-398 | for every limit from 2 and any number of workers, a run with one frame that reaches the limit, whose last packet is then published as the whole of the next frame |
| `FrameOrder.KeptPacketOpensNext` | src/HesaiLidar_ROS_2.0/src/driver/HesaiLidar_SDK_2.0/driver/hesai_lidar_sdk.hpp:371-378 | in every run, with frames given up before or not: a packet kept when a frame was published is received first of all, so the next frame is not empty, and it has at least the packets received since |
| `FrameOrder.NextFrameIsExact` | src/HesaiLidar_ROS_2.0/src/driver/HesaiLidar_SDK_2.0/driver/hesai_lidar_sdk.hpp:283-399 | as long as no frame was given up, the frame published next is exactly the packets received since the last, packet 0 among them if one was kept |
| `FrameOrder.EmptyAfterDropOnly` | src/HesaiLidar_ROS_2.0/src/driver/HesaiLidar_SDK_2.0/driver/hesai_lidar_sdk.hpp:371-378 | a frame after another is empty only if the packet that ended the other was not kept |
| `FrameOrder.WorkersTakeTurns` | src/HesaiLidar_ROS_2.0/src/driver/HesaiLidar_SDK_2.0/libhesai/Lidar/lidar.h:866-877 | in every run, after h packets were handed over, the next goes to the end of the queue of worker h modulo their number, and no other queue changes |
| `FrameOrder.WhoComputes` | src/HesaiLidar_ROS_2.0/src/driver/HesaiLidar_SDK_2.0/libhesai/Lidar/lidar.h:864-877 | in every run the parser thread computes nothing itself with two workers or more, and hands nothing over with fewer |
| `FrameOrder.NeverBlocksUpTo8000` | src/HesaiLidar_ROS_2.0/src/driver/HesaiLidar_SDK_2.0/libhesai/Lidar/lidar.h:440-443 | in all runs without a frame given up the receiver finds room in the ring, if and only if a frame may have at most 8000 packets |
| `FrameOrder.FrameCanEnd` | src/HesaiLidar_ROS_2.0/src/driver/HesaiLidar_SDK_2.0/driver/hesai_lidar_sdk.hpp:296-298 | whatever is under way when the receiver starts to wait, the threads can compute all that it waits for |
| `FrameOrder.FirstComeFirstServed` | src/HesaiLidar_ROS_2.0/src/driver/HesaiLidar_SDK_2.0/libhesai/Lidar/lidar.h:851-903 | in all runs without a frame given up every worker computes its packets in the order in which they were received, and with fewer than two workers so is each frame |
| `RingSdk.Ring.push_back` | src/HesaiLidar_ROS_2.0/src/driver/HesaiLidar_SDK_2.0/libhesai/Container/src/ring.cc:63-68 | appends to the deque |
| `RingSdk.Ring.push_front` | src/HesaiLidar_ROS_2.0/src/driver/HesaiLidar_SDK_2.0/libhesai/Container/src/ring.cc:79-84 | prepends to the deque |
| `RingSdk.Ring.pop_front` | src/HesaiLidar_ROS_2.0/src/driver/HesaiLidar_SDK_2.0/libhesai/Container/src/ring.cc:89-90 | takes the first element |
| `RingSdk.Ring.pop_back` | src/HesaiLidar_ROS_2.0/src/driver/HesaiLidar_SDK_2.0/libhesai/Container/src/ring.cc:73-74 | takes the last element |
| `RingSdk.Ring.eff_pop_front` | src/HesaiLidar_ROS_2.0/src/driver/HesaiLidar_SDK_2.0/libhesai/Container/src/ring.cc:92-93 | drops the first element |
| `RingSdk.Ring.eff_clear` | src/HesaiLidar_ROS_2.0/src/driver/HesaiLidar_SDK_2.0/libhesai/Container/src/ring.cc:60-61 | drops all elements |
| `RingSdk.PushedFront` | src/HesaiLidar_ROS_2.0/src/driver/HesaiLidar_SDK_2.0/libhesai/Container/src/ring.cc:79-84 | the elements of the ring after its beginning moved back around the end |
| `FrameBuffer.LidarDecodedFrame.compact` | src/HesaiLidar_ROS_2.0/src/driver/HesaiLidar_SDK_2.0/driver/hesai_lidar_sdk.hpp:304-320 | the buffer begins with the valid points of all packets, in order, although source and target overlap |
| `FrameBuffer.CopyDown` | src/HesaiLidar_ROS_2.0/src/driver/HesaiLidar_SDK_2.0/driver/hesai_lidar_sdk.hpp:308-309 | an ascending copy to a lower place gives the original elements |
| `FrameBuffer.LidarDecodedFrame.multiSend` | src/HesaiLidar_ROS_2.0/src/driver/HesaiLidar_SDK_2.0/driver/hesai_lidar_sdk.hpp:116-132 | every multi_rate frames a cloud is published that is exactly their concatenation |
| `FrameBuffer.LidarDecodedFrame.collect` | src/HesaiLidar_ROS_2.0/src/driver/HesaiLidar_SDK_2.0/driver/hesai_lidar_sdk.hpp:122-124 | the buffer always has room for another frame |
| `FrameBuffer.LidarDecodedFrame.constructor` | src/HesaiLidar_ROS_2.0/src/driver/HesaiLidar_SDK_2.0/libhesai/lidar_types.h:425-459 | the sizes of the buffers |
| `Crc32.CRCCalc` | src/HesaiLidar_ROS_2.0/src/driver/HesaiLidar_SDK_2.0/libhesai/Common/include/inner_com.h:229-249 | the table-driven CRC equals the bit-serial one for every message and zero padding |
| `Crc32.MakeEntry` | src/HesaiLidar_ROS_2.0/src/driver/HesaiLidar_SDK_2.0/libhesai/Common/include/inner_com.h:234-239 | the marker bit ends the loop after exactly eight steps, with the register after the byte |
| `Crc32.FastStep` | src/HesaiLidar_ROS_2.0/src/driver/HesaiLidar_SDK_2.0/libhesai/Common/include/inner_com.h:244-247 | one table look-up does what eight bit steps do |
| `Crc32.SerialIsInjective` | src/HesaiLidar_ROS_2.0/src/driver/HesaiLidar_SDK_2.0/libhesai/Common/include/inner_com.h:244-247 | every message is a bijection of the register |
| `Crc32.SerialIsLinear` | src/HesaiLidar_ROS_2.0/src/driver/HesaiLidar_SDK_2.0/libhesai/Common/include/inner_com.h:244-247 | the register is linear in register and message |
| `Crc32.BurstsAreDetected` | src/HesaiLidar_ROS_2.0/src/driver/HesaiLidar_SDK_2.0/libhesai/Common/include/inner_com.h:229-249 | messages that differ only within 32 successive bits have different CRCs |
| `CrcPolynomial.RegisterIsRemainder` | src/HesaiLidar_ROS_2.0/src/driver/HesaiLidar_SDK_2.0/libhesai/Common/include/inner_com.h:229-249 | the register after a message is the remainder of register and message divided by x^32 + x^26 + x^23 + x^22 + x^16 + x^12 + x^11 + x^10 + x^8 + x^7 + x^5 + x^4 + x^2 + x + 1, and nothing else is |
| `CrcPolynomial.OwnCrcLeavesNothing` | src/HesaiLidar_ROS_2.0/src/driver/HesaiLidar_SDK_2.0/libhesai/Common/include/inner_com.h:244-247 | a message followed by 32 bits leaves the register empty if and only if they are its CRC |
| `CrcWords.CheckValue` | src/HesaiLidar_ROS_2.0/src/driver/HesaiLidar_SDK_2.0/libhesai/Common/include/inner_com.h:229-249 | the CRC of 123456789 is 0x0376E6E7 |
| `CrcWords.CrcOfZero` | src/HesaiLidar_ROS_2.0/src/driver/HesaiLidar_SDK_2.0/libhesai/Common/include/inner_com.h:229-249 | the CRC of one zero byte is 0x4E08BFB4 |
| `CrcWords.TwoFlipsAreDetected` | src/HesaiLidar_ROS_2.0/src/driver/HesaiLidar_SDK_2.0/libhesai/Common/include/inner_com.h:229-249 | two flipped bits at most 264 places apart change the CRC |
| `SerialFrame.SerialStreamEncode` | src/HesaiLidar_ROS_2.0/src/driver/HesaiLidar_SDK_2.0/libhesai/SerialParser/serial_parser.h:108-115 | the frame of a body |
| `SerialFrame.KindCanBeRead` | src/HesaiLidar_ROS_2.0/src/driver/HesaiLidar_SDK_2.0/libhesai/SerialParser/serial_parser.h:65-83 | a frame begins with $LDCMD, for a command and $LDOTA, for an upgrade, and its fourth byte tells which |
| `SerialFrame.KindsDiffer` | src/HesaiLidar_ROS_2.0/src/driver/HesaiLidar_SDK_2.0/libhesai/SerialParser/serial_parser.h:108-115 | no command frame is an upgrade frame |
| `SerialFrame.CheckBytes` | src/HesaiLidar_ROS_2.0/src/driver/HesaiLidar_SDK_2.0/libhesai/SerialParser/serial_parser.h:158-190 | the CRC 0x0376E6E7 of 123456789 goes out as E7 E6 76 03 in commands and as 03 76 E6 E7 in upgrades |
| `SerialFrame.AddEndStreamEncode` | src/HesaiLidar_ROS_2.0/src/driver/HesaiLidar_SDK_2.0/libhesai/SerialParser/serial_parser.h:158-190 | random bytes, CRC and end bytes |
| `SerialFrame.SerialStreamDecode` | src/HesaiLidar_ROS_2.0/src/driver/HesaiLidar_SDK_2.0/libhesai/SerialParser/serial_parser.h:116-149 | accepts exactly the frames whose length, end bytes, CRC and length byte are right, and gives the body |
| `SerialFrame.CommandRoundTrip` | src/HesaiLidar_ROS_2.0/src/driver/HesaiLidar_SDK_2.0/libhesai/SerialParser/serial_parser.h:108-149 | decoding an encoded command gives the body back if and only if it has at least two bytes and its first is its length less two |
| `SerialFrame.OtaLosesFourBytes` | src/HesaiLidar_ROS_2.0/src/driver/HesaiLidar_SDK_2.0/libhesai/SerialParser/serial_parser.h:108-149 | an encoded upgrade frame is decoded without its last four bytes |
| `SerialFrame.ChangedBodyIsRefused` | src/HesaiLidar_ROS_2.0/src/driver/HesaiLidar_SDK_2.0/libhesai/SerialParser/serial_parser.h:116-149 | an accepted frame in which up to four successive bytes between header and CRC have changed is refused |
| `SerialFrame.TwoFlippedBitsAreRefused` | src/HesaiLidar_ROS_2.0/src/driver/HesaiLidar_SDK_2.0/libhesai/SerialParser/serial_parser.h:130-142 | so is one in which two bits at most 264 places apart have been flipped |
| `SerialFrame.ChangedCrcIsRefused` | src/HesaiLidar_ROS_2.0/src/driver/HesaiLidar_SDK_2.0/libhesai/SerialParser/serial_parser.h:132-142 | so is one whose CRC bytes have changed |

## Left out

- RobinHash.RobinHash.rehash_impl: only to at least twice the buckets, as insertion calls it; a rehash or reservation asked for by the user is not modelled, because with fewer buckets, or as many after the growth flag was set, nothing bounds the distances, and the source does not check that they fit in 16 bits.
- RobinHash.Create: load factors are the defaults, 0.5 and 0, so the branch that shrinks the table never applies.
- RobinHoodTable.Table.emplace: the source throws; here this is the result `ok == false`, and `lost` when it happens in the middle of a rehash. If several keys are at home last, which of them is in the last slot is left open, and so is, for keys that only the 255th of the settings separates, whether one more halving is due before the last attempt.
- RobinHoodBounds.CrowdBounds: the mixed hash of a key may be any number; under the source's own mixing such tables are shown for 127 and 128 keys, by RobinHoodTable.OneTooMany and RobinHoodTable.LosesOne.
- RobinHoodTable.Table.insertKeyPrepareEmptySpot: the caller's write of the node into the prepared slot is passed in as a ghost value to state what it completes; the same is left open as for emplace.
- RobinHash.RobinHash.insert_value_on_rehash: which of two entries equally far from home is carried on is left open.
- OctVoxMap.OctVoxMap.insert: the hash index is a map from keys to nodes; that the table behind it refines such a map is proved separately, in module RobinHash, and its length error, which takes more than 2^62 buckets, does not surface here. Coordinates are reals, so rounding is not modelled.
- OctVoxMap.OctVoxMap.getTopK: distances are reals.
- VoxelGrid.VoxelGridClosest.filter: the hash of a key is a parameter; after a throw nothing is said about the output.
- ClockLaws.MotionOf: the rotation and translation interpolated between the two states are not modelled.
- Timing.SuperLIO.process: nothing is said about time stamps after the IMU clock has gone back.
- FrameRuns.FramesThatEndAreExact: every locked operation on a ring or queue is one step, the count is atomic, and a frame is named by the packet numbers computed for it; memory ordering, wake-ups and time-outs are not modelled.
- FrameRuns.ExactAfterGivingUp: clearing the ring and the worker queues is one step; the source clears one list after another without their locks (lidar.h:690-697), so that a worker can still take a packet in between.
- FrameBuffer.LidarDecodedFrame.multiSend: the counter of frames is unbounded, and the time stamps of a cloud are not modelled.
- SerialFrame.SerialStreamEncode: the four random bytes are a parameter; the four-argument encoder, which writes a request rather than a reply, is not modelled.
- Crc32.CRCCalc: a uint32_t is the sequence of its 32 bits; the length is that of the sequence.
- Decoding of packets: whether a packet ends a frame, and what computing it writes, are choices of the environment.
- Filter covariance, rotations, plane fitting, the map's second search `getTopK_VN`, publishing, logging and configuration.
- Iterators, range erase, copies, allocators and node-based storage of the two hash tables.
