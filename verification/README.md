# Verified model of the server library

This project models the parts of the library whose correctness is not visible from any one function body: the
hierarchical timing wheel, the block log with its codec, the reassembly of a TCP byte stream, the weighted balancer,
the connection pool and the consistent-hash ring. Each of them is written as the source writes it (classes whose
methods update fields, linked lists and buffers in place, loops where the source loops) and is proved against a small
value-level description; the laws are then proved of that description, for all inputs, all runs and all states.
`dafny verify dfyconfig.toml` checks everything.

## What is modelled

**Timing wheel.** `TimerPlacement` is the slot arithmetic: which slot a deadline goes to, what a tick drains, and why
an item is never late. `TimerSpec` is what a timer promises with no wheel in sight: a map from ids to ticks, from
which an earliest one fires first, while callbacks issue arbitrary further calls. `TimingWheel` is the wheel: intrusive
doubly linked slot lists with back pointers, an id map, cascades, and the loop that fires a detached list while
callbacks set, move and clear timers. `Timer.CheckTimer` refines the flat machine (`Checked`), so the whole-run
theorems of `TimerSpec` hold of the wheel; `TimerRuns.Run` is any run of it. An item linked after its deadline has
passed goes to the current slot; its tick is therefore the later of its deadline and the current tick (`DueTick`).

**Block log.** `Bytes` and `Codec` are the bounded big-endian codec over a byte array with read and write positions.
`BinlogFormat` says what a reader makes of any bytes at all. `BinlogLayout` says what writes leave behind.
`BinlogTheorems` has the laws that connect the two, and `BinlogTail` what a write does to a reader that stands
anywhere in the log. `BinlogFile` is the writer and the three-branch buffered reader with its block cache, and
`BinlogRuns` the loops a client writes around them.

**Receive cache.** `TcpReceive` is `OnReadable`: the cache, a handler that may do anything to the read position or
throw, or that decodes all complete strings, and the compaction; and a connection over any chunking. Of an arbitrary
handler it is known how many bytes it has taken, and exactly those are consumed.

**Balancer.** `Balancing` has the draw, its interval characterisation, the exactness of an epoch, the quota policy and
the conservation of the total in 32 bits through every operation; `BalancingRuns` has whole runs and epochs of calls.

**Connection pool.** `ConnectionPooling` is the ownership protocol between holders, idle lists and timers. Its timers
are the machine of `TimerSpec`, the one the wheel refines.

**Hash ring.** `ConsistentHashing` is the ring with uninterpreted hash functions: which keys an insertion or a
deletion moves, when a deletion undoes an insertion, and rings over whole runs.

## Where the code falls short

These are properties one would expect that do not hold of the code; each is stated with its exact condition.

- The size check of `Binlog::Write` (`src/Binlog.cc:141`) forgets the 8 bytes of the block head: reading back what was
  written works if and only if every accepted payload leaves room for them (`BinlogTheorems.RoundTrip`); a payload of
  block size minus 6 is lost (`BinlogTheorems.EightBytesShort`).
- A reader that meets the end of a file of full blocks advances its block index first (`src/Binlog.cc:285-292`) and
  does not see the next write (`BinlogRuns.LosingRun`). `BinlogFile.Binlog.Next` says exactly when that happens;
  every other reader sees every write (`BinlogTail.WriteReachesReader`). Every further poll takes such a reader one
  block further (`BinlogRuns.Poll`), and offsets have 32 bits: for a block size B that divides 2^32 it comes to block
  index 2^32 / B, which addresses the first block again (`BinlogFile.Binlog.WrapsAround`), at the latest after that
  many polls, 256 for blocks of 16 MiB. What it then delivers is not part of this model.
- A damaged length so large that 6 plus it wraps 32 bits makes `Next` throw at that place for ever; damage is contained
  if and only if the bytes of the damaged block hold no such length behind whole records, or nothing follows the block
  (`BinlogTheorems.DamageIsContained`, and `BinlogTheorems.WrapLosesLater` for a log that loses both its records).
- The same check wraps 32 bits, so that a payload of 2^32 - 6 bytes or a little more is taken for a short one
  (`BinlogTheorems.AcceptedIff`).
- A string whose encoding is larger than the receive cache is never handled: the cache fills and the connection is
  given up (`TcpReceive.ServeStrings`). In the default cache of 65535 bytes (`include/TcpServer.hpp:34`) these are
  strings of 65534 and 65535 bytes.
- Strings of 65536 bytes or more do not survive the 16-bit length (`Codec.StringRoundTrip`).
- The seed of `Route` (`include/LoadBalance.hpp:226`) can be 0 and can be total + 1; a draw takes one quota that is
  there and keeps the books if and only if its seed is in 1..total, or is 0 while the first point has a quota
  (`Balancing.LoadBalance.Route`, and `Balancing.WrongSeeds` for a run in which both go wrong).
- A point with more replies than requests, as when a reply arrives after the counters have started again, counts as
  lossy and falls to quota 1 (`Balancing.TooManyReplies`).
- An idle timeout of 2^31 or more counts as negative, so the connection expires at once
  (`ConnectionPooling.LeftAlone`).
- `Erase` of a connection nobody holds leaves its list and its timer pointing at it
  (`ConnectionPooling.ConnectionPool.Erase`).
- `AddServicePoint` counts the quota of an address that is already there once more, so that the total is the sum of
  the remaining quotas if and only if the address is new or the quota is 0.
- `ConsistentHash::Delete` drops as many points as a node of quota 1 has: it undoes an insertion if and only if none of
  the points it drops was taken before and every further point of the node was
  (`ConsistentHashing.DeleteUndoesInsert`).
- `ConsistentHash::Delete` deletes the object at the first point of the node, whoever it belongs to. A point is left
  at the deleted object if and only if that object also has a point that Delete does not drop
  (`ConsistentHashing.ConsistentHash.Delete`). This can happen to nodes of quota 2 and more
  (`ConsistentHashing.DanglesIff`), and to nodes of quota 1 that collide (`ConsistentHashing.CollidingRun`).
- `ConsistentHash::Hash` does not wrap around: a key past the last point has no owner
  (`ConsistentHashing.UnownedIsPastTheEnd`).
- It rarely finds a node by its own key: on a ring of one node of quota 1 and virtual size 1, exactly if the hash of the
  key is a multiple of the alignment (`ConsistentHashing.OneNode`).

## Model

| member | source | states |
|---|---|---|
| `TimerPlacement.SlotFor` | include/Timer.hpp:141-173 | the vector chosen depends on the distance from the current tick only, at 2^8, 2^14, 2^20 and 2^26 |
| `TimerPlacement.LinkedIsPlaced` | include/Timer.hpp:141-173 | linking establishes the placement invariant (fine items in the 256 ticks ahead, coarse items in the 64 blocks from the first unread one, far items filed no later than due) and never uses a slot the current tick still drains |
| `TimerPlacement.DrainDescends` | include/Timer.hpp:188-204 | what a tick drains from vectors 2 to 4 goes to a strictly finer vector; vector 5 keeps exactly what is still 2^26 ticks away |
| `TimerPlacement.TickKeepsPlaced` | include/Timer.hpp:302-316 | after the drains and the detachment of one tick every other item is placed correctly for the next tick |
| `TimerPlacement.CurrentSlotIsDue` | include/Timer.hpp:304-315 | once a tick has drained, its fine slot holds exactly the items due at it |
| `TimerPlacement.WrapIsAlignment` | include/Timer.hpp:306-312 | the chain of index-0 tests reaches a coarser vector exactly when the tick is aligned for it |
| `TimingWheel.Timer.constructor` | include/Timer.hpp:235-245 | an empty, sound wheel at the clock reading of its creation |
| `TimingWheel.Timer.InternalAddTimerItem` | include/Timer.hpp:141-186 | the item becomes the head of the slot `SlotFor` gives, in front of the former head; every list stays sound and no other cell changes |
| `TimingWheel.Timer.PushFront` | include/Timer.hpp:175-185 | the item becomes the head of the slot, the former head its successor; all lists stay mutually linked, acyclic and headed by an item without predecessor |
| `TimingWheel.Timer.Unlink` | include/Timer.hpp:253-265 | removing an item from any list, also from the detached list behind the running item, keeps all lists sound |
| `TimingWheel.Timer.Update` | include/Timer.hpp:247-273 | also inside a callback: exactly the tick of that id changes in the flat view, nothing for an unknown id; the new tick lies as many whole intervals after the clock reading as the timeout has, cut off toward it, as a 64-bit number, or is the current tick if that is later |
| `TimingWheel.Timer.Clear` | include/Timer.hpp:275-295 | also inside a callback: exactly that id disappears from the flat view |
| `TimingWheel.Timer.SetTimeout` | include/Timer.hpp:377-396 | also inside a callback: exactly one new id is pending; its tick lies as many whole intervals after the clock reading as the timeout has, cut off toward it, as a 64-bit number, or is the current tick if that is later |
| `TimingWheel.Timer.cascade` | include/Timer.hpp:188-204 | exactly the items of one slot are refiled, none is lost or duplicated, nothing else changes list; tells whether the index was not 0 |
| `TimingWheel.Timer.CascadeKeeps` | include/Timer.hpp:188-204 | the mid-cascade invariant: refiling one slot keeps placement and ticks, and empties that slot of anything still to be drained |
| `TimingWheel.Timer.CascadeOnWrap` | include/Timer.hpp:306-312 | afterwards no item waits in a slot this tick drains, and no tick has changed |
| `TimingWheel.Timer.OpenTick` | include/Timer.hpp:302-317 | what is cut off the fine slot is exactly what is due at this tick; everything else is placed for the next |
| `TimingWheel.Timer.FirstIsEarliest` | include/Timer.hpp:316-321 | the next item of the walk is pending and no pending timer has an earlier tick |
| `TimingWheel.Timer.Invoke` | include/Timer.hpp:323-325 | running a callback is recorded, with its item, its tick and the calls it makes |
| `TimingWheel.Timer.FireFirst` | include/Timer.hpp:320-335 | the item leaves the map, its callback is invoked and makes any calls, and the walk goes on at an item of smaller rank: the flat machine fires that timer and runs those commands |
| `TimingWheel.Timer.Execute` | include/Timer.hpp:247-295 | any call made by a callback keeps the wheel sound in mid-walk and is the same call on the flat machine |
| `TimingWheel.Timer.CheckTimer` | include/Timer.hpp:297-338 | terminates for every clock value, invokes exactly the callbacks of its log, and is a legal run of the flat machine: always an earliest pending timer, before `now`, and nothing due left behind |
| `TimerRuns.Run` | include/Timer.hpp:247-396 | any sequence of client calls and checks on a wheel is a legal run of the flat machine that ends in the wheel's state; the callbacks invoked are those the run fires, in order of ticks and no timer twice |
| `TimerRuns.SetAndRun` | include/Timer.hpp:247-396 | on the wheel itself: a timer set and then left alone through any script of calls and checks is invoked exactly if some check goes past its timeout and past the tick current when it was set |
| `TimingWheel.Timer.NothingOverdue` | include/Timer.hpp:297-338 | between calls no pending timer has a tick before the current one |
| `TimingWheel.Timer.ReachableFromHead` | include/Timer.hpp:175-186 | between calls every live item is met by walking from the cell its `Base` names |
| `TimingWheel.Timer.NextInChain` | include/Timer.hpp:188-204 | the walk over a slot meets the successor of every item it meets |
| `TimerSpec.FiringOrder` | include/Timer.hpp:297-338 | the ticks of one CheckTimer never decrease and lie between the current tick and `now` |
| `TimerSpec.FiresOnce` | include/Timer.hpp:320-322 | no timer is invoked twice in one CheckTimer |
| `TimerSpec.ClearedNeverFires` | include/Timer.hpp:275-295 | a timer cleared by an earlier callback of the same CheckTimer is not invoked |
| `TimerSpec.RescheduledFiresLater` | include/Timer.hpp:314-336 | a timer set or moved by a callback never joins the tick being fired: it fires at a later one |
| `TimerSpec.GoneNeverFires` | include/Timer.hpp:275-295 | a timer that no longer exists is never invoked again |
| `TimerSpec.ReplayKeepsOrder` | include/Timer.hpp:297-338 | after any legal firings nothing is pending before the last tick fired |
| `TimerSpec.LegalSnoc` | include/Timer.hpp:318-335 | one more legal firing extends a legal run |
| `TimerSpec.ExactlyTheDueFire` | include/Timer.hpp:297-338 | a timer nobody names fires in CheckTimer exactly when its tick is before `now`, at its tick; otherwise it stays pending unchanged, whatever callbacks do to other timers |
| `TimerSpec.SetFiresExactlyIfDue` | include/Timer.hpp:314-336 | a timer set or moved by a callback and named by nobody afterwards fires later in the same CheckTimer exactly when its new tick is before `now`, at that tick; otherwise it stays pending |
| `TimerSpec.PendingFiresExactlyIfDue` | include/Timer.hpp:297-338 | the same of any timer pending after the first firings of a CheckTimer |
| `TimerSpec.RunSnoc` | include/Timer.hpp:247-338 | one more call or check extends a legal run |
| `TimerSpec.CheckKeepsValid` | include/Timer.hpp:297-338 | CheckTimer keeps the machine well formed, moves the tick forward only, and everything fired is gone |
| `TimerSpec.RunFiresInOrderOnce` | include/Timer.hpp:247-338 | over every run of calls and checks with any clock readings: ticks never decrease from one firing to the next and no timer fires twice |
| `TimerSpec.RunFiresExactlyTheDue` | include/Timer.hpp:247-338 | over every run: a timer left alone fires exactly when some CheckTimer looks past its tick, and at its tick; until then it stays pending |
| `TimerSpec.SetForTimeout` | include/Timer.hpp:383-386 | the tick of a set or moved timer, without division: with t ticks between reading and tick, t intervals are at most the timeout and t + 1 are more, mirrored for negative timeouts; taken as a 64-bit number, and never before the current tick |
| `TimerSpec.ElapsesOnce` | include/Timer.hpp:383-383 | there is only one such tick |
| `TimerSpec.DueIffElapsed` | include/Timer.hpp:297-383 | if the tick exists in 64 bits, the timer is due before `now` exactly if its timeout is less than the intervals from its reading to `now`, and the tick that was current lies before `now` |
| `TimerSpec.RunFiresAfterTimeout` | include/Timer.hpp:247-383 | over every run: a timer set for a timeout and left alone fires exactly if some CheckTimer goes past the tick current when it was set and past the elapsing of its timeout |
| `TimerSpec.SetThenFires` | include/Timer.hpp:247-396 | the same behind SetTimeout, and behind Update of a pending timer, in any state |
| `Bytes.BigEndianRoundTrip` | src/IOBuffer.cc:318-382 | decoding an encoded integer gives it back, reduced to its width |
| `Bytes.BigEndianInverse` | src/IOBuffer.cc:215-279 | encoding a decoded integer gives its bytes back |
| `Bytes.SwapLoads` | include/IOBuffer.hpp:18-26 | a host-order load followed by ntohs, ntohl or the ntohll macro reads big-endian, and back |
| `Bytes.SwapStores` | include/IOBuffer.hpp:18-26 | swapping and storing in host order writes big-endian |
| `Codec.StringRoundTrip` | src/IOBuffer.cc:281-296 | a string followed by anything decodes to itself and that rest if and only if its length is below 65536 |
| `Codec.StringBytes` | src/IOBuffer.cc:384-395 | a string is sent as the high and the low byte of its length and then its own bytes |
| `Codec.IOBuffer.Read` | src/IOBuffer.cc:112-120 | the next bytes are consumed, or 0 is returned and nothing is |
| `Codec.IOBuffer.GetUInt` | src/IOBuffer.cc:205-279 | the big-endian value of the next bytes, which are consumed; overflow if and only if too few are left, and then nothing is consumed |
| `Codec.IOBuffer.GetString` | src/IOBuffer.cc:281-296 | the string at the front of what is unread, or overflow with nothing consumed, the length neither |
| `Codec.IOBuffer.ReadSeek` | include/IOBuffer.hpp:106-111 | a position outside what is available, below zero included, ends up at its end |
| `Codec.IOBuffer.Write` | src/IOBuffer.cc:93-101 | the bytes are appended, or nothing changes; no byte outside the appended range is touched |
| `Codec.IOBuffer.PutUInt` | src/IOBuffer.cc:308-382 | the big-endian bytes are appended, or overflow and nothing changes, if and only if they do not fit |
| `Codec.IOBuffer.PutString` | src/IOBuffer.cc:384-395 | the truncated length and the whole string are appended, or overflow and nothing changes |
| `BinlogFormat.LookIsFrame` | src/Binlog.cc:357-398 | the reader finds a record of some length exactly where the bytes of a frame of that length are |
| `BinlogFormat.BlockHeadHolds` | src/Binlog.cc:160-168 | a block head starts with 0xEF, its creation time can be read back behind it, and zeros follow |
| `BinlogFormat.ScanAppended` | src/Binlog.cc:196-213 | a frame appended to a block full of records is delivered after them, at its offset |
| `BinlogFormat.ScanPadded` | src/Binlog.cc:176-194 | zero padding behind the records of a block adds nothing to what is delivered |
| `BinlogLayout.AppendLaid` | src/Binlog.cc:135-219 | every write whose payload leaves room for a block head keeps the layout (each block a head, whole records, zeros fewer than the record that forced them) and adds its record behind all others at the offset it returns |
| `BinlogLayout.AppendPadded` | src/Binlog.cc:175-194 | the write that pads and opens a block keeps the layout and adds its record |
| `BinlogLayout.AppendFitting` | src/Binlog.cc:196-218 | the write that fits keeps the layout and adds its record |
| `BinlogLayout.AppendAtBoundary` | src/Binlog.cc:157-174 | the write that starts a block keeps the layout and adds its record |
| `BinlogTheorems.DeliveredAreFrames` | src/Binlog.cc:278-404 | on any bytes, every record delivered is a frame with both magics inside one block, behind its head, at the reported offset |
| `BinlogTheorems.ReaderDeliversFrames` | src/Binlog.cc:278-404 | the same for a reader in any state on any bytes, from where it resumes in its own block |
| `BinlogTheorems.WrittenIsLaid` | src/Binlog.cc:135-219 | any run of fitting writes leaves the layout and exactly its accepted records |
| `BinlogTheorems.RoundTrip` | src/Binlog.cc:135-219 | reading from the start delivers exactly the accepted payloads, in order, at the returned offsets, if and only if every accepted payload leaves 8 bytes to the block head |
| `BinlogTheorems.AcceptedIff` | src/Binlog.cc:140-142 | a payload is accepted exactly if 6 and its length, reduced to 32 bits, are at most the block size |
| `BinlogTheorems.EightBytesShort` | src/Binlog.cc:141-142 | a payload of block size minus 6 is accepted and not delivered |
| `BinlogTheorems.OffsetsAdvance` | src/Binlog.cc:150-218 | returned offsets grow by at least the size of a frame |
| `BinlogTheorems.OffsetLeadsBack` | src/Binlog.cc:260-271 | an iterator at the offset of record i delivers records i, i+1, and so on |
| `BinlogTheorems.SplitAt` | src/Binlog.cc:278-306 | what a log delivers is what its earlier blocks deliver followed by what its later blocks deliver |
| `BinlogTheorems.DamageComesLater` | src/Binlog.cc:299-304 | damage in one block changes nothing delivered from earlier blocks |
| `BinlogTheorems.StuckIsWrap` | src/Binlog.cc:375-392 | a reader cannot get past a block exactly when its bytes hold, behind a good head and whole records, a start byte with a length that wraps 32 bits |
| `BinlogTheorems.DamageIsContained` | src/Binlog.cc:299-398 | after arbitrary damage to one block all records of the other blocks are delivered, in order, if and only if its bytes hold no such length, or nothing follows the block |
| `BinlogTheorems.WrapLosesLater` | src/Binlog.cc:375-392 | for every block size a log of two records that loses both to five damaged bytes in its first block |
| `BinlogTail.WriteReachesReader` | src/Binlog.cc:280-355 | a write becomes the last record a following reader will deliver if and only if the reader is not parked behind a block that did not exist; a parked reader skips it |
| `BinlogTail.ParksBehind` | src/Binlog.cc:282-292 | a following reader that meets the end of the file behind a block was parked or stands behind the last block of a file of full blocks, and it is parked in front of the block it goes on to |
| `BinlogTail.StaysInside` | src/Binlog.cc:309-338 | a following reader that meets the end of the file inside a block, or in front of one, stays where it is, in the file or right at its end, and is not parked |
| `BinlogTail.NextBlockCases` | src/Binlog.cc:282-308 | taking the next block changes nothing still to be delivered, is the end of file, or is the short-block error |
| `BinlogTail.FirstBlockCases` | src/Binlog.cc:330-354 | loading the first block changes nothing still to be delivered, is the end of file, or is the short-block error |
| `BinlogTail.GiveUp` | src/Binlog.cc:359-395 | giving a block up at something that is no record changes nothing still to be delivered |
| `BinlogTail.TakeRecord` | src/Binlog.cc:384-399 | the record under the reader is the first still to be delivered, and the reader behind it has the others |
| `BinlogTail.CacheDecides` | src/Binlog.cc:310-329 | a cache read before the file grew decides as the block itself would |
| `BinlogTail.CacheSurvives` | src/Binlog.cc:310-329 | a write leaves the cache of a following reader usable |
| `BinlogTail.OffsetOnTrack` | src/Binlog.cc:260-271 | an iterator made from the offset of a record follows the log |
| `BinlogFile.Binlog.CreateLog` | src/Binlog.cc:89-117 | an empty log with magic, version, data offset, block size and creation time in its head, encoded at the front of the file |
| `BinlogFile.Binlog.PutHead` | src/Binlog.cc:36-42 | the fields of a file head are appended in order, big-endian |
| `BinlogFile.HeadRoundTrip` | src/Binlog.cc:28-42 | each field of a file head can be read back at its own place |
| `BinlogFile.HeadIsOnce` | src/Binlog.cc:28-42 | the bytes of a file head determine all its fields |
| `BinlogFile.Binlog.GetHead` | src/Binlog.cc:28-34 | decodes the head whose fields the next 20 bytes hold |
| `BinlogFile.Binlog.ReadFileHead` | src/Binlog.cc:66-77 | the head read from the front of the file is the one written there |
| `BinlogFile.Binlog.MakeBlockHead` | src/Binlog.cc:160-168 | the magic byte and the big-endian time, padded with zeros to 8 bytes |
| `BinlogFile.Binlog.Write` | src/Binlog.cc:135-219 | refuses with -1 and changes nothing, or the file grows as the layout says and the offset of the new record is returned |
| `BinlogFile.Binlog.GetIterator` | src/Binlog.cc:250-258 | a reader with everything from the start still to be delivered |
| `BinlogFile.Binlog.GetIteratorAt` | src/Binlog.cc:260-271 | a reader standing at the offset, or at the start for an offset inside the file head; at the offset of record i of a well laid-out log it follows the log with records i, i+1, ... in front of it |
| `BinlogFile.Binlog.ReadNextBlock` | src/Binlog.cc:282-308 | the first branch: end of file, short block, or nothing lost and nothing skipped |
| `BinlogFile.Binlog.Reload` | src/Binlog.cc:309-329 | the second branch: the cache shows the whole block again exactly when the file has grown past the reader |
| `BinlogFile.Binlog.LoadBlock` | src/Binlog.cc:330-354 | the third branch: the block is loaded and the reader put behind its head |
| `BinlogFile.Binlog.Fill` | src/Binlog.cc:280-355 | the loading loop ends, with a byte under the reader, the end of file or the short-block error, and what is still to be delivered unchanged; the end of file parks a following reader exactly when the file is full blocks and it does not stand in front of the one to come, or it was parked |
| `BinlogFile.Binlog.DecodeFrame` | src/Binlog.cc:359-398 | decoding through the codec agrees with the format on any cache |
| `BinlogFile.Binlog.Skip` | src/Binlog.cc:359-363 | giving the block up keeps what is still to be delivered |
| `BinlogFile.Binlog.Next` | src/Binlog.cc:273-405 | total on any file: delivers the first item still in front of the reader (record with size, offset and payload, throw, or -1) and leaves exactly the others, or returns 0 when there is none; a 0 parks a following reader exactly when the file is full blocks and the reader does not stand in front of the one to come, takes a parked one exactly one block further, and leaves any other in the file or right at its end |
| `BinlogRuns.WriteAll` | examples/log.cc:36-40 | writing any list to a created log leaves what the layout says, and returns the offset of each accepted record |
| `BinlogRuns.ReadAll` | examples/log.cc:44-47 | reading until 0 delivers exactly what was in front of the reader, in order |
| `BinlogRuns.RoundTripRun` | examples/log.cc:36-54 | creating, writing and reading back through the real reader gives exactly the accepted payloads in order, then 0 |
| `BinlogRuns.HeadRun` | src/Binlog.cc:89-117 | creating a log and reading its head back gives `#BINLOG#`, version 0x0101, data offset 4096, the block size and the creation time |
| `BinlogRuns.RecordOfWrite` | src/Binlog.cc:150-218 | the record of the i-th write stands behind those of the earlier ones, at the offset that write returned |
| `BinlogRuns.ReadBack` | examples/log.cc:36-47 | creating, writing and reading from the offset the i-th write returned gives that record, all later ones, and then 0 |
| `BinlogRuns.DamagedRun` | src/Binlog.cc:273-405 | one block of the file of a well laid-out log is overwritten by bytes that hold no wrapping length behind whole records: reading from the start delivers every record of all other blocks, in order, and then 0 |
| `BinlogRuns.FollowedWrite` | examples/log.cc:49-53 | a write in front of a following reader that is not parked is the last thing it will deliver, its cache stays good, and it is still not parked |
| `BinlogRuns.Step` | src/Binlog.cc:280-355 | one write or read: what was pending with what it wrote is what it delivered with what is pending; refused exactly to a parked reader, if it is a write or the next block is past 2^32 |
| `BinlogRuns.Follow` | examples/log.cc:42-54 | for any interleaving of writes and reads, of any length, in a file below 2^32: what was pending at the start followed by what was written is what was delivered followed by what is pending, and every read in front of which a record was pending delivered one; it stops only at a reader that was parked at the start or by an earlier Next that found no record on a log of full blocks |
| `BinlogRuns.Poll` | src/Binlog.cc:282-292 | every Next of a parked reader takes it one block further and leaves it parked |
| `BinlogFile.Binlog.WrapsAround` | src/Binlog.cc:287-287 | for a block size B that divides 2^32, block index 2^32 / B addresses block 0 again |
| `BinlogRuns.ParkingRun` | src/Binlog.cc:282-292 | for every block size of at least 14 for which the file and one more block stay below 2^32, a reader that is parked by its second Next, right at the end of the file |
| `BinlogRuns.LosingRun` | src/Binlog.cc:282-292 | for the same block sizes: a record fills a block and is read, Next returns 0, a second record is written and is in the log at the offset returned, and Next returns 0 again |
| `TcpReceive.DecodeInPieces` | include/TcpServer.hpp:139-154 | decoding a stream in two pieces, keeping the rest of the first, is decoding it whole |
| `TcpReceive.SentIsReceived` | src/IOBuffer.cc:281-395 | what was sent as strings is received, with no rest |
| `TcpReceive.RestIsSuffix` | src/IOBuffer.cc:281-296 | what decoding leaves is the end of the stream |
| `TcpReceive.Channel.OnMessage` | include/TcpServer.hpp:146-146 | a handler takes as many bytes as it chooses, or throws; a handler of strings takes all complete strings and leaves the incomplete rest unread |
| `TcpReceive.Channel.OnReadable` | include/TcpServer.hpp:116-157 | cache and chunk are the bytes consumed followed by the new cache; a handler that returns consumes exactly what it took, at most everything, and a handler of strings leaves the incomplete rest; a full cache, a closed connection and a throwing handler consume nothing, and after a throw the chunk stands behind the old cache |
| `TcpReceive.ConsumesMeans` | include/TcpServer.hpp:139-154 | what a handler consumes: nothing if it throws, otherwise what it took, or all up to the first incomplete string |
| `TcpReceive.ThrowJoins` | include/TcpServer.hpp:139-154 | for any run: an event whose handler throws can be left out if its chunk arrives joined to the next one; all later handlers consume the same |
| `TcpReceive.Channel.Compact` | include/TcpServer.hpp:148-154 | the cache loses exactly its consumed front |
| `TcpReceive.NothingLost` | include/TcpServer.hpp:116-157 | for any chunks and handlers the bytes received are those consumed followed by the cache |
| `TcpReceive.ServeStream` | include/TcpServer.hpp:116-157 | for any chunking and any handlers: consumed bytes, cache and what is still to come are the stream, and each handler consumed exactly what it took; the strings handled are those completed so far, however the stream was cut; every event is served unless the stream ends or the cache is full |
| `TcpReceive.LeftIsSmall` | include/TcpServer.hpp:148-154 | if every encoded string fits the cache, what is left of the stream at any cut is smaller than the cache |
| `TcpReceive.NeverComplete` | include/TcpServer.hpp:118-124 | a string that does not fit the cache is never complete, however the stream is cut |
| `TcpReceive.ServeStrings` | include/TcpServer.hpp:116-157 | with an event for every byte, a server of strings serves the whole stream and handles every string if and only if every encoded string fits the cache; otherwise it has handled the strings completed so far and ends with a full cache |
| `Balancing.PickIsInterval` | include/LoadBalance.hpp:228-243 | a seed of at least 1 selects a point exactly when it falls in that point's interval of the quotas laid end to end |
| `Balancing.DrawTakesAQuota` | include/LoadBalance.hpp:226-243 | a draw takes a quota that is there exactly for seeds in 1..total, or 0 when the first point has one; seeds past the total select nothing |
| `Balancing.SeedsMatchQuotas` | include/LoadBalance.hpp:228-243 | in any state exactly as many of the seeds 1..total select a point as it has quotas left |
| `Balancing.EpochIsExact` | include/LoadBalance.hpp:203-243 | drawing until the total is used up selects every point exactly as often as its starting quota, whatever the seeds |
| `Balancing.ResetPoint` | include/LoadBalance.hpp:49-69 | a point keeps between 1 and its maximum, its quota if nothing was sent, and its counters start again |
| `Balancing.ResetAdjusts` | include/LoadBalance.hpp:49-69 | the policy by loss rate: cut to 1 above 3 of 100, otherwise a gain of a fifth of the maximum below 5 of 10000 and of a twentieth from there on, up to the maximum; nothing without traffic |
| `Balancing.MoreRepliesNeverFewer` | include/LoadBalance.hpp:49-69 | of two points that differ in their replies only, the one with more replies never gets fewer quotas |
| `Balancing.FallsIfLossy` | include/LoadBalance.hpp:53-57 | a point above 1 falls to 1 if more than 3 of 100 were lost, and falls in no other case |
| `Balancing.RecoversBy` | include/LoadBalance.hpp:58-65 | a point below its maximum gains a fifth of it, and no more than is missing, below 5 lost of 10000, and a twentieth between the two rates; where the two gains differ, a fifth exactly below that rate |
| `Balancing.TooManyReplies` | include/LoadBalance.hpp:53-57 | a point with more replies than requests counts as lossy and falls to 1 |
| `Balancing.FivePeriods` | include/LoadBalance.hpp:49-69 | from any quota, five lossless periods with traffic reach a maximum divisible by 5 |
| `Balancing.TakeEffect` | include/LoadBalance.hpp:236-238 | taking a quota that is there lowers the sum by one; taking one that is not wraps it |
| `Balancing.LoadBalance.AddServicePoint` | include/LoadBalance.hpp:98-110 | one point joins unless its address is there; the total stays the sum if and only if the address is new or the quota 0 |
| `Balancing.LoadBalance.EraseServicePoint` | include/LoadBalance.hpp:246-255 | exactly that address leaves, the total stays the sum, nothing else changes |
| `Balancing.LoadBalance.Failure` | include/LoadBalance.hpp:257-267 | exactly that point is out for the epoch and restarts at 1, the total stays the sum, nothing else changes |
| `Balancing.LoadBalance.Success` | include/LoadBalance.hpp:269-277 | exactly that point counts a reply, in 32 bits, nothing else changes |
| `Balancing.LoadBalance.Refill` | include/LoadBalance.hpp:205-218 | every point gets its current quota back, first adjusted by its loss rate, with counters that start again, exactly if a period is over; the total is the sum |
| `Balancing.RefilledRenews` | include/LoadBalance.hpp:208-217 | a refilled point has its quota back, and is adjusted, with counters that start again, exactly if a period is over |
| `Balancing.PreparedMeans` | include/LoadBalance.hpp:203-218 | in front of a draw the points are the old ones, or are refilled once the total is 0 or more than 10 seconds have passed, and adjusted exactly in the second case |
| `Balancing.LoadBalance.Draw` | include/LoadBalance.hpp:228-243 | the walk stops at the point the seed selects and takes one quota of it and of the total, or changes nothing |
| `Balancing.LoadBalance.Epoch` | include/LoadBalance.hpp:228-243 | drawing until the total is 0 hands out every address exactly as often as its point had quotas, and leaves none |
| `Balancing.LoadBalance.Route` | include/LoadBalance.hpp:197-244 | changes no point before the draw while the period lasts and quotas are left, otherwise refills each of them, adjusted by its loss rate exactly if the period is over; then draws, and keeps the books if and only if the seed is in 1..total, or 0 on a first point with a quota |
| `Balancing.RandMaxMisses` | include/LoadBalance.hpp:226-243 | a rand() of RAND_MAX selects nothing, whatever the points |
| `Balancing.ThreeDraws` | include/LoadBalance.hpp:228-243 | on two points of quota 1 the seed 3 selects none, 1 the first, and then 0 the first again, whose quota wraps |
| `Balancing.WrongSeeds` | include/LoadBalance.hpp:197-244 | a balancer of two points of quota 1 on which one Route selects nobody and, after one that goes well, another makes a quota wrap to 2^32 - 1 |
| `BalancingRuns.EpochOfRoutes` | include/LoadBalance.hpp:197-244 | an epoch of calls of Route at any times within one period, whose seeds lie in 1..total at their time, hands out every address exactly as often as its point had quotas; every point has sent that often, and none has a quota left |
| `BalancingRuns.Make` | include/LoadBalance.hpp:98-277 | the effect of a call of Add, Erase, Failure, Success or Route on points, total and timestamp; it keeps the books exactly unless it adds an address again with a quota, or draws seed 0 on a first point that has no quota left and a quota below 2^32 - 1 |
| `BalancingRuns.Run` | include/LoadBalance.hpp:98-277 | any script of such calls is a trace that starts at the old balancer, takes every call with its effect, and ends at the new one; the total is the sum of the remaining quotas in 32 bits in every state, to the end or up to the first call that breaks the books in one of these two ways |
| `ConnectionPooling.ConnectionPool.HeldIsApart` | include/ConnectionPool.hpp:161-198 | a held connection is in no list and carried by no live timer |
| `ConnectionPooling.ConnectionPool.IdleIsOnce` | include/ConnectionPool.hpp:200-226 | an idle connection is in the list of its address only, and exactly one live timer carries it |
| `ConnectionPooling.ConnectionPool.NewConnInfo` | include/ConnectionPool.hpp:291-301 | a new connection while the limit allows, counted; nothing otherwise |
| `ConnectionPooling.ConnectionPool.Attach` | include/ConnectionPool.hpp:161-198 | the idle connection put back last, or a new one, becomes held; nobody held it before and no other holder changes; an idle one leaves the front of its list and loses its timer, and no other list or timer changes; -1 exactly at the limit with nothing idle |
| `ConnectionPooling.ConnectionPool.Detach` | include/ConnectionPool.hpp:200-226 | a held connection becomes idle in front of its list under a new timer, and no other list, timer or setting changes; the timer is due as many whole intervals after the reading as the idle timeout has, which from 2^31 on counts as negative, or at the current tick; a connection nobody holds is left alone |
| `ConnectionPooling.ConnectionPool.Erase` | include/ConnectionPool.hpp:228-238 | exactly that connection is gone and the count stays right; ownership stays sound if and only if somebody held it |
| `ConnectionPooling.ConnectionPool.OnTimeout` | include/ConnectionPool.hpp:240-257 | exactly the timed-out idle connection leaves its list and is gone; every list keeps its other connections in order |
| `ConnectionPooling.ConnectionPool.FireTimer` | include/ConnectionPool.hpp:240-257 | a firing timer deletes the idle connection it carries and nothing else; every list keeps its other connections in order |
| `ConnectionPooling.ConnectionPool.CheckTimer` | include/ConnectionPool.hpp:240-257 | a legal run of the timers, after which exactly the idle connections whose time had come are gone; every address keeps its list without them, in order, no held connection is touched, and every other timer is pending as before |
| `ConnectionPooling.LeftAlone` | include/ConnectionPool.hpp:200-257 | a connection detached and left alone through any checks is deleted exactly if some check lies past the tick current at its detachment and the idle timeout is less than the intervals from the reading to that check; timeouts from 2^31 on count as negative |
| `ConsistentHashing.ConsistentHash.Insert` | include/ConsistentHash.hpp:102-120 | the node gets its points that were free, all other points keep their owners; its points are as many as virtual size times quota, at least 1: the first is the largest multiple of the alignment up to the hash of the key, each further one the largest up to the second hash of the one before |
| `ConsistentHashing.ConsistentHash.ClaimAll` | include/ConsistentHash.hpp:107-117 | the loop claims exactly the free ones among the first points of the chain, the first point in any case |
| `ConsistentHashing.AlignIsBelow` | include/ConsistentHash.hpp:107-117 | aligning gives the multiple of the alignment at most one alignment below |
| `ConsistentHashing.SpacedOnce` | include/ConsistentHash.hpp:107-117 | this spacing determines every point of a node |
| `ConsistentHashing.PointsAreSpaced` | include/ConsistentHash.hpp:107-139 | the points a node claims or loses are a chain spaced like this, of the length asked for, at least 1 |
| `ConsistentHashing.ConsistentHash.Delete` | include/ConsistentHash.hpp:122-142 | the ring loses the first `VirtualSize` points of the node, spaced as Insert spaces them, and nothing else; on a sound ring a point dangles afterwards if and only if, before the call, the object at the first point of the node also has a point that is not dropped |
| `ConsistentHashing.ConsistentHash.Hash` | include/ConsistentHash.hpp:144-152 | the owner of the first point at or after the key, null exactly past the last point |
| `ConsistentHashing.OneNode` | include/ConsistentHash.hpp:102-152 | on a ring of one node of quota 1 and virtual size 1, the own key of the node finds it exactly if its hash is a multiple of the alignment |
| `ConsistentHashing.UnownedIsPastTheEnd` | include/ConsistentHash.hpp:148-151 | a position has no owner exactly when it lies past the last point |
| `ConsistentHashing.AddedIsStable` | include/ConsistentHash.hpp:102-120 | an insertion changes the owner of exactly the positions that a new point captures, and to the new node only |
| `ConsistentHashing.RemovedIsStable` | include/ConsistentHash.hpp:122-142 | removing points changes no position whose owner loses none of them |
| `ConsistentHashing.RestoredIff` | include/ConsistentHash.hpp:102-142 | dropping after adding restores a ring if and only if nothing older is dropped and nothing new survives |
| `ConsistentHashing.DeleteUndoesInsert` | include/ConsistentHash.hpp:102-142 | Delete after Insert restores the ring if and only if no dropped point was taken and every further point of the node was; for quotas up to 1, if and only if none was taken |
| `ConsistentHashing.LargeQuotaLeavesPoints` | include/ConsistentHash.hpp:136-141 | a node of quota 2 of which Delete leaves half the points |
| `ConsistentHashing.Hashing.SmallQuota` | include/ConsistentHash.hpp:112-136 | a node of quota 0 or 1 has no point that Delete does not drop |
| `ConsistentHashing.DeleteMovesOnlyItsKeys` | include/ConsistentHash.hpp:122-142 | among nodes that share no point, deleting one changes the owner of no key it did not own |
| `ConsistentHashing.DanglesIff` | include/ConsistentHash.hpp:128-141 | a corollary for nodes that share no point: that is the case exactly if the node has points that are not dropped, and never for quotas up to 1 |
| `ConsistentHashing.DanglesExactly` | include/ConsistentHash.hpp:128-141 | on any sound ring, the condition before the call decides whether a point dangles after it |
| `ConsistentHashing.CollidingRun` | include/ConsistentHash.hpp:102-142 | two nodes of quota 1 whose points collide, and a Delete of the second that leaves a point at the deleted object of the first |
| `ConsistentHashing.RunConsists` | include/ConsistentHash.hpp:102-142 | over every run of insertions and deletions of nodes that share no point the ring is exactly the points of its present members |
| `ConsistentHashing.SameNodesSameRing` | include/ConsistentHash.hpp:102-142 | a ring is determined by its nodes |
| `ConsistentHashing.MembersDecide` | include/ConsistentHash.hpp:102-152 | two runs that leave the same members give every key the same owner |

## Left out

Limits of what is stated:

- TimingWheel.Timer.SetTimeout: ids are unbounded, so the 32-bit id counter never wraps onto a live id.
- TimingWheel.Timer.CheckTimer: the current tick stays below 2^64 (deadlines are computed in 64 bits, and a timeout
  further back than tick 0 wraps); a callback that itself calls CheckTimer is not modelled; the order of firings inside
  one tick is left open.
- TimingWheel.Timer.Update: the branch behind a failing InternalAddTimerItem (`include/Timer.hpp:267-272`) is dead and
  left out.
- TimingWheel.Timer.InternalAddTimerItem: the five vectors are one array of 512 slots end to end, and a back pointer is
  a slot number.
- TimingWheel.Timer.Unlink: one method for the same lines in Update and Clear; it also clears the links Clear leaves in
  a deleted item.
- TimingWheel.Timer.FireFirst: `delete` is the item leaving the ghost set of linked items, and a throwing callback is
  one that makes fewer calls.
- BinlogFile.Binlog.Next: file size plus one block, and the offset of the block behind the reader, are below 2^32;
  blocks fit a signed size; a parked reader passes that offset after enough polls; what Next does after it has returned
  -1 is not stated, nor a null iterator; the returns
  for an empty or short block on a reload (`src/Binlog.cc:325-328`) are dead, because the file only grows.
- BinlogRuns.RoundTripRun: takes payloads that leave room for the block head; `BinlogTheorems.RoundTrip` says that this
  is exactly when the law holds.
- BinlogRuns.Follow: the file it grows to and one more block are below 2^32. It stops at a parked reader in front of a
  write, or when the next block is past 2^32; `BinlogTail.WriteReachesReader` and `BinlogRuns.LosingRun` say what such
  a reader misses.
- BinlogRuns.DamagedRun: takes bytes without a wrapping length; `BinlogTheorems.DamageIsContained` says what is
  delivered otherwise.
- Codec.IOBuffer.GetUInt: one method for the unsigned operators of 1, 2, 4 and 8 bytes; the signed ones differ in the
  C++ type only.
- TcpReceive.SentIsReceived: takes strings below 65536 bytes; `Codec.StringRoundTrip` says why.
- Balancing.EpochIsExact: takes seeds in 1..total; `Balancing.DrawTakesAQuota` says what the other two seeds do.
- Balancing.ResetPoint: the rates 0.03, 0.0005, 0.2 and 0.05 are exact rationals, not doubles, and a quota past 2^32 is
  cut to the maximum as if the conversion were defined.
- Balancing.LoadBalance.Route: the seed is computed exactly, where the source computes it in a double; what a seed does
  is stated of every seed, so rounding can only change which one a value of rand() gives.
- ConnectionPooling.ConnectionPool.Detach: the idle timeout is not 0; with KEEPCONNECTION idle connections have no
  timer.
- ConnectionPooling.ConnectionPool.CheckTimer: the timer is the machine the wheel refines, not the wheel itself, and is
  used by this pool only.
- ConsistentHashing.ConsistentHash.Insert: the hash functions are arbitrary, the alignment is not 0, and the product of
  virtual size and quota does not wrap.

Not modelled at all:

- Sockets, epoll, processes, threads, signals, singletons and the clock: clock readings, received chunks and random
  numbers are parameters.
- I/O failures and short writes; `OpenLog` as a writer, whose O_APPEND defeats the padding seek.
- `TcpClient`, `KeepConnectClient` and `Session`, which repeat the reassembly and the pool in weaker form.
- `Dump` functions, positional reads and writes of `IOBuffer`, `WriteSeek`, `LoadConfigure`, configuration, logging,
  character sets, MySQL and Redis; MD5 itself.
