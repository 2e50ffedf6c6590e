# Byte-addressed disks over a sector device: model and proofs

The repository reads and writes virtual disks through VMware's disk library, which only transfers
whole 512-byte sectors. `DiskConnectHandle` turns that into reads and writes of any byte range,
`DiskReaderWriter` adds a shared stream offset, and `VadpDumper` queries allocated blocks and clones
disks with them. This project models these layers in Dafny and proves what they do, for every input,
every interleaving and every pattern of failing library calls.

| file | what it holds |
|---|---|
| `Bytes.dfy`, `Layout.dfy` | splices of byte strings; how a byte range splits into a misaligned head, an aligned middle and a misaligned tail |
| `Device.dfy` | the disk library as a sector device whose calls act exactly or fail and change nothing; mutexes; the request trace |
| `DiskHandle.dfy`, `ReaderWriter.dfy` | `ReadAt`, `WriteAt`, `Read`, `Write`, `Seek` as imperative methods, proved against byte slices and splices |
| `Protocol.dfy`, `Locks.dfy` | the same calls as a transition system: any number of threads, one step per device call, two mutexes; invariants, deadlock freedom, finiteness |
| `LostUpdate.dfy`, `Updates.dfy`, `Serial.dfy`, `Order.dfy`, `Sequential.dfy` | in which runs no update is lost, and in which calls are atomic, keep real time and act as the sequential methods |
| `Apart.dfy`, `Exact.dfy`, `Pairs.dfy`, `Witness.dfy` | for which calls that holds in every schedule: exactly when no update can be lost, exactly when an aligned and a misaligned call are atomic, and runs that show the failures |
| `Stream.dfy`, `Landing.dfy` | the shared offset over whole runs: how it moves, and where and in which order the calls through it take effect |
| `Clone.dfy`, `Errors.dfy`, `Spill.dfy` | `DumpCloneDisk`: its exact termination condition, which error it reports, and exactly when it writes stale bytes behind the end of its source |
| `Query.dfy` | `QueryAllocatedBlocks`, and query and clone together |
| `Lifecycle.dfy`, `Dumper.dfy` | acquiring and releasing access, connections and disk handles under every failure |
| `Metadata.dfy` | splitting NUL-terminated keys and copying a disk's metadata table |
| `Options.dfy` | the option type |

How the main results are built:

- `WriteOutcome` and `ReadOutcome` say what one call does to the flat disk and the buffer at whichever
  device call it stops. The methods are proved against them; everything above (the algebra of calls, the
  clone) is proved from them alone, and `Sequential.CallsActAlone` shows that concurrent calls keep to them too.
- A run of the protocol is a sequence of actions, and `Exec` gives the state it leads to. Theorems about
  runs hold for all runs; their conditions (`Undisturbed`, `Isolated`) are about which device calls overlap.
- Two theorems say for which calls the promises hold, over all disks and schedules: `Exact.LosesNothingExact` for
  lost updates and any number of calls, `Pairs.PairExact` for the existence of an order of an aligned and a
  misaligned call. Their conditions only mention the offsets, lengths and directions of the calls.
- The clone loop does not always end, so `DumpCloneDisk` has a bound `fuel` on its iterations and may end as
  `StillRunning`. The proofs say exactly when that happens for every fuel.
- The disk library of the lifecycle is a ledger of what is outstanding, with a count of breaches: calls that
  name something not live, or that disconnect under an open handle.

Modelling decisions:

- A sector is 512 bytes, as dumper/dumper.go:570-572 says. The disk's capacity is the one `GetInfo`
  reported, the same for the handle and the device. Offsets given to `ReadAt` and `WriteAt` are not negative.
- Device calls are all or nothing, and any of them may fail with any non-zero code.
  The transition system only records that a call failed; with which error is stated for `ReadAt` and `WriteAt`.
- In the protocol each thread makes one call. A thread making several calls is several threads, each
  entered after the one before is done; the theorems hold for every schedule, so also for these, and
  the order of the log respects that (`Order.RealTime`).
- `VIXDISKLIB_MAX_CHUNK_NUMBER` is a parameter, any positive number. The block query answers soundly and
  completely for each window, in chunks.
- The device answers empty requests and requests past the end of the disk with an error, and the block query
  may answer anything for a window that is not cut at chunks of 2048 sectors.
- Metadata sizing calls report the exact length through the buffer-too-small error, or fail.
- `DumpRestoreDisk` (dumper/dumper.go:615-617) is `DumpCloneDisk` with the handles' roles set by the mode,
  so `Clone.DumpCloneDisk` covers it.

Where the code and what is written about it differ, the model follows the code:

- README.md:225-227 says a read returns the number of bytes read. `ReadAt` copies a misaligned tail without
  counting it (pkg/virtual_disks/gvddk.go:234-245), so the count can be short without an error.
  `Layout.ReadCountExact` states the exact count; `Clone.HangsAt` shows that a clone of such a range never ends.
- README.md:212-217 says a failed `Open` rolls back to the initial state. It does not close the disk handle
  when `GetInfo` fails (pkg/virtual_disks/gvddk.go:67-71): `Lifecycle.OpenRestores`.
- The comments at pkg/virtual_disks/gvddk.go:198-199 and 256-257 say that locking misaligned calls always
  gives correct behaviour. It does among misaligned calls (`Order.MisalignedAreAtomic`). An aligned write into a
  sector that a misaligned write only covers in part can be lost, and nothing else can (`Exact.LosesNothingExact`);
  an aligned call that conflicts with two device parts of a misaligned one can see half of it (`Pairs.PairExact`).
- dumper/dumper.go:590-597 writes the whole buffer whatever the read filled. Where an area runs over the end of the
  source and the target is larger, what the buffer held of an earlier block lands on the target behind that end,
  and then the next read fails. `Spill.SpillExact` says exactly for which areas, `Spill.SpillExample` gives an input.

## Model

| member | source | states |
|---|---|---|
| Bytes.SpliceCommutes | pkg/virtual_disks/gvddk.go:248-316 | stores to disjoint byte ranges commute, also inside one sector |
| Bytes.PatchWindow | pkg/virtual_disks/gvddk.go:266-287 | read-modify-write of a sector is the store of the patched bytes alone |
| Bytes.PatchWindowExact | pkg/virtual_disks/gvddk.go:266-287 | writing back a patched copy acts as the store of the patch if and only if the copy agrees with the disk on every byte outside the patch |
| Layout.PiecesTile | pkg/virtual_disks/gvddk.go:194-243 | for every offset and length, head, middle and tail cover the buffer once without gaps and the sectors floor(off/512) to ceil((off+len)/512) once in increasing order, each part's bytes inside its sectors |
| Layout.PiecesInside | pkg/virtual_disks/gvddk.go:261-314 | a range inside the disk only asks for sectors of the disk |
| Layout.ReadCountExact | pkg/virtual_disks/gvddk.go:210-245 | the count of a successful read is its length if and only if the range ends on a sector boundary or lies in one misaligned sector; otherwise it stops at the last sector boundary |
| Device.SectorDevice.Read | pkg/disklib/gvddk_api.go:443-450 | a device read fills exactly its part of the buffer with the sectors, or fails and changes nothing; an empty request or one past the end fails |
| Device.SectorDevice.Write | pkg/disklib/gvddk_api.go:452-459 | a device write replaces exactly its sectors, or fails and changes nothing; an empty request or one past the end fails |
| Device.HeadRequests | pkg/virtual_disks/gvddk.go:266-287 | a misaligned head asks for its one sector, and a write reads it before writing it |
| Device.MidRequests | pkg/virtual_disks/gvddk.go:289-299 | the middle is one request for all its whole sectors, at the sector where the head ended |
| Device.TailRequests | pkg/virtual_disks/gvddk.go:301-314 | a misaligned tail asks for its one sector, and a write reads it before writing it |
| DiskHandle.ClampExact | pkg/virtual_disks/gvddk.go:189-193 | slicing the buffer through int32 keeps exactly the part on the disk if and only if nothing is cut or fewer than 2^31 bytes are left, and never keeps more |
| DiskHandle.DiskConnectHandle.ReadAt | pkg/virtual_disks/gvddk.go:184-246 | at whichever device call it stops: the buffer holds the disk's bytes up to the returned boundary and is untouched after it; success fills the whole clamped range and returns the exact count; its requests tile the range; the error of a failed call is end of file exactly for code 16007 and otherwise the code itself; the mutex was taken once exactly for a misaligned range on the disk, and is free again |
| DiskHandle.DiskConnectHandle.ReadPieces | pkg/virtual_disks/gvddk.go:203-245 | the three-part body equals one slice of the flat disk, or a prefix of it with the mapped error; the error is end of file exactly for code 16007 and otherwise the code itself |
| DiskHandle.DiskConnectHandle.ReadSector | pkg/virtual_disks/gvddk.go:205-217 | reading a sector aside and copying part of it fills exactly that part of the buffer with the disk's bytes |
| DiskHandle.DiskConnectHandle.WriteAt | pkg/virtual_disks/gvddk.go:248-316 | at whichever device call it stops the disk is the old one with exactly the first n bytes stored at the offset; success means n is the whole length; a range past the end changes nothing; a failed tail write-back returns its code wrapped, any other failed call end of file exactly for code 16007 and otherwise the code itself; the requests tile the range; the mutex was taken once exactly for a misaligned range on the disk, and is free again |
| DiskHandle.DiskConnectHandle.WritePieces | pkg/virtual_disks/gvddk.go:261-315 | the three-part body equals one splice of the flat disk, or of a prefix of the data |
| DiskHandle.DiskConnectHandle.PatchSector | pkg/virtual_disks/gvddk.go:267-283 | read, modify and write of one sector stores exactly the patched bytes, or changes nothing whichever call fails |
| ReaderWriter.DiskReaderWriter.Read | pkg/virtual_disks/gvddk.go:83-90 | reads at the stream offset and moves it by exactly the returned count, error or not; an error is end of file without a failed device call, or that call's |
| ReaderWriter.DiskReaderWriter.Write | pkg/virtual_disks/gvddk.go:92-99 | writes at the stream offset and moves it by exactly the returned count, error or not; an error is a short write without a failed device call, or that call's |
| ReaderWriter.DiskReaderWriter.Seek | pkg/virtual_disks/gvddk.go:101-120 | from the start it goes to the given offset, from the current one that far further, and for an unknown base it stays; a negative target and the end as base are refused and leave the offset; the stream mutex is taken once, and both mutexes are free again |
| ReaderWriter.ReadAfterWrite | pkg/virtual_disks/gvddk.go:184-316 | a successful read of a range just written fills the buffer with what was written |
| ReaderWriter.LaterWriteWins | pkg/virtual_disks/gvddk.go:248-316 | of two writes, complete or cut short, each byte holds what the later stored there, else the earlier, else what was there |
| ReaderWriter.DisjointWritesCommute | pkg/virtual_disks/gvddk.go:248-316 | writes of disjoint ranges give the same disk in either order, also in a shared sector and when refused |
| ReaderWriter.ArithmeticFits | pkg/virtual_disks/gvddk.go:185-194 | the capacity in bytes fits int64 if and only if the disk has fewer than 2^54 sectors; below 2^53 sectors, with buffers up to 2^31 bytes, sums and the int32 narrowing are exact |
| Locks.ShapeAlways | pkg/virtual_disks/gvddk.go:83-99 | in every reachable state the lock holders are in the phases that hold them, the offset is not negative, and every transfer in progress fits disk, data and buffers |
| Locks.AlwaysTransferable | pkg/virtual_disks/gvddk.go:204-243 | no transfer in progress slices its data or sector buffer out of bounds or leaves the disk |
| Locks.NoDeadlock | pkg/virtual_disks/gvddk.go:83-104 | in every reachable state with an unfinished call some step is enabled |
| Locks.FreeAtTheEnd | pkg/virtual_disks/gvddk.go:255-260 | when all calls have returned both mutexes are free, also after errors |
| Locks.RunsAreFinite | pkg/virtual_disks/gvddk.go:197-202 | a run has at most ten steps per call, so with deadlock freedom every call returns |
| LostUpdate.WriteBackIsSplice | pkg/virtual_disks/gvddk.go:279-283 | a device write whose sector is still as read stores exactly its call's bytes |
| LostUpdate.WriteBackExact | pkg/virtual_disks/gvddk.go:279-283 | a write-back stores exactly its call's bytes if and only if the sector it read agrees with the disk on every other byte |
| LostUpdate.DiskIsReplay | pkg/virtual_disks/gvddk.go:255-314 | in every run without an aligned write into a sector being patched, the disk is always the start disk with the byte stores made so far, in order |
| LostUpdate.ReplayAt | pkg/virtual_disks/gvddk.go:248-316 | a replayed byte holds what the last store that hits it put there, or its start value if none does |
| Updates.AccountedAlways | pkg/virtual_disks/gvddk.go:261-315 | in every run each device write carries a part of one call's data to its place, and every byte a call counts as stored went out in one |
| Updates.NoLostUpdate | pkg/virtual_disks/gvddk.go:255-299 | in every such run, a byte no call has stored is as at the start, and a stored byte holds what one of the calls that stored it put there |
| Serial.Serializable | pkg/virtual_disks/gvddk.go:197-202 | in every run without an aligned transfer that conflicts with the misaligned one in progress, the log of finished transfers replays to the disk and every read is a slice of the disk at its place in the log |
| Serial.MisalignedIsolated | pkg/virtual_disks/gvddk.go:255-260 | runs whose device calls all belong to misaligned transfers meet that condition |
| Serial.IsolatedUndisturbed | pkg/virtual_disks/gvddk.go:180-182 | the condition for atomicity includes the one for not losing updates |
| Order.OrderedAlways | pkg/virtual_disks/gvddk.go:197-202 | in every run the log lists each transfer that moved data once, with the data it moved, misaligned ones in the order they took the mutex |
| Order.CallsAreAtomic | pkg/virtual_disks/gvddk.go:184-316 | a finished run meeting the condition took effect one call at a time: the disk is the log's, every call that moved data is in it once, and every read got the disk at its place (`Order.RealTime` and `Sequential.CallsActAlone` add real time and results) |
| Order.RealTime | pkg/virtual_disks/gvddk.go:197-202 | in every run, whatever the calls and failures, a call that returned before another began comes before it in the log |
| Order.MisalignedAreAtomic | pkg/virtual_disks/gvddk.go:197-202 | any number of threads making only misaligned calls are serializable in mutex order, whatever the interleaving and the failures |
| Sequential.CountedAlways | pkg/virtual_disks/gvddk.go:194-245 | in every run a call returns the count that fits what it moved: everything, with the exact count of a read, or up to the boundary between two parts where it stopped |
| Sequential.CallsActAlone | pkg/virtual_disks/gvddk.go:184-316 | in a finished run meeting that condition, the call at each place of the log did to the disk and to its buffer, and returned, exactly what the sequential `ReadAt` or `WriteAt` does alone on the disk as the calls before it left it, with an error exactly when one of its device calls failed |
| Sequential.UnloggedActsAlone | pkg/virtual_disks/gvddk.go:184-253 | a finished call outside the log was refused by its range check, with an error, or moved nothing, as it would alone at any moment |
| Sequential.IsolatedHasOrder | pkg/virtual_disks/gvddk.go:197-202 | in a finished run meeting that condition all calls, refused ones too, can be put in an order in which each acts as the sequential methods on the disk the one before left, down to the final disk |
| Witness.LostUpdateRun | pkg/virtual_disks/gvddk.go:288-299 | for every disk and data there is a run in which a successful aligned write leaves nothing on the disk |
| Witness.ConditionsNeeded | pkg/virtual_disks/gvddk.go:261-299 | for two writes inside one sector, one of them of the whole sector, that run ends in a disk that no order of the two gives, and violates both conditions |
| Exact.LosesNothingExact | pkg/virtual_disks/gvddk.go:255-299 | main result: for any calls, no schedule on any disk under any failures ever loses an update if and only if no aligned write overlaps a sector that a misaligned write covers only in part |
| Exact.LosingRun | pkg/virtual_disks/gvddk.go:266-299 | for any such pair among any calls, on every disk that differs from the aligned data there is a schedule that loses an update |
| Pairs.PairExact | pkg/virtual_disks/gvddk.go:180-202 | main result: on every disk every finished schedule of an aligned and a misaligned call is explained by one of their orders (disk, data, counts, errors) if and only if the aligned one neither writes a sector the write only covers in part nor conflicts with two device parts of the misaligned one |
| Pairs.CompatibleHasOrder | pkg/virtual_disks/gvddk.go:184-316 | one direction, for one disk and one schedule under any failures |
| Pairs.TornRun | pkg/virtual_disks/gvddk.go:203-243 | otherwise, one of them reading and meeting two parts of the other: a schedule in which the read returns data that no order gives |
| Pairs.UndoneRun | pkg/virtual_disks/gvddk.go:266-299 | otherwise, with a partly covered sector: a schedule in which both writes succeed and no order gives the disk |
| Pairs.MiddleOverlapHasOrder | test/multithread_test.go:309-332 | the two writes of that test overlap in one device part, so each of their finished schedules has an order, on every disk and for all data |
| Apart.ClearExact | pkg/virtual_disks/gvddk.go:255-299 | about overlap in time: no schedule of given calls lets an aligned write fall into a read-modify-write of a sector it overlaps if and only if those calls meet the condition above |
| Apart.ApartExact | pkg/virtual_disks/gvddk.go:197-202 | about overlap in time: every schedule of given calls keeps conflicting transfers apart if and only if no aligned transfer overlaps the sectors of a misaligned one of which one writes |
| Apart.ClearCallsLoseNothing | pkg/virtual_disks/gvddk.go:248-316 | calls that meet the first condition lose no update in any schedule, under any failures |
| Apart.ApartCallsAreAtomic | pkg/virtual_disks/gvddk.go:184-316 | any number of calls that meet the second are atomic in every schedule |
| Apart.MiddleOverlapIsClear | test/multithread_test.go:309-332 | the two writes of that test overlap in the middle only, so they meet the first condition for every disk and data, and not the second |
| Stream.OffsetHistory | pkg/virtual_disks/gvddk.go:83-120 | over every run the offset is never negative and is the chain of the finished stream calls, each moving it once: a seek to its target, per base; a read or write by its count, for a transfer of its data or length at exactly the offset it found, or by nothing for a range that is not on the disk |
| Stream.FaithfulAlways | pkg/virtual_disks/gvddk.go:83-90 | on a disk no write has reached, every stream read delivered exactly the slice between the offsets before and after it |
| Stream.ReadsAreContiguous | pkg/virtual_disks/gvddk.go:79-90 | consecutive stream reads of any threads put together are the slice from the first offset to the last, nothing skipped or delivered twice |
| Landing.StreamWriteLands | pkg/virtual_disks/gvddk.go:92-99 | over every run, each device write of a call that wrote through the shared offset lies between the offsets before and after it and carries the bytes of its data that belong there, and every byte between them went out in one |
| Landing.FragStored | pkg/virtual_disks/gvddk.go:279-299 | a step adds one device write, whose bytes are then on the disk, or leaves the disk as it is |
| Landing.StreamOrder | pkg/virtual_disks/gvddk.go:83-99 | in every run the calls through the shared offset take effect on the disk in the order in which they move the offset |
| Landing.StreamActsAlone | pkg/virtual_disks/gvddk.go:83-99 | in a finished run without conflicting transfers each of them does, delivers and returns what the sequential `ReadAt` or `WriteAt` does alone at the offset it found, on the disk as the calls before it left it |
| Landing.UnloggedStreamAlone | pkg/virtual_disks/gvddk.go:83-99 | and one that moved no data, refused ones included, does the same on any disk |
| Clone.OneIteration | dumper/dumper.go:586-602 | an iteration never passes the end, makes progress on a range that meets the condition, never reaches the end of one that does not, and keeps the condition |
| Clone.TerminationExact | dumper/dumper.go:585-606 | without errors the inner loop ends if and only if the range is empty, ends on a sector boundary, or lies in one misaligned sector |
| Clone.HangsAt | dumper/dumper.go:586-602 | an iteration makes no progress if and only if it starts on a sector boundary with less than a sector left |
| Clone.CopyBlock | dumper/dumper.go:587-602 | one iteration reads the disk's bytes into the filled part of the buffer, stores the whole buffer or a prefix of it at the same offset, reports the read's count, and fails only on a device fault or at an end of a disk; the error is the failed device call's, the source's for a read and the target's for a write, or without one end of file for a read and short write for a write |
| Clone.CopyStep | dumper/dumper.go:586-606 | an iteration keeps: before the end of the source only source bytes were stored and only inside the area; behind it nothing before the offset reaches that end, and then exactly the stale bytes of the buffer; the area is copied up to the end of the last buffer although the offset may lag behind it; and the stopping condition is that of the whole area |
| Clone.CopyArea | dumper/dumper.go:582-606 | success means the area meets the stopping condition, lies on both disks and equals the source; a failure needs a fault or a range off a disk and leaves each byte old or copied before the end of the source, old or stale behind it; without faults, a block that runs over that end and fits the target leaves all its stale bytes and the loop ends with end of file; a range that stops does so within its length in iterations; without faults the result is the one that the sizes and the range determine, given its length in iterations |
| Clone.DumpCloneDisk | dumper/dumper.go:566-609 | for any list of areas in any order and overlap: success means exactly the bytes of the areas are the source's and all others unchanged; otherwise bytes outside the areas are old, inside them old or the source's before its end, old or the stale buffer's behind it; without faults and with the areas on both disks it succeeds, given enough iterations, if every area meets the stopping condition, and otherwise runs on for every bound; at most one device call fails, and the error is its code, the source's for a failed read and the target's for a failed write; without faults a failed read is end of file, a failed write a short write, and which of them is reported is what `Errors.VerdictExact` says |
| Errors.VerdictExact | dumper/dumper.go:579-606 | main result: without faults, for all sizes and areas, a clone succeeds if and only if every area lies on both disks and meets the stopping condition; reports a short write if and only if the first area that does not go through has a block that starts before the end of the source and ends past the target; end of file if and only if that area has none and runs over the end of the source; and never ends if and only if that area lies on both disks |
| Errors.LastEndExact | dumper/dumper.go:586-602 | where the last block that starts before the end of the source ends, in closed form |
| Errors.ShortWriteExample | dumper/dumper.go:597-599 | a source of two sectors, a target of one and an area of two: the write that does not fit is reported |
| Clone.FateKept | dumper/dumper.go:586-602 | an iteration that reads and writes its block leaves the end of the loop the same, and makes progress unless the loop never ends |
| Spill.CrossAtExact | dumper/dumper.go:586-602 | a loop over a range writes a block over the end of the source if and only if that end is strictly inside the range and no block after the first ends there exactly; and where that block starts |
| Spill.SpillExact | dumper/dumper.go:579-606 | main result: a clone can leave bytes that are neither the target's nor the source's if and only if it reaches an area whose loop writes a block over the end of the source that fits the target; then some target of that size is damaged by every fault-free clone, and otherwise no target is by any clone |
| Spill.SpillShows | dumper/dumper.go:590-597 | such a clone changes every byte from the end of the source to the end of that block, on some target, and reports end of file |
| Spill.SpillExample | dumper/dumper.go:586-597 | a source of two sectors, a target of four and one area of four: the clone ends with an error and has zeroed the last two sectors of the target |
| Query.AllocationMap.QueryAllocatedBlocks | pkg/disklib/gvddk_api.go:489-508 | the library's answer for a window of whole chunks: ordered, disjoint blocks inside it, exactly the allocated chunks; or an error, and the failure noted |
| Query.AppendBlocks | dumper/dumper.go:380-387 | one changed area per block, in order, converted to bytes |
| Query.QueryAllocatedBlocks | dumper/dumper.go:351-395 | the windows are consecutive, nonempty, at most the maximal number of chunks, and tile exactly the whole chunks of the disk; the areas are ordered, disjoint, sector-aligned, inside the disk and cover exactly the allocated chunks; it succeeds if and only if no query of it failed; otherwise it returns that query's code, exactly the last window asked for failed, and the areas describe the disk up to it |
| Query.DescribesMore | dumper/dumper.go:380-390 | appending a window's blocks keeps the areas ordered, disjoint and exact for the longer prefix |
| Query.QueriedAreasStop | dumper/dumper.go:383-384 | areas built by a query always meet the stopping condition of the clone and lie on the disk |
| Query.QueriedAreasFit | dumper/dumper.go:383-384 | on a disk below 2^53 sectors the byte offset, the length and the end of every queried area fit int64, and so does every offset at dumper/dumper.go:579-585 of the loop over it; `Query.BlockFits` gives the exact bound for one block |
| Query.CloneIsFaithful | dumper/dumper.go:566-609 | on a source whose unallocated sectors read as zero, a successful clone of the queried areas onto a zeroed target leaves it equal to the source on all whole chunks and untouched behind them; the whole disk when 2048 divides its sectors |
| Query.CloneSucceeds | dumper/dumper.go:573-608 | a clone of queried areas onto a large enough target succeeds unless a device call fails |
| Lifecycle.Open | pkg/virtual_disks/gvddk.go:50-74 | reports the first failing call; success leaves one access, one connection and one handle; a failure leaves exactly what its release calls failed to give back, plus the handle when reading the disk's information failed; success made the four calls in order, a failure those up to the failing one and then the release calls |
| Lifecycle.Close | pkg/virtual_disks/gvddk.go:318-335 | makes the three release calls in order up to the first failure, reports that one, and releases exactly what succeeded |
| Lifecycle.OpenRestores | pkg/virtual_disks/gvddk.go:50-74 | a failed `Open` restores the initial state if and only if no release call failed and it was not `GetInfo` that failed; access and connections balance whenever the releases succeed |
| Lifecycle.CloseUndoesOpen | pkg/virtual_disks/gvddk.go:318-335 | `Close` after `Open` returns to the initial state if and only if it reports no error, and otherwise leaves exactly the resources from the failing call on |
| Lifecycle.ClosingAgain | pkg/virtual_disks/gvddk.go:318-335 | closing again after a failed `Close` releases something twice if and only if the first one had closed the handle |
| Dumper.VadpDumper.OpenRemoteDisk | dumper/dumper.go:294-349 | a failure rolls back handle before connection and leaves outstanding exactly what that failed to release; what was noted down stays noted; success sets the read or the write handle by mode; success made the calls to connect, open and read the information, a failure those up to the failing one and then the release calls |
| Dumper.VadpDumper.ReadLocalDisk | dumper/dumper.go:465-497 | outstanding and noted down is exactly what was acquired before the first failing call, which is reported; nothing is rolled back; the calls made are connect, open and read the information, all of them on success and otherwise up to the failing one |
| Dumper.VadpDumper.CreateLocalDisk | dumper/dumper.go:499-550 | the same with the creation of a disk of floor(length/512) sectors between connecting and opening |
| Dumper.VadpDumper.Cleanup | dumper/dumper.go:264-292 | makes one release call for each thing noted down, the remote disk first and handles before connections, whatever fails |
| Dumper.VadpDumper.PrepareForAccess | dumper/dumper.go:214-235 | at most ten attempts, one end of access after each failed one and none after a successful one; reports the last failure |
| Dumper.VadpDumper.EndAccess | dumper/dumper.go:237-262 | at most thirty attempts; exactly one success, followed by the library's clean-up, or thirty failures of which the last is reported |
| Dumper.CleanupExact | dumper/dumper.go:264-292 | a clean-up whose calls succeed restores the initial state if and only if what is noted down is exactly what is outstanding |
| Dumper.LocalKeepsTrack | dumper/dumper.go:465-550 | opening or creating a local disk with none noted down neither spoils nor mends that, at whichever call it fails; with one noted down, accurate notes stay accurate if and only if none is overwritten |
| Dumper.RemoteKeepsTrack | dumper/dumper.go:308-337 | opening the remote disk keeps it if and only if the open succeeded with no remote disk noted down or did not connect, since a success overwrites the notes and the roll-back leaves them |
| Dumper.SessionExact | dumper/dumper.go:264-349 | remote open, local open and clean-up with succeeding releases restore the initial state if and only if the remote open did not fail after connecting |
| Metadata.SplitRebuilds | dumper/dumper.go:397-408 | for any bytes, terminating the pieces again and adding the remainder after the last NUL rebuilds the input |
| Metadata.SplitOfTerminated | dumper/dumper.go:397-408 | splitting the terminated concatenation of any NUL-free strings returns exactly them, and the remainder |
| Metadata.NullTermToStrings | dumper/dumper.go:397-408 | the loop computes that split |
| Metadata.SizeKeys | pkg/disklib/gvddk_api.go:374-384 | the sizing call sets the length to exactly that of the key list when the buffer is too small and leaves it alone otherwise |
| Metadata.GetMetadataKeys | pkg/disklib/gvddk_api.go:386-393 | a buffer of exactly that length receives the key list |
| Metadata.SizeValue | pkg/disklib/gvddk_api.go:416-429 | the sizing call sets the length to that of the terminated value, or leaves it alone |
| Metadata.ReadMetadata | pkg/disklib/gvddk_api.go:430-438 | a buffer of exactly that length receives the value and its NUL |
| Metadata.MetadataStore.LibWrite | pkg/disklib/gvddk_api.go:404-414 | the library stores the text before the first NUL under the key, or fails and changes nothing |
| Metadata.SaveKey | dumper/dumper.go:432-459 | one key is copied exactly, or the target is unchanged, also when both disks are one; the read buffer always fits exactly; it fails if and only if one of its library calls did, with that call's code |
| Metadata.ListedKeys | dumper/dumper.go:427 | splitting the library's key list gives its keys and one empty, hence skipped, key |
| Metadata.CopiedIsUnion | dumper/dumper.go:430-460 | copying the keys one by one is laying the non-blank part of the source's table over the target's |
| Metadata.SaveMetaData | dumper/dumper.go:410-463 | success makes the target agree with the source on every key that does not consist of white space and keeps its other entries; an error leaves the entries of the first keys listed; every read gets a buffer of exactly the length it needs; it fails if and only if a library call did, with that call's code |
| Metadata.BlankExact | dumper/dumper.go:437-439 | a key is skipped if and only if it is a concatenation of UTF-8 encodings of white space characters |
| Metadata.PrintableIsCopied | dumper/dumper.go:437-456 | every key of the source with a printable ASCII character in it is copied |

## Left out

- The disk library itself and its C wrappers: it is a sector device, a block oracle, a ledger and a table whose calls may fail.
- Connection parameters, C string allocation, thumbprints, change-info JSON, error-code tables, logging, sleeps and identity strings: no invariants beyond one body.
- `Clone`, `Grow`, `Shrink`, `Defragment`, `Attach`, `Rename` and similar wrappers, `DumpBackupDisk` (empty), flag and mode selection: each is read off one branch.
- Negative offsets and a buffer cut to a negative int32 length, for which the code panics: they are outside the preconditions (`DiskHandle.ClampExact` says when the cut is exact).
- Nil read or write handles of a clone, which end it with an error at the first read or write; `Metadata.SaveMetaData` has the nil check, `Clone.DumpCloneDisk` does not.
- A target capacity that differs between the disk information and the device, and a remote disk information that differs from the read handle's: both are one capacity.
- Partial device transfers: a failed device call changes neither the disk nor the buffer.
- DumpCloneDisk: the source has no bound on iterations; here `fuel` bounds them, and an endless source loop is `StillRunning` for every `fuel`.
- SaveMetaData: a library whose sizing call succeeds outright or reports length zero, for which the code indexes an empty buffer, is not modelled.
- LosesNothingExact: calls through the shared offset are not covered, because where they land depends on the schedule; `Updates.NoLostUpdate` covers them per run.
- ClearExact: calls through the shared offset are not covered, for the same reason.
- ApartExact: calls through the shared offset are not covered, for the same reason; `Order.CallsAreAtomic` covers them per run.
- PairExact: for one aligned and one misaligned call. Misaligned calls among themselves are always atomic (`Order.MisalignedAreAtomic`); for more calls `Apart.ApartCallsAreAtomic` is a sufficient condition.
- SizeKeys: a sizing call that succeeds outright is not modelled, since the list is never empty and no buffer is given.
- SizeValue: a sizing call that succeeds outright is not modelled, since a value never is shorter than its NUL.
- PrepareForAccess: whether ending the access after a failed preparation releases someone else's access is the library's business; the calls and their order are stated, not their effect on the ledger.
