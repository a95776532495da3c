# A verified model of cgroups-rs

The crate cgroups-rs drives Linux control groups through small text files, inotify and systemd's D-Bus
interface. Most of its methods write one file; a few hold protocols and algorithms whose correctness
depends on the order of their steps or on the exact format of a text. This project models those parts in
Dafny, together with the rules of the kernel and of systemd they rely on, and proves what they are for.

Run `dafny verify dfyconfig.toml` to check every proof.

| module | models |
|---|---|
| `OomThread`, `OomProtocol` | the OOM watcher: its loop body, and the thread beside the kernel, the bounded inotify queue and removals, in every interleaving |
| `JobWait` | waiting for a systemd job: subscribe, start, filter signals, beside systemd, the bus and the timer |
| `CgroupTree`, `CgroupRemoval` | recursive removal with retries |
| `Cpuset` | inheriting a cpuset value from an ancestor, enabling CPUs from the root down |
| `Controllers` | creating a path in the unified hierarchy and enabling controllers along it |
| `MemorySwap` | the order of the memory and memory+swap writes |
| `CpuList` | the two readers of CPU lists and systemd's byte mask |
| `IoService`, `CpuMax`, `DeviceRule`, `SliceName`, `CpuQuota` | blkio counters, `cpu.max`, device rules, slice paths, quota rounding |
| `Decimal`, `Integers`, `Text`, `Wrappers` | numbers, machine integers, splitting and joining, and results, shared by the others |

Code that changes state is modelled as classes and methods with loops, each proved against a
specification function; the properties are lemmas about those functions. The two protocols are state
machines whose steps are single calls or accesses to shared state, and the properties hold in every
state any run can reach.

## Assumptions about the environment

- inotify(7): a notification may merge with an equal one, an identical event at the tail of the queue
  absorbs the next one, and a full queue holds one overflow marker in place of what no longer fits.
  A change of `memory.events` notifies only through a watch on the cgroup that changed.
- systemd emits JobRemoved to a subscribed client whose match rule names the unit; the bus keeps order.
- rmdir succeeds exactly on an existing, idle directory without children; a mount point counts as busy.
- cpuset: on v1 the kernel takes a set that lies within the parent's and covers the children's; on v2 it
  takes any set in a directory that has the file, and cuts down only the effective sets.
- v2: a cgroup delegates only controllers it was given (top-down constraint); a memory limit is rounded
  down to pages and stays within the memory+swap limit. The "no internal process" refusal and failures
  to reclaim memory do not occur.

## What the proofs found

- A removal can go unnoticed (`CopyHidesRemoval`, at any queue size). It takes two things: an overflow of
  the queue swallows the notice, and a new cgroup has appeared under the same path by the time the thread
  checks it (`NoMissedRemoval`, `RemovalIsNoticed`). With nothing pending, a live thread has missed a
  removal exactly if it took another cgroup for the watched one (`QuietMeansUpToDate`). A run in which no
  notice meets a full queue misses no removal, whatever appears under the path (`QueuedNoticeEndsThread`).
- `parse_io_service` panics exactly on a text with a line of three words whose first has no ':'
  (`ColonlessPanics`).
- Neither fixed order of the two memory writes reaches all the targets the kernel can hold.
- The two readers of CPU lists differ on one text only: the empty one.
- `parse_io_service` groups by maximal runs exactly when no line has major number 0: such a device is
  dropped and its values leak into the next one.
- A v2 path that ends in a slash makes the leaf itself delegate the controllers.
- The quota product wraps beyond 64 bits in a release build (a debug build panics) and then gives a far
  too small quota; up to a period of 2^64 / 10000 the quota is right exactly if the product fits.
- `expand_slice` strips every repetition of ".slice", so it is injective on stripped names only
  (`RepeatedSuffixCollides`).
- The comment at `src/manager/fs.rs:451` excludes the managed cgroup from the top-down walk. The loop, and
  the test at lines 1409-1414, include it; the model follows the loop.

## Model

| member | source | states |
|---|---|---|
| OomThread.Watcher.HandleBatch | src/fs/events.rs:80-132 | the imperative loop over a batch, with its early returns, leaves the base, the sent keys and the liveness that folding the event handler over the batch gives |
| OomThread.EventMeans | src/fs/events.rs:102-117 | by descriptor, name and mask: a removal of the watched name, or the end of a watch, ends the thread; an event of no other kind changes nothing |
| OomThread.CountMeans | src/fs/events.rs:81-131 | by mask: an overflow with the directory gone, or a failed read, ends the thread; otherwise the count decides between nothing, a send with the new base, and the end for a dropped receiver |
| OomThread.HandleAllConcat | src/fs/events.rs:80-132 | handling a batch is handling its first part and then the rest from where that left off |
| OomThread.RemovalEndsBatch | src/fs/events.rs:102-110 | a removal notice at any place of a batch ends the thread, whatever stands before and after it |
| OomThread.HandleIsSteps | src/fs/events.rs:80-132 | handling one event in one go is what the separate accesses (check, read, send) come to that the protocol interleaves with everything else |
| OomThread.HandleAllIsSteps | src/fs/events.rs:74-132 | and so for a whole batch: the accesses made for its events one after the other leave the base, the sends and the liveness of the batch loop |
| OomThread.BaseIsHighest | src/fs/events.rs:119-131 | after a fully handled batch the base is the highest count read; sends are at most the rise of the base, and there is one iff the base rose |
| OomThread.ReadOomCount | src/fs/events.rs:19-38 | the loop over the lines, any of which may fail to be read, returns the value of the first line of two or more words whose first is "oom", with the three error cases |
| OomThread.LineMeans | src/fs/events.rs:27-35 | any readable line is passed over without two words or the key "oom", and otherwise decides: its count, or an error if that is no number |
| OomThread.OomEntryIsRead | src/fs/events.rs:23-36 | the first printed entry "oom" is the value read, whatever other entries precede it and whether or not the rest of the file can be read |
| OomThread.OomEntryMissing | src/fs/events.rs:24-37 | without that entry there is never a count: an error at the first line that cannot be read, or at the end |
| OomProtocol.StepKeeps | src/fs/events.rs:51-133 | every step of the kernel, the outside world or the thread keeps the protocol invariant |
| OomProtocol.RunKeeps | src/fs/events.rs:51-133 | so does every run |
| OomProtocol.ClassifyByMask | src/fs/events.rs:81-119 | the events that end the thread and those it ignores, by descriptor, name and mask; removals and noise of the protocol are such events |
| OomProtocol.NoLostOom | src/fs/events.rs:63-131 | in every reachable state a counter above the base is in the thread's hand, or an event that leads to a read is owed, queued or in the unread batch |
| OomProtocol.NoMissedRemoval | src/fs/events.rs:81-117 | once the watched cgroup is gone, something that ends the thread is pending, unless an overflow swallowed a notice and a resynchronisation met a re-created path; if no notice was swallowed, a notice itself is pending |
| OomProtocol.NoInventedEnd | src/fs/events.rs:81-117 | the thread ends only after a removal, a failed read or a dropped receiver: siblings, overflows and other keys never end it |
| OomProtocol.BoundedNotifications | src/fs/events.rs:89-131 | baseline plus notifications sent never exceed the base, the base is the highest count read, and for a cgroup never re-created never exceeds the counter |
| OomProtocol.QuietMeansUpToDate | src/fs/events.rs:63-117 | with nothing pending the base equals the counter if the watched cgroup is there; it is gone iff a resynchronisation took a copy for it, and only after a swallowed notice |
| OomProtocol.RemovalIsNoticed | src/fs/events.rs:73-117 | after a removal, re-created path or not, delivering and handling takes boundedly many steps and can only stop with the thread ended, or with a swallowed notice and a copy taken |
| OomProtocol.SwallowedMeans | src/fs/events.rs:81-88 | a notice counts as swallowed iff the run has a step that puts the overflow marker in place of an event that ends the thread |
| OomProtocol.QueuedNoticeEndsThread | src/fs/events.rs:73-117 | in every run in which no such step occurs, while the thread lives after a removal its notice is pending and some deliver or handle step remains |
| OomProtocol.OomIsNoticed | src/fs/events.rs:73-131 | while the cgroup stays, delivering and handling takes boundedly many steps, never ends the thread, and can only stop with the base at the counter |
| OomProtocol.ReadFirstLosesOom | src/fs/events.rs:63-65 | with the baseline read before the watches there is a run that loses an OOM for good |
| OomProtocol.CopyHidesRemoval | src/fs/events.rs:81-88 | for every queue capacity there is a run in which an overflow and a re-created path hide a removal from a live thread with nothing pending |
| JobWait.WaitForJob | src/systemd/dbus/client.rs:99-113 | signals of other jobs are taken and passed over; the last one taken decides: "done" gives Ok, any other result of the job its error, one that does not decode an error; without a deciding one all are taken and the stream is reported closed |
| JobWait.OthersNeverDecide | src/systemd/dbus/client.rs:100-104 | dropping all decoded signals of other jobs changes no outcome; the closed-stream error means that no deciding signal came |
| JobWait.StepKeeps | src/systemd/dbus/client.rs:72-121 | every step of the client, systemd, the bus or the timer keeps the protocol invariant |
| JobWait.NoLostCompletion | src/systemd/dbus/client.rs:86-97 | in every run, from the moment the job is queued, before the wait begins and while it lasts, the signal of the finished job is in the stream or in flight, and waiting for what is pending gives its result (or, after a garbled signal, the decoding error) |
| JobWait.OutcomeIsJustified | src/systemd/dbus/client.rs:72-121 | Ok only if systemd removed the very job it queued as "done"; each error only for its own reason, failed calls and garbled signals included |
| JobWait.PidsAreRequired | src/systemd/dbus/client.rs:73-76 | without the PIDs property no run queues a job, and the only outcome is the error for it |
| JobWait.ListensBeforeQueueing | src/systemd/dbus/client.rs:86-95 | in every run the client listens and has subscribed before a job of its own exists |
| JobWait.CallsInOrder | src/systemd/dbus/client.rs:72-97 | the run without disturbances: the listener, the subscription, the job of the unit, the wait; without the PIDs property the error at once |
| JobWait.CompletionIsNoticed | src/systemd/dbus/client.rs:99-120 | once the queued job has finished on an open connection, at most `Fuel` steps of entering the wait, delivering and receiving are possible, and they can only stop with the job's result (or at a garbled signal) |
| JobWait.StartFirstLosesJob | src/systemd/dbus/client.rs:86-91 | queueing the job before listening has a run in which the wait can never end |
| CgroupRemoval.Hierarchy.RemoveDir | src/fs/mod.rs:493-514 | succeeds iff no node of the subtree is busy and each with children can be listed to the end; success leaves exactly the nodes outside the subtree; on error, even in the middle of a listing, what is left is a closed tree with every busy node and the top node, and nothing outside changed |
| CgroupRemoval.RemovableMeans | src/fs/mod.rs:493-514 | the success condition node by node: none at or below the path is busy, or has a child and cannot be listed |
| CgroupRemoval.Hierarchy.Attempt | src/fs/mod.rs:368-371 | one more attempt only shrinks what earlier attempts left, and succeeds whenever the original tree would have been removable now |
| CgroupRemoval.Hierarchy.Delete | src/fs/mod.rs:354-376 | at most five attempts with pauses of 10, 20, 40 and 80 ms; the first attempt that meets no busy node is enough; nodes busy at every attempt stay; failure means five attempts |
| CgroupRemoval.AllBelow | src/fs/mod.rs:501-510 | removing all children with everything below them leaves exactly the top node of the subtree, childless |
| Cpuset.Tree.FindNonEmptyParent | src/fs/cpuset.rs:139-168 | the loop computes the recursive walk towards the root |
| Cpuset.WalkDecides | src/fs/cpuset.rs:139-168 | the walk fails iff it meets a missing file before a value; else it returns the value of the one nearest non-empty ancestor and the empty nodes below it, deepest first |
| Cpuset.Tree.CopyFromParent | src/fs/cpuset.rs:172-195 | no write is refused, nesting is kept, exactly the nodes below the nearest ancestor with a value get that value and all others keep theirs; a failed read changes nothing |
| Cpuset.FilledMeans | src/fs/cpuset.rs:180-192 | exactly the nodes between the source and the start hold its value; every other node keeps its own |
| Cpuset.FilledWereEmpty | src/fs/cpuset.rs:139-168 | every node that gets the value was empty: no value is overwritten |
| Cpuset.FillKeeps | src/fs/cpuset.rs:186-192 | the write on the next node is one the kernel takes |
| Cpuset.PostCreate | src/fs/cpuset.rs:120-136 | on v1, below the base, both files inherit from their own source, and a file without a source is left as it is; on v2 and at the base nothing changes |
| Cpuset.Tree.Ancestors | src/manager/fs.rs:470-478 | the stack holds the managed cgroup and its ancestors below the root, deepest first |
| Cpuset.Tree.EnableOn | src/manager/fs.rs:480-493 | opening a node of the way (making it if need be, inheriting a value on v1) and setting it succeeds iff it exists or can be made and, on v1, the new set is within the root's and covers its children; each outcome's tree is stated |
| Cpuset.Tree.EnableCpusTopdown | src/manager/fs.rs:844-854 | calls the setter once on each node below the root down to the managed cgroup, parents first; succeeds iff the set is empty, the path is the root, or every node can be made and, on v1, the set fits the root and the children on the way; then exactly the nodes of the way hold the set; a refusal leaves the nodes before it with the set and the refused one as it was opened; on v1 nesting is kept in every case |
| Cpuset.GivenMeans | src/manager/fs.rs:481-493 | exactly the nodes on the way hold the new set, created if need be; every other node keeps its own |
| Cpuset.ChildrenWithinMeans | src/manager/fs.rs:481-493 | the condition on the children, node by node: no child of a node on the way holds more than the new set |
| Cpuset.MakeableMeans | src/manager/fs.rs:481-493 | the condition on the directories, node by node |
| Cpuset.OpenedInValues | src/manager/fs.rs:481-493 | what every file holds after some nodes were set and the next was only opened: on v1 a node without a value has its parent's |
| Cpuset.AcceptsNext | src/manager/fs.rs:481-493 | whatever value the next node has, the kernel takes the write iff the set is within the root's and covers the node's children |
| Cpuset.CoveringTheTopmostSuffices | src/manager/fs.rs:442-453 | in a nested tree it is enough that the new set covers the old set of the topmost node on the way |
| Controllers.Unified.VerifySupported | src/fs/cgroup.rs:572-580 | accepts iff every name is among the root's controllers |
| Controllers.Unified.EnableControllers | src/fs/cgroup.rs:512-518 | exactly the controllers available to the node are added to what it delegates; with all of them available no write is refused; the top-down constraint holds in any case |
| Controllers.Unified.BuildPath | src/fs/cgroup.rs:545-569 | no write is refused; fails iff some directory on the way is missing and cannot be made, leaving exactly the nodes before it delegating |
| Controllers.Unified.CreateV2Cgroup | src/fs/cgroup.rs:529-570 | unsupported controllers are refused with nothing changed; otherwise no "+c" write is refused, the call succeeds iff every directory on the way exists or can be made, and the final tree in both outcomes is stated |
| Controllers.DelegatedMeans | src/fs/cgroup.rs:547-567 | exactly the nodes on the way exist and gain the whole set; all others stay as they are |
| Controllers.AfterStep | src/fs/cgroup.rs:555-567 | at each round the parent exists and delegates the set, so that the next directory can take it |
| Controllers.CreatedMeans | src/fs/cgroup.rs:550-567 | every prefix exists and delegates the whole set, the leaf has it available, nothing else changed; the leaf's own control is unchanged iff the path has no trailing slash or the leaf delegated the set before |
| Controllers.CreatedInFull | src/fs/cgroup.rs:550-567 | for a path without empty elements, node by node: the path and its prefixes exist, each strict ancestor delegates what it did and the whole set, the leaf and all other nodes what they did |
| Controllers.ComponentsConcat | src/fs/cgroup.rs:550-558 | the directories a path text names are those of its first elements and then those of the rest |
| Controllers.ComponentsOne | src/fs/cgroup.rs:550-558 | one element names one directory, the empty one none |
| MemorySwap.MemController.SetMemAndMemswap | src/manager/fs.rs:177-210 | from any valid state, with page rounding, both writes are taken iff the kernel can hold the target at all; then each value set is the limit in pages, -1 is unlimited, and one not set keeps its limit (unlimited memory frees an unset swap); a refused call leaves the limits, or exactly the first write done |
| MemorySwap.PromisedTargets | src/manager/fs.rs:180-200 | unlimited swap, or 0 < limit <= swap, is reachable from every state; limit -1 with swap 0 frees both |
| MemorySwap.FeasibleInNumbers | src/manager/fs.rs:177-210 | for every combination of set, unset, unlimited and invalid values, the inequality between the numbers and the current limits that decides success |
| MemorySwap.RemainsInNumbers | src/manager/fs.rs:191-210 | the limits after a refused call, in numbers |
| MemorySwap.OrderMustAdapt | src/manager/fs.rs:191-199 | making both writes in a fixed order, each answered by the kernel rule the two setters obey, reaches the target iff the target can be held and its first write fits the current state; so each order fails for some states, and one of the two reaches every target that can be held |
| CpuList.ParseRange | src/fs/cpuset.rs:219-253 | the loop returns all parsed ranges in order, or an error if any part is malformed |
| CpuList.ConvertListToMask | src/systemd/cpuset.rs:34-75 | the growing bit vector, all its writes in bounds, ends as the mask of the ranges of the list, or an error if any part is malformed |
| CpuList.ListIsExact | src/fs/cpuset.rs:219-253 | both readers accept a list iff each part between commas is a number, or two with one '-' between them, and the ranges are these numbers |
| CpuList.PartIsExact | src/fs/cpuset.rs:229-249 | the same for one part, position by position |
| Decimal.UnsignedIsExact | src/systemd/cpuset.rs:45 | a number is accepted iff it is an optional '+', zeros, and a printed number up to the bound; every other text is an error |
| Decimal.SignedIsExact | src/fs/devices.rs:312 | the same for signed numbers, with an optional '-' |
| Decimal.Widths | src/systemd/cpuset.rs:45 | the bounds of the 64-bit and 16-bit numbers that are read |
| Decimal.PrintIsDecimal | src/fs/cpu.rs:254 | a number is printed in decimal, the last digit last |
| CpuList.EmptyPartIsRejected | src/systemd/cpuset.rs:94 | "1-3,," is an error for both readers |
| CpuList.SecondDashIsRejected | src/systemd/cpuset.rs:92 | "1-3-4" is an error for both readers |
| CpuList.SingleNumberIsItsRange | src/fs/cpuset.rs:245-249 | "7" is the range from 7 to 7 for both readers |
| CpuList.SetOne | src/systemd/cpuset.rs:44-51 | growing and setting one bit extends the vector of the ranges so far by a one-element range |
| CpuList.SetRange | src/systemd/cpuset.rs:53-64 | the same for a range; a reversed one grows the vector and sets nothing |
| CpuList.ParsersAgree | src/systemd/cpuset.rs:40-69 | both readers accept the same texts with the same ranges iff the text is not empty |
| CpuList.BitsMark | src/systemd/cpuset.rs:37-64 | a bit is set iff the position it stands for, the order being reversed within each byte, is in some range |
| CpuList.BitsLength | src/systemd/cpuset.rs:47-60 | the largest right end alone fixes the length, in whole bytes |
| CpuList.MaskIsSum | src/systemd/cpuset.rs:71-72 | the byte mask, read as a big-endian number, is the sum of 2^i over the union of the ranges, and its length is fixed by the largest right end |
| CpuList.MaskDigit | src/systemd/cpuset.rs:40-74 | binary digit i of the mask is 1 iff i is in some range, for every i |
| CpuList.MaskHoldsTheParsedRanges | src/systemd/cpuset.rs:40-74 | across both files: digit i of one reader's mask is 1 iff i is in a range the other reader returns |
| CpuList.ListRoundTrip | src/fs/cpuset.rs:218-253 | every printed list of ranges is read back by both readers |
| IoService.ParseIoService | src/fs/blkio.rs:91-148 | the loop over the lines computes the fold, with its two kinds of failure |
| IoService.MalformedFails | src/fs/blkio.rs:117-130 | on the lines of three words, the loop fails iff some number does not parse |
| IoService.ParseOutcome | src/fs/blkio.rs:91-148 | the whole parse panics iff some line of three words has no ':' in its first word, and otherwise fails iff some number of such a line does not parse |
| IoService.OtherLinesAreSkipped | src/fs/blkio.rs:97 | a line that is not of three words is passed over |
| IoService.ThreeWordsAreRead | src/fs/blkio.rs:97-115 | a line "x:y op v" gives these two device numbers, this operation and this value |
| IoService.LinesAt | src/fs/blkio.rs:96 | a text is cut at each line break, and the return before one is dropped |
| Text.WordsAt | src/fs/blkio.rs:97-104 | white space anywhere separates words, however much of it there is |
| Text.WordsOne | src/fs/blkio.rs:97-104 | a text without white space is one word, the empty one none |
| Text.AsciiWhitespace | src/fs/events.rs:27 | below 128, white space is the blank and the characters from tab to carriage return |
| Text.SplitAt | src/fs/cpuset.rs:227 | a text is split at every separator |
| IoService.LoopIsGrouping | src/fs/blkio.rs:117-145 | the loop equals grouping by maximal runs of one device with the last value of each operation iff no major number is 0 |
| IoService.FirstRun | src/fs/blkio.rs:121-128 | a maximal run of lines of one device gives one service, and the rest is grouped by itself |
| IoService.SummaryFields | src/fs/blkio.rs:130-140 | each field of the service is the value of the last line of the run that names its operation |
| IoService.AbsentOperation | src/fs/blkio.rs:121-140 | a field whose operation no line of the run names is 0 |
| IoService.ZeroMajorLeaks | src/fs/blkio.rs:121-128 | a text of two devices for which it does not: the first is dropped and its value turns up in the second |
| IoService.ColonlessPanics | src/fs/blkio.rs:105-112 | a text that makes the parse panic |
| IoService.PrintedServicesAreRead | src/fs/blkio.rs:91-148 | the kernel's text for any services with differing neighbours is read back as these services |
| CpuMax.CpuController.SetCfsQuotaAndPeriod | src/fs/cpu.rs:230-275 | on v2 the text written: the quota if it is positive, "max" if not, what the file held if none is given, then a space and the period given or held; on v1 two separate writes of which the second happens only after the first succeeded; every outcome of the kernel's answers |
| CpuMax.DisplayRoundTrip | src/fs/mod.rs:870-887 | every quota value, "max" included, is read back as printed |
| CpuMax.LineRoundTrip | src/fs/cpu.rs:304-320 | every line the setters write parses as what it says, with or without a line break |
| CpuMax.ContentIsExact | src/fs/cpu.rs:304-320 | two fields with one space between them, and any white space around, are read iff the first is a quota and the second a u64 |
| CpuMax.OtherFieldCounts | src/fs/cpu.rs:309-313 | a content with another number of spaces within is an error |
| CpuMax.MaxValueIsExact | src/fs/mod.rs:879-887 | a quota field is "max" or an i64, with any white space around it |
| CpuMax.RunKeepsLastAccepted | src/fs/cpu.rs:230-275 | after any run of setter calls, each stored or refused, the file parses and holds the last accepted quota and the last accepted period |
| CpuMax.CallAndRead | src/fs/cpu.rs:171-275 | the calls of any run made on a v2 controller leave the file of `After`, and both readers then return the last accepted quota (-1 if not positive) and the last accepted period, or what they returned before the run |
| CpuMax.SettersCommute | src/fs/cpu.rs:230-275 | setting the quota and setting the period commute when both are accepted |
| CpuMax.UnparsableStays | src/fs/cpu.rs:250-252 | a file that does not parse is never changed by any run of calls |
| CpuMax.V1RoundTrip | src/fs/cpu.rs:171-228 | a value written to a v1 file is read back |
| SliceName.ExpandSlice | src/systemd/utils.rs:31-64 | succeeds iff the name ends in ".slice", has no slash, and its stripped form is "-" or has no empty dash-part; the loop's text is then the joined components |
| SliceName.AcceptedNames | src/systemd/utils.rs:32-54 | a name followed by k suffixes is accepted iff k > 0, it has no slash, and it is "-" or has no empty dash-part |
| SliceName.StrippedLosesSuffixes | src/systemd/utils.rs:42 | a text is its stripped form and repetitions of the suffix, so nothing else is stripped |
| SliceName.SuffixesAreStripped | src/systemd/utils.rs:42 | and all of them are stripped |
| SliceName.PathOfName | src/systemd/utils.rs:42-63 | the path of an accepted name with k dashes has k + 1 segments, segment i the first i + 1 dash-parts and the suffix, the last one the name and the suffix |
| SliceName.RootSlice | src/systemd/utils.rs:45-47 | "-" followed by suffixes is accepted and names the root |
| SliceName.OneDash | src/systemd/utils.rs:49-63 | "a-b" gives "a.slice/a-b.slice" |
| SliceName.PathHasTheComponents | src/systemd/utils.rs:49-63 | a name with k dashes gives k + 1 components, each a prefix of the name plus ".slice", the last one the whole name plus ".slice" |
| SliceName.LastSegmentIsName | src/systemd/utils.rs:49-63 | the last segment of the path gives the stripped name back |
| SliceName.ExpansionIsInjective | src/systemd/utils.rs:42-63 | two accepted slices have the same path iff their stripped names are equal |
| SliceName.RepeatedSuffixCollides | src/systemd/utils.rs:42 | two different accepted slices with the same path |
| SliceName.OnlySuffixIsRejected | src/systemd/utils.rs:32-54 | the suffix alone, once or repeated, is rejected |
| CpuQuota.SetCpu | src/manager/systemd.rs:119-148 | what is appended, in which order, for a period and a quota set, not set or not positive; for a positive quota whose product fits, the last property is the rate for the period, or its default, rounded up to a whole 10 ms |
| CpuQuota.QuotaIsRoundedUp | src/manager/systemd.rs:131-145 | if the product fits, the quota is the floored rate rounded up to a whole 10 ms, never reads as unlimited, and is positive when the period is at most quota * 10^6 |
| CpuQuota.RoundedUpIsLeast | src/manager/systemd.rs:141-144 | no smaller multiple of 10 ms would do |
| CpuQuota.QuotaIsMonotone | src/manager/systemd.rs:141-144 | monotone in the quota, antitone in the period |
| CpuQuota.QuotaIsRightIffItFits | src/manager/systemd.rs:141 | for periods up to 2^64 / 10000 the quota is right iff the product fits 64 bits |
| CpuQuota.LongPeriodHidesWrap | src/manager/systemd.rs:141 | beyond that bound the wrap can go unnoticed: an input for which it does |
| CpuQuota.WrappedQuota | src/manager/systemd.rs:141 | an input for which the wrap gives a tiny quota |
| DeviceRule.FromStr | src/fs/devices.rs:140-151 | all permissions in order, or an error if any character is none of r, w, m |
| DeviceRule.IsValid | src/fs/devices.rs:117-127 | accepts iff the text parses to at least one permission |
| DeviceRule.NumberRoundTrip | src/fs/devices.rs:308-314 | every i64 number is read back as printed, -1 as "*", and needs no escaping |
| DeviceRule.RuleRoundTrip | src/fs/devices.rs:316-342 | the text of any type, numbers and permission list, the empty one included, is read back as the same rule |
| DeviceRule.LineIsExact | src/fs/devices.rs:316-342 | a line of four fields is read iff they are a type, two numbers and permissions, and as these |
| DeviceRule.OtherFieldCounts | src/fs/devices.rs:317-321 | a line with another number of spaces and colons is an error |
| DeviceRule.TypeIsExact | src/fs/devices.rs:323-326 | the type is 'a', 'c' or 'b' as the first letter |
| DeviceRule.NumberIsExact | src/fs/devices.rs:308-314 | a device number is '*' for -1, or an i64 |
| DeviceRule.PermissionsAreExact | src/fs/devices.rs:140-151 | permissions are accepted iff all letters are r, w or m, and are these in order |
| DeviceRule.PrintIsInjective | src/fs/devices.rs:225-239 | two rules have the same text iff they agree up to allow or deny |
| DeviceRule.ListRoundTrip | src/fs/devices.rs:293-305 | a list of printed rules is read back as the list |

## Left out

- CpuQuota.QuotaIsRightIffItFits: the equivalence is bounded in the period, because beyond 2^64 / 10000 the wrapped and the exact rate may round to the same value (LongPeriodHidesWrap).
- SliceName.ExpansionIsInjective: on stripped names only, because repeated suffixes are all stripped.
- OomProtocol.NoMissedRemoval: excludes a swallowed notice followed by a resynchronisation that meets a re-created path, because the code does not notice the removal then (CopyHidesRemoval).
- Cpuset.Tree.EnableCpusTopdown: `Cgroup::new` fails only for a directory that cannot be made; on v1 a failure in another controller's hierarchy, after the cpuset directory was made, is not modelled.
- The system calls, D-Bus calls, threads and timers themselves: they are steps of the models; lengths of time do not matter.
- `notify_on_oom_v1` and `register_memory_event`: a thin eventfd loop.
- The choice of the parent directory and name in `notify_on_oom_v2`: the name is a parameter.
- The property vector, `stop`, `freeze`, `thaw` and `set_properties` of the systemd client: single calls.
- Changes of the cgroup tree by others during one removal attempt, and new children between attempts.
- `Cgroup::delete` on v2: a single rmdir without recursion.
- The text of cpuset values: they are sets of numbers here; the effective sets and partitions of v2.
- The string form of the relative path in `set_controller_topdown`: paths are sequences of components, and the relative path does not repeat the root.
- "." and ".." as elements of a v2 path, absolute elements, and splitting the text of `cgroup.controllers`.
- A failing read of `memory.limit_in_bytes`, which the source takes as 0.
- Running out of memory for a list with a huge CPU number.
- `parse_io_stat` and `parse_blkio_data`, field-by-field readers.
- The shares part of `set_cpu`, `src/manager/conv.rs` and `set_memory_v2`: settled by reading their branches.
- The kernel's answers to repeated v1 cpu writes: one answer for each text within a call.
- `custom_size` in `src/fs/hugetlb.rs`: formatting of floating-point numbers.
- The builder, the statistics structures and one-line setters.
