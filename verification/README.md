# Verification of the Cyber RT message and timer path

This project models the parts of Apollo Cyber RT that a message or a timer goes
through, and proves what they promise. Run `dafny verify dfyconfig.toml` to check it.

Lock-free code is a step machine: one step is one atomic load, store or
compare-and-swap, any number of threads move in any order, and memory is
sequentially consistent. A run is a sequence of (thread, choice) pairs; a choice says
what the environment decides, such as whether a weak compare-and-swap fails. What
holds of `Exec(Init(...), schedule)` for every `schedule` holds in every reachable
state. Lemmas about one step take any state that meets the invariant `Inv`; the
`RunInv` of each machine shows that every reachable state does. A lemma named
`...Finishes` takes a thread at any point of a call, with whatever it has loaded, and
shows how the call ends when nobody interrupts it any more. Code that one lock protects,
or that one thread runs, is a class whose methods do what the source's do. Clock
readings, schedules, arrivals on other channels and the network are parameters.

| file | component |
|---|---|
| `BoundedQueue.dfy` | the lock-free multi-producer multi-consumer ring (base/bounded_queue.h) |
| `TimingWheel.dfy` | the flat timer table, the two wheels as values, and the wheel object (timer/timing_wheel.*) |
| `Timer.dfy` | the periodic callback and its drift compensation (timer/timer.cc) |
| `RecordSpec.dfy`, `RecordReader.dfy`, `RecordViewer.dfy` | the section-stream reader and the windowed merge (record/) |
| `RecordWriter.dfy` | the chunk writer, and the round trip through writer and reader (record/file/record_file_writer.*) |
| `ObjectPool.dfy` | the counted-head free list (base/concurrent_object_pool.h) |
| `AtomicHashMap.dfy` | the insert-only hash map of sorted lists (base/atomic_hash_map.h) |
| `Registry.dfy` | the name registries (common/global_data.cc) |
| `CacheBuffer.dfy` | the overwriting ring, its reads, and a reader's cursor (data/) |
| `Fusion.dfy` | the "all latest" fusion of four channels (data/fusion/all_latest.h) |
| `Wakeup.dfy` | the wake-up protocol of routines (croutine/, data/data_dispatcher.h, scheduler/policy/) |
| `Rpc.dfy`, `RpcEndpoints.dfy` | requests and responses over an unreliable network (service/) |
| `RWLock.dfy` | the spinning read-write lock (base/atomic_rw_lock.h) |
| `Rate.dfy` | the fixed-rate loop (time/rate.cc) |
| `Options.dfy`, `Remainder.dfy` | shared helpers |

## Where the code does less than one might expect

Each of these is a lemma with a concrete input or schedule, beside a lemma that says
exactly when the code does meet the property, or that it always does as it is written.

- **A concurrent `Enqueue` can be refused by a queue that is not full**
  (`StaleTailRefused`); `EnqueueRefuses` says exactly when it is refused.
- **A message that follows one of a later window is passed over** by the reader and by
  the viewer's one-second windows (`LateMessageLost`); `WindowReturnsAll` and `KeepsAll`
  give the exact conditions, which time order implies.
- **The file header need not bound the times of the file**: its end is that of the last
  chunk, and a reader that trusts it misses later messages of earlier chunks
  (`HeaderEndsEarly`, and `HeaderDecides` for when).
- **A message time of 0 counts as "not set"**: the header of its chunk forgets it unless
  no later time follows, and a chunk with no other time is never written
  (`ZeroTimeForgotten`, `HeaderSpans`, `NeverWritten`).
- **A chunk that is full while the one before it is still being written is thrown away**
  (`FileWriter.WriteMessage`).
- **A timer duration above 65536 ms is not exact** (`LongestDuration`).
- **Setting DATA_WAIT after the fetch loses wake-ups** with a notifier that looks at
  the state, as both scheduling policies do (`LateWaitLosesWakeup`, `SafeExactly`). The
  loop of routine_factory.h sets it before; the one of task_manager.cc sets it after.
- **Without one lock over transmission and table entry a client would discard a
  response** (`Overtaken`, `LockDecides`), and **without write-first mode a reader
  overtakes a waiting writer** (`ReaderOvertakes`, `PreferenceDecides`).

## Model

| member | source | states |
|---|---|---|
| BoundedQueue.RunInv | cyber/base/bounded_queue.h:94-168 | in every interleaving the counters satisfy head < commit <= tail <= head + pool size - 1 with `size` + 2 slots, every ticket in [commit, tail) has exactly one owner, committed slots hold their elements whole, and every thread's stale values are consistent |
| BoundedQueue.DequeuedInOrder | cyber/base/bounded_queue.h:109-168 | in every run the elements handed out are a prefix of the elements committed in ticket order, and the queue never holds more than `size` |
| BoundedQueue.DequeueAnswers | cyber/base/bounded_queue.h:155-168 | a Dequeue whose compare-and-swap succeeds hands out the oldest committed element, although it read the slot before |
| BoundedQueue.DequeueEmpty | cyber/base/bounded_queue.h:155-168 | with a head that is not stale, Dequeue answers false exactly when nothing was committed at its load of commit |
| BoundedQueue.DequeueStale | cyber/base/bounded_queue.h:155-168 | with a stale head Dequeue never answers false |
| BoundedQueue.EnqueueAnswers | cyber/base/bounded_queue.h:109-129 | the Enqueue that commits puts its own element next in the committed order |
| BoundedQueue.EnqueueRefuses | cyber/base/bounded_queue.h:109-129 | a load of the head refuses if and only if the tail in hand is current and `size` elements are held, or it is stale and the head is past it by one more than a multiple of the pool size; a refusal by a queue that is not full is the second case |
| BoundedQueue.EnqueueLeaves | cyber/base/bounded_queue.h:109-129 | Enqueue ends with true only by the compare-and-swap that commits and with false only at a load of the head that refuses by that condition; every other step keeps its element and ticket, and a lost race for the tail goes on with the tail as it is then |
| BoundedQueue.DequeueLeaves | cyber/base/bounded_queue.h:155-168 | Dequeue ends with the oldest committed element, or with none at a load that finds nothing committed; every other step only moves on inside it |
| BoundedQueue.AnswersAreRight | cyber/base/bounded_queue.h:109-168 | in every run, every answer a thread holds was given by a step of its own and was right in the state of that step: full or full by the stale tail, committed next, empty, or the oldest element |
| BoundedQueue.EnqueueFinishes | cyber/base/bounded_queue.h:109-129 | an Enqueue left alone at any point, with any tail in hand and every earlier ticket committed, ends: with its element committed next, or refused by a full queue or by the stale tail in hand |
| BoundedQueue.DequeueFinishes | cyber/base/bounded_queue.h:155-168 | a Dequeue left alone at any point, with any head in hand, ends with the oldest committed element, or with none if there is none |
| BoundedQueue.WritersApart | cyber/base/bounded_queue.h:109-129 | two threads inside Enqueue never own the same slot |
| BoundedQueue.SlotsApart | cyber/base/bounded_queue.h:229-231 | live tickets have different slots modulo the pool size |
| BoundedQueue.IndexFormula | cyber/base/bounded_queue.h:229-231 | the source's spelling of the index is the remainder |
| BoundedQueue.NothingStuck | cyber/base/bounded_queue.h:109-129 | when no thread is inside Enqueue every ticket is committed, and what went in is what came out plus what is held |
| BoundedQueue.EnqueueAlone | cyber/base/bounded_queue.h:109-129 | run alone, Enqueue refuses exactly when full and otherwise appends its element, changing one slot and the counters |
| BoundedQueue.DequeueAlone | cyber/base/bounded_queue.h:155-168 | run alone, Dequeue answers false exactly when empty and otherwise hands out the oldest element |
| BoundedQueue.StaleTailRefused | cyber/base/bounded_queue.h:109-129 | the concurrent run in which an Enqueue is refused by an empty queue |
| BoundedQueue.Queue.constructor | cyber/base/bounded_queue.h:94-106 | Init leaves an empty queue with room for `size` elements |
| BoundedQueue.Queue.Enqueue | cyber/base/bounded_queue.h:109-129 | the object refines the step machine: appends and answers true, or is full and answers false unchanged |
| BoundedQueue.Queue.Dequeue | cyber/base/bounded_queue.h:155-168 | the object refines the step machine: takes the first element, or is empty and answers none |
| BoundedQueue.Queue.ContentsInPool | cyber/base/bounded_queue.h:219-231 | the i-th element held is in the slot of ticket head + 1 + i |
| FlatTimer.DueExactly | cyber/timer/timing_wheel.cc:73-106 | for every index, phase and duration, the branch AddTask takes queues the task for the first 2 ms step by which its duration is over if and only if the assistant offset is at most 64 and the duration is not zero after the tick |
| FlatTimer.ExactInRange | cyber/timer/timing_wheel.h:36-40 | for every duration from 1 to 65536 ms, wherever the index stands, the task is due k steps on with 2(k-1) < duration <= 2k |
| FlatTimer.LongestDuration | cyber/timer/timing_wheel.h:36-40 | 65536 ms is the longest duration for which that holds at every index |
| FlatTimer.DrainedOnceAtDeadline | cyber/timer/timing_wheel.cc:46-142 | in every run of the table, with deadlines as the wheels give them, a tick k steps after the addition drains a task of 1 to 65536 ms if and only if 2(k-1) < duration <= 2k, until it is added again |
| FlatTimer.DrainedAtTableTime | cyber/timer/timing_wheel.cc:46-142 | the table drains a task at the deadline it was added with, whatever that is, and at no other tick |
| FlatTimer.RunMissesNothing | cyber/timer/timing_wheel.cc:121-142 | no run leaves a queued deadline behind the index |
| WheelBuckets.OnePosition | cyber/timer/timing_wheel.cc:46-119 | a queued task is at one position of one bucket of the two wheels |
| TimingWheel.Wheel.AddTask | cyber/timer/timing_wheel.cc:69-106 | for any duration the two wheels take the step that the flat table takes for the deadline they give it, and the task is then in exactly one bucket that fits that deadline |
| TimingWheel.Wheel.DrainedOnTime | cyber/timer/timing_wheel.cc:46-142 | whatever calls were made to the wheel, in any order: the Tick k index steps after the addition drains a task of 1 to 65536 ms if and only if 2(k-1) < duration <= 2k, and its callback starts at no other, until it is added again |
| TimingWheel.Wheel.DrainedByThen | cyber/timer/timing_wheel.cc:46-142 | and the index does not pass that step without the Tick that drains it |
| TimingWheel.Wheel.ValidMissesNothing | cyber/timer/timing_wheel.cc:46-142 | no wheel in use has a queued deadline behind its index |
| TimingWheel.Wheel.Tick | cyber/timer/timing_wheel.cc:46-67 | the current bucket holds exactly the tasks due now; it starts each live one once, in bucket order, drops the expired ones, and empties |
| TimingWheel.Wheel.Cascade | cyber/timer/timing_wheel.cc:108-119 | every live entry of the assistant bucket moves to the work bucket of its deadline; only expired entries are lost |
| TimingWheel.Wheel.Advance | cyber/timer/timing_wheel.cc:128-140 | the index advance with its cascade is the flat table's advance, and every work bucket again holds only tasks due the next time the index reaches it |
| TimingWheel.Wheel.TickFunc | cyber/timer/timing_wheel.cc:121-142 | with nothing added in between, the k-th turn of the loop fires exactly the live tasks due at now + k, each once; the others stay queued with their deadlines |
| TimingWheel.Wheel.constructor | cyber/timer/timing_wheel.h:68-73 | both wheels start empty |
| TimingWheel.CascadeFits | cyber/timer/timing_wheel.cc:108-119 | an entry of the bucket a cascade empties is due in the rotation that begins, even with assistant offset 64 |
| Timer.Callback | cyber/timer/timer.cc:76-124 | one run of the callback accumulates the drift and adds the task to the wheel with the time left of the interval after the run's length and the error, if at least 2 ms are left, and with 2 ms if not; a dead task does nothing |
| Timer.InitTimerTask | cyber/timer/timer.cc:51-64 | a task is made exactly for periods from 1 to 65535 ms, and its first deadline is the first 2 ms step by which the period is over, at every index |
| Timer.ErrorTelescopes | cyber/timer/timer.cc:92-101 | after n runs the accumulated error is start_n - start_1 - (n-1)*interval, in 64-bit arithmetic |
| Timer.NoDrift | cyber/timer/timer.cc:82-117 | if the run's length and lateness leave at least 2 ms of the interval, callback end plus next duration is within 1 ms of start_1 + n*interval, and if not the next duration is exactly 2 ms |
| Timer.NextIsExact | cyber/timer/timer.cc:102-117 | the wheel keeps the compensated duration if and only if it is the 2 ms one or at most 65536 ms |
| Timer.NextDuration | cyber/timer/timer.cc:102-117 | the next duration is never below the 2 ms resolution |
| RecordSpec.StableSortIsStable | cyber/record/record_viewer.cc:140-176 | the reference sort is ordered by time and keeps, for each time, the order of the input |
| RecordSpec.StableSortPermutes | cyber/record/record_viewer.cc:140-176 | it is a permutation of the input |
| RecordSpec.StableSortUnique | cyber/record/record_viewer.cc:140-176 | it is the only sequence that does so |
| RecordSpec.KeepsAll | cyber/record/record_viewer.cc:140-176 | reading a stream by consecutive windows loses nothing in range if and only if no message follows one of a later window |
| RecordSpec.WindowOrderedMeans | cyber/record/record_viewer.cc:140-176 | that condition, said of the positions and times of the stream |
| RecordSpec.SortedIsWindowOrdered | cyber/record/record_viewer.cc:140-176 | a stream in time order meets it |
| RecordSpec.LateMessageLost | cyber/record/record_viewer.cc:140-176 | a stream that does not meet it, one nanosecond past the first second, and the message it loses; one nanosecond earlier nothing is lost |
| RecordSpec.WindowIsKept | cyber/record/record_viewer.cc:140-176 | a one-second window of the viewer, read after the earlier ones, returns for each of its times what the pass over all of them keeps |
| RecordSpec.WindowsIndependent | cyber/record/record_reader.cc:75-110 | consecutive windows of any widths do not disturb each other: each returns what it would return alone, over a stream in any order |
| RecordSpec.WindowReturnsAll | cyber/record/record_reader.cc:75-110 | a window returns every message of it, once and in file order, if and only if none of them follows a message past the window |
| RecordSpec.WindowsCover | cyber/record/record_reader.cc:75-110 | adjoining windows over a stream in time order return every message of the time they cover, each once, in file order |
| RecordSpec.InRangeMeans | cyber/record/record_reader.cc:75-110 | "every message of a window" is each message with a time in it, as often as it occurs |
| RecordSpec.SelectedChannels | cyber/record/record_viewer.cc:60-75 | of every channel asked for, and of all if none is named, the selection keeps all messages in their order, and none of any other |
| RecordSpec.SelectPicks | cyber/record/record_viewer.cc:60-75 | the selection is what stands at ascending positions, and at all other positions stand channels not asked for |
| RecordReader.ReadWindows | cyber/record/record_reader.cc:75-172 | any list of consecutive closed windows passed to ReadMessage: over an accurate file each returns what it would alone, and over one in time order exactly its messages, once and in file order |
| RecordReader.Reader.ReadMessage | cyber/record/record_reader.cc:75-110 | over an accurate file it returns exactly the next message of the closed window, or none, and leaves everything past the window unread; over any file the answer and the new state depend on the old state alone; the recursion ends |
| RecordReader.NextMessageMeans | cyber/record/record_reader.cc:75-110 | the read over an accurate file, said of what is left of the file |
| RecordReader.NextChunkMeans | cyber/record/record_reader.cc:112-172 | what the search for a chunk skips is before the window; a chunk whose header was consumed when the window ended is still unread, whatever section comes next |
| RecordReader.NextInChunkMeans | cyber/record/record_reader.cc:85-101 | a message of the window in the current chunk, or the knowledge that the next one is past it |
| RecordReader.NextMessageInOrder | cyber/record/record_reader.cc:75-172 | over any file, broken or not, a read returns a message that was left and leaves only what follows it: nothing is invented, repeated or reordered |
| RecordReader.NextMessageStops | cyber/record/record_reader.cc:75-172 | over any file a read gives nothing only because a message past the window is next, the chunks have ended, or the last section taken is past the window or cannot be read; it never goes past the index or an unreadable section |
| RecordReader.Reader.ReadNextChunk | cyber/record/record_reader.cc:112-172 | the loop over the sections refines the search that NextChunkMeans describes, broken sections included, and ends |
| RecordReader.Reader.ReadFromChunk | cyber/record/record_reader.cc:85-101 | the loop over the chunk refines the search that NextInChunkMeans describes |
| RecordReader.Reader.Reset | cyber/record/record_reader.cc:60-65 | the reader is as it was at first, and every message of the file is unread again |
| RecordViewer.Viewer.Iterate | cyber/record/record_viewer.cc:178-206 | over any files the output holds, of each channel asked for (of all if none is named), exactly the messages of the stable sort of what the windows read of each reader, in that order, and nothing else: in time order, in range, and the same for every fresh begin; over accurate files what is read is what the windows keep |
| RecordViewer.AccurateFilesAreKept | cyber/record/record_viewer.cc:140-176 | over accurate files the sort of what is read is the sort of what consecutive windows keep of each stream |
| RecordViewer.OrderedFilesLoseNothing | cyber/record/record_viewer.cc:112-176 | over files in time order with accurate headers the output is the stable sort of every in-range message, each once, and of each channel asked for all of them, clipping the range included |
| RecordViewer.Viewer.FillBuffer | cyber/record/record_viewer.cc:140-176 | passing windows until 128 messages are buffered or the range is used up keeps the output complete and ordered; it answers false only when the range is used up |
| RecordViewer.Viewer.Update | cyber/record/record_viewer.cc:60-75 | the next message of a channel asked for, of any if none is named; what it passes over is of other channels; none once windows and buffer are used up |
| RecordViewer.Viewer.UpdateTime | cyber/record/record_viewer.cc:112-138 | the range is clipped to the least begin and the greatest end of the valid files, and the windows start at its begin |
| RecordViewer.BoundsAreReached | cyber/record/record_viewer.cc:112-128 | those bounds are times of valid files, if there is one within 64 bits |
| RecordViewer.HeaderBounds | cyber/record/record_viewer.cc:112-128 | and no valid file exceeds them |
| RecordViewer.Viewer.Reset | cyber/record/record_viewer.cc:103-110 | all readers, windows and buffers are back at the start |
| RecordViewer.Viewer.Begin | cyber/record/record_viewer.cc:178-190 | a fresh iterator starts from all messages, or is at its end if the range is empty |
| RecordViewer.Viewer.constructor | cyber/record/record_viewer.cc:40-49 | the range a viewer works on |
| RecordWriter.HeaderSpans | cyber/record/file/record_file_writer.h:53-68 | a chunk header bounds the times of its messages if and only if the last of them is 0 or none is |
| RecordWriter.NeverWritten | cyber/record/file/record_file_writer.cc:234-242 | a chunk is not written if and only if all its times are 0 |
| RecordWriter.ZeroTimeForgotten | cyber/record/file/record_file_writer.h:53-68 | a chunk whose header leaves out its message of time 0 |
| RecordWriter.BodiesAreChunks | cyber/record/file/record_file_writer.cc:128-185 | a file holds the messages of its chunks in order, whatever channel sections are between them |
| RecordWriter.AccurateExactly | cyber/record/file/record_file_writer.cc:148-185 | a written file is accurate, as the reader's theorems need it, if and only if its chunk headers and the file header bound all messages |
| RecordWriter.HeaderDecides | cyber/record/file/record_file_writer.cc:172-175 | the file header hides messages from a reader if and only if some message is later than the end of the last chunk |
| RecordWriter.HeaderEndsEarly | cyber/record/file/record_file_writer.cc:172-175 | two chunks for which it does |
| RecordWriter.WrittenIsRead | cyber/record/record_reader.cc:75-172 | a reader of a closed file without times of 0 finds in any window what it would find in the messages as they were written |
| RecordWriter.FileWriter.WriteMessage | cyber/record/file/record_file_writer.cc:187-232 | the message joins the chunk; a chunk that is then longer or larger than allowed goes to the flush task, or is thrown away exactly if that is still at work |
| RecordWriter.FileWriter.FlushTask | cyber/record/file/record_file_writer.cc:234-242 | the chunk goes to the end of the file with its header, and nothing written before is lost |
| RecordWriter.FileWriter.Close | cyber/record/file/record_file_writer.cc:72-92 | the chunk being flushed and the last one are in the file before its index |
| RecordWriter.RoundTrip | cyber/record/file/record_file_writer.cc:72-242 | for any chunk limits and any timing of the flush task that is never late, a reader finds all messages exactly as written, and, if they are in time order, exactly those of any window |
| ObjectPool.RunInv | cyber/base/concurrent_object_pool.h:94-148 | in every interleaving the list links the free nodes in order, every node is free, held by one owner or in flight in one release, and a thread whose loaded head is current has the current next |
| ObjectPool.NothingLost | cyber/base/concurrent_object_pool.h:73-148 | free, held and in-flight nodes are disjoint and add up to the capacity |
| ObjectPool.FreeListIsAcyclic | cyber/base/concurrent_object_pool.h:94-148 | following next from the head never meets a node twice and reaches null within capacity steps |
| ObjectPool.GetTakesTheFirst | cyber/base/concurrent_object_pool.h:94-108 | a get that succeeds takes the first free node, which nobody has, and leaves the rest: the next it read is still the node's next |
| ObjectPool.NullMeansEmpty | cyber/base/concurrent_object_pool.h:94-108 | a get answers null exactly when the list is empty at its load |
| ObjectPool.GetLeaves | cyber/base/concurrent_object_pool.h:94-108 | a get ends with the first free node, or with null at a load that finds none; any other step changes nothing else, and a lost race goes on with the head as it is then |
| ObjectPool.ReleaseLeaves | cyber/base/concurrent_object_pool.h:137-148 | a release ends only by the swap that makes its node the head; until then it keeps its node and changes no other |
| ObjectPool.AnswersAreRight | cyber/base/concurrent_object_pool.h:94-148 | in every run, every answer a thread holds was given by a step of its own and was right in the state of that step |
| ObjectPool.GetFinishes | cyber/base/concurrent_object_pool.h:94-108 | a get left alone at any point, with any head in hand, ends with the first free node, or null if there is none |
| ObjectPool.ReleaseFinishes | cyber/base/concurrent_object_pool.h:137-148 | a release left alone at any point ends with its node in front and no other link changed |
| ObjectPool.HeadMoves | cyber/base/concurrent_object_pool.h:94-148 | every change of the head raises its count |
| ObjectPool.ReleasePutsFirst | cyber/base/concurrent_object_pool.h:137-148 | a release that ends puts its node in front and moves nothing else |
| ObjectPool.GetAlone | cyber/base/concurrent_object_pool.h:94-119 | without interference a get takes the first free node, or answers null when there is none |
| ObjectPool.ReleaseAlone | cyber/base/concurrent_object_pool.h:137-148 | without interference a release followed by a get gives the same node and the same list |
| ObjectPool.InitInv | cyber/base/concurrent_object_pool.h:73-78 | the constructor links the whole arena: every node is free, in order, and none is held |
| AtomicHashMap.RunInv | cyber/base/atomic_hash_map.h:112-284 | with any number of inserters and readers the lists stay sorted and duplicate-free, links skip nothing, and the entries hold the map that the successful stores make |
| AtomicHashMap.BucketHoldsItsKeys | cyber/base/atomic_hash_map.h:112-188 | in every run the list of a bucket is strictly ascending and holds exactly the keys of the map that map to it, with their values |
| AtomicHashMap.LinkLists | cyber/base/atomic_hash_map.h:170-186 | linking a prepared entry behind the found position keeps every list sorted, unique and complete |
| AtomicHashMap.HasIsTrue | cyber/base/atomic_hash_map.h:112-123 | Has answers what is true of the map at the step that answers, and until then goes on with its key |
| AtomicHashMap.GetIsTrue | cyber/base/atomic_hash_map.h:276-284 | Get answers the value the map has at the step that answers, or that the key is absent then, and until then goes on with its key |
| AtomicHashMap.SetStores | cyber/base/atomic_hash_map.h:147-231 | an insertion changes the map in the step that ends it and in no other, by a link exactly if the key is new, and stores the value it was given, by copy or by move; it starts again from the head of its bucket exactly when its compare-and-swap finds a change, and makes at most one entry and one value |
| AtomicHashMap.OnlySetsStore | cyber/base/atomic_hash_map.h:112-284 | nothing else changes the map |
| AtomicHashMap.KeysStay | cyber/base/atomic_hash_map.h:147-188 | no key is ever lost |
| AtomicHashMap.SetAlone | cyber/base/atomic_hash_map.h:66-79 | from every reachable state a Set that is left alone ends, and the map then has exactly its value at its key |
| AtomicHashMap.InsertFinishes | cyber/base/atomic_hash_map.h:147-231 | an insertion left alone at any point, with whatever it has loaded, ends and stores what it should |
| AtomicHashMap.LookupAlone | cyber/base/atomic_hash_map.h:46-64 | from every reachable state a Has or Get that nobody interrupts ends and answers what the map holds |
| AtomicHashMap.ValueKept | cyber/base/atomic_hash_map.h:147-231 | every Set, by copy or by move, stores its value in the step that ends it, whatever the other threads do and however often it starts again |
| AtomicHashMap.NothingMovedFrom | cyber/base/atomic_hash_map.h:190-231 | no run puts a moved-out value into the map: an insertion by move moves at most once |
| AtomicHashMap.BucketsRepeat | cyber/base/atomic_hash_map.h:46-49 | keys below the table size have buckets of their own, and the buckets repeat from there |
| Registry.NameRegistry.Register | cyber/common/global_data.cc:182-195 | the probing loop ends; a known name keeps its id and changes nothing, a new one gets a free id, its hash itself if that is free, and no other entry changes |
| Registry.NameRegistry.GetById | cyber/common/global_data.cc:197-203 | a registered name comes back for its id, and for every other id the empty string |
| Registry.IdsAndNames | cyber/common/global_data.cc:182-272 | the names registered and their ids are each other's inverse |
| Registry.RegisterMeans | cyber/common/global_data.cc:182-272 | registration keeps the invariant that every id probed before a name's own is taken by another name; a name whose hash no other name has gets it |
| Registry.IdIsFirstFree | cyber/common/global_data.cc:182-195 | the id of a name is the first of hash, hash + 1, ..., modulo 2^64, that no other name has |
| Registry.IdStays | cyber/common/global_data.cc:182-272 | what a registration returned is the id of its name after any later registrations |
| Registry.IdsAreInjective | cyber/common/global_data.cc:182-272 | over any sequence of registrations, with any hash, ids are equal if and only if names are |
| Registry.ProbeStops | cyber/common/global_data.cc:182-195 | a probe in a map with room ends at an id no other name has, past 2^64 included |
| FetchRule.FetchedMeans | cyber/data/channel_buffer.h:57-78 | a read finds nothing exactly when every message is known to the reader; it takes the next one unless it has just begun or more than `size` wait, and then the newest |
| FetchRule.DeliveredInOrder | cyber/data/channel_buffer.h:57-78 | over any run of fills and reads the positions delivered strictly increase |
| FetchRule.NothingSkipped | cyber/data/channel_buffer.h:57-78 | a reader that is never more than `size` behind misses nothing after its first message |
| CacheBuffer.Buffer.constructor | cyber/data/cache_buffer.h:36-39 | an empty ring for `size` messages, 0 included |
| CacheBuffer.Buffer.Fill | cyber/data/cache_buffer.h:68-82 | appends to the messages ever filled, overwriting only the oldest |
| CacheBuffer.Buffer.At | cyber/data/cache_buffer.h:50-58 | at(p) is the p-th message ever filled for every head < p <= tail |
| CacheBuffer.Buffer.Fetch | cyber/data/channel_buffer.h:57-78 | takes the message that the read rule says |
| CacheBuffer.Buffer.Latest | cyber/data/channel_buffer.h:80-88 | the newest message, if there ever was one |
| CacheBuffer.Buffer.FetchMulti | cyber/data/channel_buffer.h:91-105 | the last min(size held, n) messages, oldest first |
| CacheBuffer.Visitor.TryFetch | cyber/data/data_visitor.h:183-189 | one read step of the run model: the value is the message of the delivered position |
| Fusion.AllLatest.OnMessage | cyber/data/fusion/all_latest.h:54-69 | the tuple pairs the message with the newest of the other channels at moments inside its dispatch; none is made exactly when a channel is still empty as it is read |
| Fusion.AllLatest.ReadLatest | cyber/data/fusion/all_latest.h:57-63 | the three reads, in order, with arrivals in between, ending at the first empty channel |
| Fusion.DeliveredTuplesMoveForward | cyber/data/fusion/all_latest.h:54-82 | over any run delivered tuples have strictly later m0 and never earlier m1, m2, m3 |
| Fusion.ToldNonempty | cyber/data/fusion/all_latest.h:60-63 | once a tuple has been made no channel is empty, so every later m0 makes one |
| Fusion.FetchFused | cyber/data/fusion/all_latest.h:71-82 | a reader gets the parts of the tuple at the position delivered |
| Fusion.AllLatest.constructor | cyber/data/fusion/all_latest.h:44-54 | the fusion ring is as large as the ring of the first channel |
| Wakeup.RunInv | cyber/croutine/croutine.h:125-207 | the invariant of the protocol in every interleaving of processors and dispatchers, for both notifiers |
| Wakeup.NoWakeupIsLost | cyber/croutine/routine_factory.h:55-68 | while the routine waits with an unread message whose notification is over, the flag is pending or an update that took it is about to make the routine READY |
| Wakeup.UpdateMissesNothing | cyber/croutine/croutine.h:176-191 | a processor that leaves the routine asleep has missed no notification that was over when it looked at the flag |
| Wakeup.NextUpdateWakes | cyber/croutine/croutine.h:176-191 | the next UpdateState makes the waiting routine READY, whatever the other threads do meanwhile |
| Wakeup.UpdateWakes | cyber/croutine/croutine.h:176-191 | a sleep that is over ends, and one that is not lasts; a pending flag wakes from IO_WAIT as from DATA_WAIT, is taken once, and changes no other state; all whatever the other threads do meanwhile |
| Wakeup.MissedIsRead | cyber/scheduler/policy/classic_context.cc:52-74 | a processor left to itself then runs the routine, in either loop, and it reads a new message |
| Wakeup.OnlyReadyRuns | cyber/scheduler/policy/classic_context.cc:59-69 | only a READY routine is resumed: the step that begins to run it is its holder's, and leaves it READY and where it was |
| Wakeup.AsleepStep | cyber/croutine/croutine.h:176-191 | a step makes a routine that is not running READY only because its sleep is over, or it waits and its flag was taken; only a dispatcher raises the flag |
| Wakeup.AsleepUntilReady | cyber/scheduler/policy/classic_context.cc:52-73 | in every run, a routine in SLEEP, IO_WAIT or DATA_WAIT stays in its state and place, and nobody runs it, until a step has made it READY |
| Wakeup.YieldLasts | cyber/croutine/croutine.h:125-160 | a callback that sleeps is not resumed before its sleep is over, whoever notifies; one that waits, only once somebody notifies |
| Wakeup.CallbackReturns | cyber/croutine/routine_factory.h:57-66 | after its callback a routine yields as READY, or, in the task manager's loop, looks for the next task at once |
| Wakeup.NotifyRaises | cyber/scheduler/policy/scheduler_classic.cc:163-182 | a notification raises the flag of a routine in DATA_WAIT or IO_WAIT, and one that looks at the state does so in no other |
| Wakeup.DispatchWakes | cyber/scheduler/policy/scheduler_classic.cc:163-182 | after a dispatch to a waiting routine the flag is pending and the message is unread with its notification over |
| Wakeup.FirstRun | cyber/croutine/routine_factory.h:55-68 | a new routine is run, looks for a message, and waits |
| Wakeup.EmptyHanded | cyber/croutine/routine_factory.h:57-66 | a routine that yielded on finding nothing is in DATA_WAIT until it is READY; one that yielded after a message is READY |
| Wakeup.OtherStep | cyber/croutine/croutine.h:197-203 | while one processor holds the routine the others change neither it nor a pending flag |
| Wakeup.LateWaitLosesWakeup | cyber/task/task_manager.cc:37-48 | a loop that sets DATA_WAIT after its fetch has a run that loses a wake-up to a state-checking notifier |
| Wakeup.SafeExactly | cyber/scheduler/policy/scheduler_classic.cc:163-182 | no run loses a wake-up if and only if DATA_WAIT is set before the fetch or the notifier always sets the flag |
| Rpc.RunInv | cyber/service/client.h:268-310 | every request a client has numbered is being entered, pending or answered, in every run over a network that loses, repeats and reorders |
| Rpc.AnsweredOnce | cyber/service/client.h:291-310 | no promise is set twice |
| Rpc.AnswerIsOwn | cyber/service/service.h:210-237 | a promise is set only with what a service callback returned for the one request its own client sent under that number |
| Rpc.NothingDiscarded | cyber/service/client.h:268-310 | a response to an own unanswered request finds its promise in the table |
| Rpc.LockDecides | cyber/service/client.h:268-310 | the first own response is never discarded, in any run, if and only if one lock covers transmission and entry |
| Rpc.ResponseIsUsed | cyber/service/client.h:291-310 | such a response is given to the promise at once, or waits for the lock; late, repeated and foreign responses change nothing |
| Rpc.HandledInOrder | cyber/service/service.h:137-157 | a service handles what it received in order, each delivery once |
| Rpc.RoundTrip | cyber/service/service.h:210-237 | when nothing is lost, a call comes back with its own answer |
| Rpc.Overtaken | cyber/service/client.h:268-283 | the run in which a response overtakes the table entry when the lock does not cover both |
| RpcEndpoints.Client.AsyncSendRequest | cyber/service/client.h:268-287 | the two client steps of the protocol under one lock, with a fresh promise; nothing before Init |
| RpcEndpoints.Client.HandleResponse | cyber/service/client.h:291-310 | the client step of the protocol: the promise of an own pending request is set, once, and its callback called |
| RpcEndpoints.Service.Enqueue | cyber/service/service.h:137-141 | tasks queue in order |
| RpcEndpoints.Service.Process | cyber/service/service.h:144-158 | tasks are answered in order, each with the client and number of its request and what the callback returned for it; nothing once destroyed |
| RpcEndpoints.ReplyIsAccepted | cyber/service/client.h:291-310 | a reply is accepted by the client that sent the request, while it is pending, and by no other |
| RpcEndpoints.Service.Destroy | cyber/service/service.h:124-134 | waiting tasks are dropped |
| RWLock.RunInv | cyber/base/atomic_rw_lock.h:62-114 | the counts and the order of announcements in every interleaving |
| RWLock.WordCounts | cyber/base/atomic_rw_lock.h:62-114 | the lock word is -1 exactly when one writer and no reader has the lock, and otherwise the number of readers |
| RWLock.PreferenceDecides | cyber/base/atomic_rw_lock.h:62-110 | a reader that begins while writers wait never gets the lock before they have had it, in any run, if and only if write-first mode is on |
| RWLock.ReaderWaitsForWriters | cyber/base/atomic_rw_lock.h:62-110 | in write-first mode, from the step in which ReadLock begins to the step in which it gets the lock, every writer that waited at the first has had the lock by the second |
| RWLock.ReaderOvertakes | cyber/base/atomic_rw_lock.h:79-91 | without it, a run in which a reader gets the lock before a writer that waited as it began |
| RWLock.FreeLockIsHad | cyber/base/atomic_rw_lock.h:62-110 | a free lock that nobody waits for is had by the next caller, and one that only readers have by the next reader |
| RWLock.LockLeaves | cyber/base/atomic_rw_lock.h:62-114 | ReadLock ends only with a read lock and WriteLock only with the write lock, each taken by a swap on a word that allows it; every other step stays inside |
| RWLock.ReaderGetsIn | cyber/base/atomic_rw_lock.h:62-96 | a reader left alone at any point of ReadLock gets the lock if no writer has it and, in write-first mode, none waits |
| Rate.RestartMeans | cyber/time/rate.cc:74-107 | after every Sleep the start is within one cycle of the reading; it is one cycle on exactly when the reading is neither early nor more than a cycle late, one cycle after the reading after a backward jump, and the reading itself after a longer delay |
| Rate.ScheduleKept | cyber/time/rate.cc:74-107 | the n-th start is start_0 + n*cycle for as long as the readings keep that bound, and only then |
| Rate.Rate.Sleep | cyber/time/rate.cc:74-107 | one call: the new start, the cycle time measured, and until when it sleeps |

## Left out

- Counters and times are unbounded numbers, except the drift error, which wraps at 64 bits, and registry ids, which wrap at 2^64. In particular the viewer near time 2^64, where the window end would wrap, is not modelled.
- Memory is sequentially consistent; the weaker orders the atomics name are not modelled.
- The lock-free ring, pool, map, lock and the wake-up protocol are step machines over values, with no class around them (the ring also has one for a thread that runs alone): what is then not modelled is the compiled layout, such as padding and alignment.
- Wait strategies, `WaitEnqueue`, `WaitDequeue` and `BreakAllWait` of the ring.
- BoundedQueue.Queue.Enqueue: is stated for a thread that runs alone with every ticket committed, because otherwise its last loop waits for another thread; the step machine covers the rest.
- Wakeup.LateWaitLosesWakeup: is of one routine that reads one ring in the order of the task manager's loop; the bounded queue that the task manager's routines share is not part of it.
- TimingWheel.Wheel.AddTask: is atomic and takes a task that is not queued yet, as the timer's own use is; at a finer grain the snapshot of the index can be stale and exactness is lost.
- Timer.Callback: rounds exactly, halves away from zero; the source divides in double precision first. The ceiling in AddTask is exact too.
- Timer.NoDrift: takes clock readings above zero, because zero marks "never run", and a lateness that fits 64 bits.
- Oneshot timers, and the starting and stopping of timers and of the wheel's thread.
- RecordReader.Reader.ReadMessage: which messages it returns is stated for accurate files, where each chunk header precedes its chunk and bounds its times; of other files it is stated that they are in range and depend on the reader's state alone.
- RecordViewer.Viewer.Iterate: takes distinct reader objects, in the order the vector has; which readers are opened, the sort of that vector, and the list of channels are not modelled.
- Bytes and protobuf of record files: a file is the sequence of its sections.
- RecordWriter.RoundTrip: is stated for message times above 0 and for runs in which no chunk was thrown away; `HeaderSpans`, `NeverWritten` and `FileWriter.WriteMessage` say what happens otherwise.
- RecordWriter.FileWriter.WriteMessage: a chunk is a value that the writer owns; failing writes, the contents of the index, message counts, and the splitting of a recording into several files are not modelled.
- BoundedQueue.RunInv: a copy that overlaps a write of the same slot yields an arbitrary value, which is never handed out; in the source such an overlap is a data race, and for element types with more than plain bytes, such as the functions that task_manager.cc queues, the copy itself is undefined behaviour.
- Lifetime of values that `AtomicHashMap::Get` points to; a replaced value counts as garbage-collected.
- Registry.NameRegistry.Register: is for one caller at a time and a map with room; concurrent registrations check and then set, without a lock.
- Fusion.AllLatest.OnMessage: arrivals between the reads are a parameter; two- and three-channel fusion, the same code with fewer reads, is not written out.
- Wakeup.RunInv: one routine, with its notify callback registered; the window before that, FINISHED routines, removal of tasks, and the sleeping and waking of processors themselves are not modelled. What the callback of the routine waits for inside itself is not tracked.
- Timeouts of `SendRequest`, discovery of services, and the promise's future as an object; a failing `set_value` cannot happen and is a precondition.
- Rpc.AnswerIsOwn: of two answers to a request that was delivered twice, the first to arrive is used, whichever it is.
- RWLock.PreferenceDecides: says nothing of fairness among writers, and a reader may wait forever.
- `UnboundedQueue`, `ReentrantRWLock`, transport, schedulers, logging and configuration.
