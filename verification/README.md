# Verified models of stores, locks, editors, timers and parsers

A Dafny project that models the parts of this collection with invariants of
their own, and proves what they promise. `dafny verify dfyconfig.toml` checks
everything.

## What is modelled

**Hashed key/value store** (`apue.3e/db/db.c`). The index and data files are
strings, and the library's reads and writes are methods on them, down to the
padded decimal pointers and the `:`-separated records (`Numerals`, `DbText`,
`DbLayout`). The free list and the 137 chains threaded through the file are
read off as sequences (`DbChains`, `DbEdits`), and the chained records as a map
from keys to data (`DbView`). `DbStore` proves that any sequence of operations
on the files behaves as a plain map (`DbSpec`), up to the first store that must
end the process, which the operations and the sizes at the start decide.
`DbConcurrent` and `DbConcurrentProof` then take the locks: any number of
processes, one step per lock section, in every interleaving, on index records
and one data file. `DbConfined` takes such a step apart into its reads and its
single writes.

**Reference-counted object table** (`apue.3e/threads/mutex3.c`, `mutex2.c`).
`RefTableCoarse` is the version under one lock, as a class on explicit memory.
`RefTable` is the version with a lock in each object, as a state machine whose
steps are single lock calls and single memory accesses of any number of threads;
`RefTableProof` proves its invariant, `RefTableRuns` that every run does what
the one-lock table does, and `RefTableCounts` what the counts have to do with
the calls that were made.

**Semaphores with crash recovery** (`apue.3e/lib/semaph.c`). `SemSet` is the
three-member System V set with `SEM_UNDO`, one step per kernel call, where any
process may die between any two calls; `SemProof` proves the lifecycle and
`SemOpens` ties the counter to the calls.

**Line editor** (`linenoise/linenoise.c`). `LineTerminal` is a terminal with
deferred wrap; `LineRefresh`, `LineRefreshProof` and `LineSingle` are the two
redraws; `LineEdit` is an interpreter on (left, right) and `LineEditor` the
in-place buffer that refines it; `LineLaws` says byte by byte what happens to
the text and the cursor.

**Timers** (`socket/11.4.tw_timer.h`, `11.5.time_heap.h`, `11.2.lst_timer.h`).
`TimeWheel` with `TimeWheelRuns`, `TimeHeap` with `TimeHeapRuns`, and
`SortedTimers` with `SortedTimersRuns`; `TimerRuns` says what the last two
promise over whole runs.

**Decimal printer** (`haproxy/src/calltrace.c`): `DecimalPrinter`, with
`Division` for division by numbers that are not constants.

**Connection retries** (`haproxy/src/backend.c`, with what `queue.c`,
`stconn.c`, `stream.c` and `http_ana.c` do to the same fields): `BackendConn`.

**Conditions and arguments** (`haproxy/src/arg.c`, `cfgcond.c`, `acl.c`):
`ArgList`, `CfgCond` with `CfgCondProof`, `AclCond` with `AclParse` and
`AclMeaning`.

**Incremental request parser** (`socket/08.3.http_parsr.cpp`): `HttpParse`, and
`HttpMeaning` for which bytes are a request.

**Base64** (`haproxy/src/base64.c`): `Base64`.

## Where the code and what is said about it differ

The models follow the code.

- `sem_create` says that it handles the removal of the set by going back to
  create it. A creator that sleeps on the lock when the set is removed is ended
  instead, and only then (`SemProof.CreateDiesIff`, at `SemProof.SleeperDies`).
- With BIGCOUNT opens outstanding the counter is 0 and the next creator
  initialises the set under its users (`SemProof.ReinitHappens`); below that it
  never happens (`SemProof.ReinitIff`).
- `sem_op` takes an int but stores it in a short, which keeps it exactly within
  the range of one (`SemSet.Short`); 65536 ends the process as if it were zero
  (`SemProof.AmountLost`).
- After a multi-line refresh the cursor is a row too high when the buffer is
  empty and the prompt fills whole rows (`LineRefreshProof.RefreshWorks`, at
  `LineRefreshProof.PromptOfOneRow`); and a session is well started exactly when
  the prompt takes at most one row (`LineRefreshProof.StartIff`).
- A line that takes more rows than the window is not cleared by the next refresh:
  its first rows have scrolled out and stay (`LineRefreshProof.RefreshWorks` and
  `TallStays`, at `LineRefreshProof.TallLine`); and the cursor ends at the top of
  the window when its row is not in it.
- A single-line refresh whose text fills the row erases its last character,
  because the erase function comes after the text, with the cursor on it
  (`LineSingle.SingleWorks`, at `LineSingle.FullRow`).
- A completion that does not fit the buffer leaves a length beyond its text,
  because `snprintf` returns the length it would have liked to write
  (`LineEditor.Editor.TakeCompletion`, at `LineEditor.LongCompletion`).
- `adjust_timer` moves timers towards the tail only, so the list stays in order
  exactly when the timer before is still no later
  (`SortedTimers.TimerList.Adjust`, at `SortedTimersRuns.EarlierTime`).
- An argument that exactly fills its room is refused when it is quoted, for want
  of room for the closing quote (`ArgList.FullArgRefused`, at `ArgList.FullRoom`;
  `ArgList.OneArgIff`).
- `base64dec` says that it never takes a letter with three paddings. It does,
  because the padding is counted after it is looked at
  (`Base64.PromisedIff`, at `Base64.ThreePads`).
- A byte above 127 typed while a completion is offered ends the edit as if by an
  error, because `char` is signed (`LineEdit.HighByteIff`, at
  `LineEdit.HighByte`).

## Model

| member | source | states |
|---|---|---|
| `Numerals.AtolOfPadded` | apue.3e/db/db.c:323-337 | a number printed right-justified in any width is read back by atol |
| `Numerals.DecimalLength` | apue.3e/db/db.c:618-632 | a numeral has at most k digits exactly when the number is below 10^k |
| `Numerals.DigitAt` | apue.3e/db/db.c:618-632 | digit k of a numeral from the right is the number divided by 10^k, modulo 10 |
| `DbText.BodyRoundTrip` | apue.3e/db/db.c:388-415 | an index record's key, data offset and data length are read back from its text exactly when the key holds no separator |
| `DbText.FieldsRead` | apue.3e/db/db.c:388-415 | every line of three fields is read, exactly when its two numbers are in range |
| `DbText.ReadHasFields` | apue.3e/db/db.c:388-415 | and no other line is |
| `DbText.RecColumns` | apue.3e/db/db.c:567-613 | the columns of a record: a right-justified pointer of seven, a right-justified length of four, key, offset and length apart by colons, and a newline |
| `DbText.PtrRoundTrip` | apue.3e/db/db.c:323-337 | a pointer field is read back as written |
| `DbText.RecRoundTrip` | apue.3e/db/db.c:343-419 | the record read at an offset is the record whose text lies there |
| `DbLayout.WriteCell` | apue.3e/db/db.c:618-632 | writing a pointer cell changes that cell of the layout and nothing else |
| `DbLayout.BlankLayout` | apue.3e/db/db.c:146-160 | a new index file is laid out with 138 null pointers and no records |
| `DbChains.Unlink` | apue.3e/db/db.c:463-525 | redirecting the pointer to a record takes exactly that record off its list |
| `DbChains.Push` | apue.3e/db/db.c:690-742 | a record linked at the head joins that list and no other |
| `DbEdits.DeleteFiled` | apue.3e/db/db.c:463-525 | deletion moves one record from its chain to the free list and keeps every record on exactly one list |
| `DbEdits.InsertFiled` | apue.3e/db/db.c:690-742 | insertion puts a loose or appended record on its chain and keeps every record on exactly one list |
| `DbEdits.TakeFreeFiled` | apue.3e/db/db.c:752-806 | taking a free record unlinks exactly it and leaves it on no list |
| `DbStore.Db.constructor` | apue.3e/db/db.c:134-165 | a new database represents the empty map |
| `DbStore.Db.ReadPtr` | apue.3e/db/db.c:323-337 | reading a cell of the file gives the pointer that the layout has there |
| `DbStore.Db.WritePtr` | apue.3e/db/db.c:618-632 | fails exactly above PTR_MAX, else changes that one cell and keeps the layout |
| `DbStore.Db.ReadIdx` | apue.3e/db/db.c:343-419 | the fields read are those of the record at the offset, and the file position is after it |
| `DbStore.Db.WriteIdx` | apue.3e/db/db.c:567-613 | fails exactly when the record cannot be written, else rewrites in place or appends that one record |
| `DbStore.Db.WriteDat` | apue.3e/db/db.c:531-562 | writes the data and a newline in place or at the end and nothing else |
| `DbStore.Db.ComputeHash` | apue.3e/db/db.c:306-318 | the loop computes the positional sum of signed characters modulo 137 |
| `DbView.HashIs` | apue.3e/db/db.c:306-318 | the hash is the sum of each signed byte times its place from 1 on, in 64 bits, modulo 137 |
| `DbView.AsciiHash` | apue.3e/db/db.c:306-318 | and for an ASCII key of an index nothing wraps |
| `DbStore.Db.FindAndLock` | apue.3e/db/db.c:259-302 | finds a record exactly when the map has the key, with the cell that leads to it |
| `DbStore.Db.Fetch` | apue.3e/db/db.c:233-253 | returns the mapped data, or nothing exactly when there is none, and changes neither file |
| `DbStore.Db.DoDelete` | apue.3e/db/db.c:463-525 | blanks the record and its data, frees it, and removes that key from the map; the files keep their lengths and the free list gains that size |
| `DbStore.Db.Delete` | apue.3e/db/db.c:440-459 | removes the key, and its record goes to the free list; 0 or -1 as it was there or not |
| `DbStore.Db.FindFree` | apue.3e/db/db.c:752-806 | finds a free record exactly when one has the same key length and data length, and unlinks it |
| `DbStore.Db.PutRecord` | apue.3e/db/db.c:690-742 | a new key in a reused or appended record is mapped to its data |
| `DbStore.Db.Replace` | apue.3e/db/db.c:698-739 | a key that is there gets its new data, in place when the length is the same and else in an appended record |
| `DbStore.Db.Store` | apue.3e/db/db.c:637-745 | -1 with ENOENT exactly for a replace of a key that is not there, 1 exactly for an insert of one that is, EINVAL exactly for another flag, and the new map is the old with the key set exactly when 0 is returned; the free list and the lengths of both files after it; and the process dies exactly when the data, the record or the offset cannot be written |
| `DbSpec.StepDoes` | apue.3e/db/db.c:233-745 | the abstract step answers each of the three operations with exactly the codes and data, and leaves exactly the map, that the library promises |
| `DbSpec.DumpsIff` | apue.3e/db/db.c:567-745 | when a store ends the process, in lengths of key, data and files |
| `DbSpec.FreedIsReused` | apue.3e/db/db.c:752-806 | a store that fits a record freed before it takes that record, and neither file grows |
| `DbStore.Db.NextRec` | apue.3e/db/db.c:835-875 | the next record with a key that is not blank, skipping only blank ones |
| `DbStore.Db.Scan` | apue.3e/db/db.c:812-875 | rewind and next to the end give every pair of the map once, and nothing else |
| `DbStore.OneListEach` | apue.3e/db/db.c:463-806 | every record is on exactly one list at one place: blank ones on the free list, others on the chain of their key's hash |
| `DbStore.Step` | apue.3e/db/db.c:233-745 | one operation answers and changes the map as the abstract one, and ends the process exactly when the sizes say so |
| `DbStore.Run` | apue.3e/db/db.c:233-745 | any sequence of operations on the files gives the answers of a serial execution, code by code, and acts as the abstract map and leaves files that represent it; it stops exactly at the first store that must end the process, which the sizes at the start and the operations decide |
| `DbSpec.ReadsLastWrite` | apue.3e/db/db.c:233-745 | judged by the answers alone, a key is as the last store answered 0 or removal of it left it |
| `DbSpec.FetchReadsLast` | apue.3e/db/db.c:233-253 | so every fetch of a run answers the last write |
| `DbStore.RunAll` | apue.3e/db/db.c:531-745 | with ordinary stores and room below PTR_MAX for a record each, every operation returns |
| `DbSpec.RoomSuffices` | apue.3e/db/db.c:531-632 | the same of the abstract sizes |
| `DbConcurrentProof.NextInv` | apue.3e/db/db.c:270-301 | every lock-granular step of every process keeps the records filed and tiling the index, all data regions and all data not yet in a record apart, the locks exclusive and each process's view true |
| `DbConcurrentProof.RunIsSerial` | apue.3e/db/db.c:637-805 | in every interleaving the operations on the index and the one data file are equivalent to a serial run with the same answers, each process's operations once each and in its own order |
| `DbConcurrentProof.LogIsSerial` | apue.3e/db/db.c:637-805 | in every state of every interleaving there are maps between the entries of the log, from the empty one to that of the files, each entry answers as its code says on the map before it, and a fetch answers the last write before it |
| `DbConcurrentProof.OneOwner` | apue.3e/db/db.c:463-525 | at any moment a record is on exactly one list, or on none and owned by exactly one process in the middle of a store |
| `DbConcurrentProof.StepConfined` | apue.3e/db/db.c:270-301 | a step changes only lists, free list included, that its process has write-locked, the record it owns and the data of those, and the end of the index or of the data only with that lock |
| `DbConcurrentProof.NoDeadlock` | apue.3e/db/db.c:531-612 | with the lock order chain, free list, append region some process can always move |
| `DbConcurrentProof.QuietAgrees` | apue.3e/db/db.c:637-805 | with no operation in progress reading the files at any key gives what the abstract map has there |
| `DbConcurrentProof.QuietRepresents` | apue.3e/db/db.c:637-805 | and the files are such as a sequential store leaves: records on one list each and end to end, data regions apart, chained records and data the map |
| `DbConfined.StepWrites` | apue.3e/db/db.c:463-806 | a step is the library's writes in their order and nothing else |
| `DbConfined.ReadsConfined` | apue.3e/db/db.c:259-302 | what a step writes and where its process goes next depend only on what lies under its locks and in its own record |
| `DbConfined.WritesConfined` | apue.3e/db/db.c:463-806 | each single write goes to a locked list or end, or to a record that the process owns and that record's data |
| `RefTableCoarse.CoarseTable.FooAlloc` | apue.3e/threads/mutex3.c:18-41 | the new object heads its bucket with count 1, as the table operation says |
| `RefTableCoarse.CoarseTable.FooHold` | apue.3e/threads/mutex3.c:43-49 | one more reference and nothing else |
| `RefTableCoarse.CoarseTable.FooFind` | apue.3e/threads/mutex3.c:51-65 | the loop returns the first object of the bucket with that id, held, or null when there is none |
| `RefTableCoarse.CoarseTable.FooRele` | apue.3e/threads/mutex3.c:67-90 | one reference less, and at the last one the object leaves its bucket and memory |
| `RefTableCoarse.ReleUndoes` | apue.3e/threads/mutex3.c:18-90 | releasing undoes holding and undoes a fresh allocation |
| `RefTableCoarse.MatchIs` | apue.3e/threads/mutex3.c:57-62 | what find returns is the first with that id, and null exactly when there is none |
| `RefTableProof.NextInv` | apue.3e/threads/mutex2.c:19-104 | every step of every thread keeps the lists linked, counts equal to references, locks exclusive and each thread's knowledge true |
| `RefTableRuns.MemRefines` | apue.3e/threads/mutex2.c:19-104 | each memory access either changes nothing of the table or is one whole operation of the one-lock table with its answer |
| `RefTableRuns.RunIsSerial` | apue.3e/threads/mutex2.c:19-104 | in every run the table and every answer are those of the one-lock version run in the order of the log, which holds each thread's calls once each, in its order |
| `RefTableRuns.CountsReferences` | apue.3e/threads/mutex2.c:44-50 | f_count equals the outstanding references, and an object with two or more is in its bucket |
| `RefTableCounts.SharesCounted` | apue.3e/threads/mutex2.c:19-104 | in every run, for objects in the table or not, the references of each thread and of all are what the log and the gifts between threads say |
| `RefTableCounts.CountIsHistory` | apue.3e/threads/mutex2.c:19-104 | in every state of every run f_count of an object in the table is the number of its allocations, holds and finds less its releases, and at least 1; a thread's references are its own of these and its gifts |
| `RefTableCounts.GoneIsBalanced` | apue.3e/threads/mutex2.c:74-104 | and an object that no longer exists has been released as often as it was taken |
| `RefTableCounts.FoundIff` | apue.3e/threads/mutex2.c:52-72 | a find answers an object with that id, and null exactly when the table has none |
| `RefTableCounts.FindTruth` | apue.3e/threads/mutex2.c:52-72 | and so it does at the moment of its effect, whatever the other threads do |
| `RefTableRuns.TouchesAllocated` | apue.3e/threads/mutex2.c:52-104 | whatever a thread can still touch is allocated |
| `RefTableRuns.FreeIsSafe` | apue.3e/threads/mutex2.c:86-99 | at the free no list holds the object, no other reference exists, its lock is free and no other thread will touch or wait on it |
| `RefTableRuns.NoLeak` | apue.3e/threads/mutex2.c:68-104 | between operations only objects of the table are allocated and no lock is held |
| `RefTableRuns.NoDeadlock` | apue.3e/threads/mutex2.c:74-103 | a blocked thread waits on a chain of at most two holders, the last of which can move |
| `SemProof.RunInv` | apue.3e/lib/semaph.c:89-163 | in every run, crashes anywhere, the lifecycle invariant holds while fewer than BIGCOUNT opens were outstanding |
| `SemProof.MutualExclusion` | apue.3e/lib/semaph.c:49-61 | member [2] is a lock: at most one process is inside create or close |
| `SemProof.CounterCountsOpens` | apue.3e/lib/semaph.c:135-160 | member [1] is BIGCOUNT minus the live opens, and 0 only when not initialised and not open; what an open is, `SemOpens.OpensCounted` says on the events |
| `SemOpens.OpensCounted` | apue.3e/lib/semaph.c:89-253 | over every run, without bound, what a process has open is the creates that returned to it less the closes it called since it was born, but for a close whose first call is still to come |
| `SemOpens.CounterCountsEvents` | apue.3e/lib/semaph.c:135-253 | over every run with fewer than BIGCOUNT opens outstanding, member [1] of a set in use is BIGCOUNT less the creates that returned and were not given back, counted on the events |
| `SemProof.InitOnlyUnopened` | apue.3e/lib/semaph.c:138-153 | while a process initialises, nobody has the set open |
| `SemProof.RemovedOnlyUnopened` | apue.3e/lib/semaph.c:222-253 | the set is removed only by the last close, with nobody having it open or operating on it |
| `SemProof.OpenIsCurrent` | apue.3e/lib/semaph.c:283-291 | an open set is never removed or replaced under its user |
| `SemProof.CrashRecovers` | apue.3e/lib/semaph.c:49-81 | a crash frees the lock it held, uncounts its opens, never leaves the range for [1] and [2], and touches no other process |
| `SemProof.NeverDumps` | apue.3e/lib/semaph.c:246-247 | the counter never exceeds BIGCOUNT in sem_close |
| `SemProof.ValueConserved` | apue.3e/lib/semaph.c:77-81 | member [0] is the initial value with every live process's operations applied, plus the drift |
| `SemProof.DriftOnlyByClamp` | apue.3e/lib/semaph.c:77-81 | the drift changes only at initialisation or when an exit's adjustment would leave the range |
| `SemProof.LockHolderRuns` | apue.3e/lib/semaph.c:124-160 | whoever waits for the lock waits for a live holder that can move |
| `SemProof.FirstCreate` | apue.3e/lib/semaph.c:89-163 | undisturbed, the first create makes a set with the initial value, one open counted and the lock free |
| `SemOpens.NextCreate` | apue.3e/lib/semaph.c:89-163 | undisturbed, a create of a set in use leaves its value, lowers [1] by exactly one, frees the lock and adds one open |
| `SemOpens.RepairCreate` | apue.3e/lib/semaph.c:89-163 | undisturbed, a create that finds a counter of 0 initialises the set it finds as the first create does |
| `SemProof.CloseAlone` | apue.3e/lib/semaph.c:222-253 | undisturbed, the last close removes the set and an earlier one only gives back its open |
| `SemProof.OpAdds` | apue.3e/lib/semaph.c:283-291 | an operation waits exactly while the value would become negative, and then adds its amount |
| `SemProof.ReinitIff` | apue.3e/lib/semaph.c:138-153 | a creator initialises a set that is open exactly when BIGCOUNT opens are outstanding |
| `SemProof.ReinitHappens` | apue.3e/lib/semaph.c:138-153 | a run in which BIGCOUNT opens lead to that |
| `SemProof.CreateDiesIff` | apue.3e/lib/semaph.c:105-128 | in every reachable state a creator is ended exactly when it slept on a set that was removed, or its initial value is out of range, and goes back exactly when the set is gone before it slept |
| `SemProof.SleeperDies` | apue.3e/lib/semaph.c:105-128 | a run in which a sleeping creator is ended |
| `SemProof.AmountLost` | apue.3e/lib/semaph.c:283-291 | a run in which an amount that is not zero is taken for zero |
| `SemSet.Short` | apue.3e/lib/semaph.c:283-287 | the amount as it is stored in a short: congruent to it, and the same exactly when it is in range |
| `LineTerminal.PutText` | linenoise/linenoise.c:636-643 | text from the start of a row overwrites exactly its own cells, row after row, with the cursor left by deferred wrap |
| `LineRefresh.Display.RefreshMultiLine` | linenoise/linenoise.c:596-688 | the loops send exactly the commands of the redraw, stars for the buffer in mask mode, and remember the new cursor position and row count; what these commands show cell by cell is `LineRefreshProof.RefreshWorks` |
| `LineRefresh.Display.ShowHints` | linenoise/linenoise.c:509-531 | a hint is cut to what is left of the first row, and not shown beyond it |
| `LineRefreshProof.CleanWorks` | linenoise/linenoise.c:609-633 | from the remembered position and rows the whole old picture is cleared, nothing above it is touched, and the cursor ends at its start |
| `LineRefreshProof.WriteWorks` | linenoise/linenoise.c:635-681 | all the text is in its cells; the picture can be cleared again exactly when it fits the window; the cursor is in its row exactly when the way up to it is shorter than the window and the prompt does not fill whole rows |
| `LineRefreshProof.RefreshWorks` | linenoise/linenoise.c:596-688 | a full refresh shows cell by cell the prompt, the buffer or as many stars, as much of the hint as the first row has room for, and blanks, with no residue of a picture that fitted the window, leaves one that the next can clear exactly when it fits, and puts the cursor right under exactly that condition |
| `LineRefreshProof.EveryRefresh` | linenoise/linenoise.c:596-688 | over every sequence of refreshes of one line, each finds the picture of the one before exactly as long as all fit the window, and until then each shows exactly its line |
| `LineRefreshProof.TallStays` | linenoise/linenoise.c:609-633 | the rows of a taller line that have scrolled out stay as they are whatever is written afterwards |
| `LineRefreshProof.TallLine` | linenoise/linenoise.c:609-633 | four rows in a window of two, and what the next refresh leaves |
| `LineRefreshProof.PromptOfOneRow` | linenoise/linenoise.c:645-672 | a prompt as wide as the window leaves the cursor a row too high |
| `LineRefreshProof.HideWorks` | linenoise/linenoise.c:705-710 | hiding leaves the rows from the prompt on blank |
| `LineRefreshProof.ShowWorks` | linenoise/linenoise.c:713-719 | showing draws the picture from the row where other output left the cursor, with the same two conditions |
| `LineRefreshProof.StartIff` | linenoise/linenoise.c:881-905 | the state after the prompt is first written is good for refreshing exactly when the prompt takes at most one row |
| `LineRefreshProof.ShowsCell` | linenoise/linenoise.c:596-688 | the picture by row and column |
| `LineRefreshProof.ShownIs` | linenoise/linenoise.c:509-643 | the text shown, cell by cell: prompt, buffer or stars, the first characters of the hint that fit the first row, blanks |
| `LineSingle.Window` | linenoise/linenoise.c:549-556 | the trimming loops keep the cursor in view and fill the row |
| `LineSingle.RefreshSingleLine` | linenoise/linenoise.c:540-587 | the commands sent |
| `LineSingle.SingleWorks` | linenoise/linenoise.c:540-587 | the row shows the trimmed text and no other row changes, except that a full row loses its last character; the cursor column is right exactly unless it is 0 |
| `LineSingle.SingleCells` | linenoise/linenoise.c:540-587 | the row column by column: prompt, the buffer or stars from the first character that keeps the cursor on the row, the hint if the whole buffer leaves room, blanks; the last column always blank |
| `LineSingle.FullRow` | linenoise/linenoise.c:563-580 | three characters in three columns lose the last |
| `LineEditor.Editor.EditInsert` | linenoise/linenoise.c:724-749 | in-place insertion is insertion left of the cursor, or nothing when full |
| `LineEditor.Editor.EditMoveLeft` | linenoise/linenoise.c:752-757 | the character before the cursor passes to the right |
| `LineEditor.Editor.EditMoveRight` | linenoise/linenoise.c:760-765 | the character after the cursor passes to the left |
| `LineEditor.Editor.EditMoveHome` | linenoise/linenoise.c:768-773 | everything is right of the cursor |
| `LineEditor.Editor.EditMoveEnd` | linenoise/linenoise.c:776-781 | everything is left of the cursor |
| `LineEditor.Editor.EditHistoryNext` | linenoise/linenoise.c:787-807 | the line is saved in its entry and the neighbour loaded, cut to the buffer |
| `LineEditor.Editor.EditDelete` | linenoise/linenoise.c:811-818 | the character after the cursor goes |
| `LineEditor.Editor.EditBackspace` | linenoise/linenoise.c:821-829 | the character before the cursor goes |
| `LineEditor.Editor.EditDeletePrevWord` | linenoise/linenoise.c:833-845 | blanks and the word before the cursor go |
| `LineEditor.Editor.EditTranspose` | linenoise/linenoise.c:983-991 | the two characters around the cursor change places |
| `LineEditor.Editor.TakeCompletion` | linenoise/linenoise.c:420-424 | the buffer stays good, and holds the completion, exactly when the completion fits |
| `LineEditor.LongCompletion` | linenoise/linenoise.c:420-424 | six characters taken into a buffer of four |
| `LineEditor.Editor.CompleteLine` | linenoise/linenoise.c:391-439 | cycling, cancelling and accepting completions |
| `LineEditor.Editor.EscapeKey` | linenoise/linenoise.c:1004-1058 | escape sequences as keys, with the bytes they take |
| `LineEditor.Editor.PlainByte` | linenoise/linenoise.c:951-1085 | every other byte as the key it stands for, which `LineLaws` tells on text and cursor |
| `LineEditor.Editor.EditFeed` | linenoise/linenoise.c:928-1087 | one feed of bytes does to buffer, history and outcome what the interpreter does |
| `LineEditor.Editor.BlockingEdit` | linenoise/linenoise.c:1103-1118 | for every sequence of bytes the in-place editor equals the interpreter, keeps position and length in range and the terminator in place |
| `LineLaws.MoveLaw` | linenoise/linenoise.c:992-1077 | bytes 1, 5, 2 and 6 leave the text and put the cursor at the start, at the end, one left or one right |
| `LineLaws.KillLaw` | linenoise/linenoise.c:1062-1071 | byte 11 leaves exactly the text before the cursor, byte 21 nothing |
| `LineLaws.BackspaceLaw` | linenoise/linenoise.c:968-971 | bytes 8 and 127 take exactly the character before the cursor |
| `LineLaws.CtrlDLaw` | linenoise/linenoise.c:972-982 | byte 4 takes exactly the character at the cursor; on an empty line it ends the input and drops the newest entry of the history |
| `LineLaws.WordLaw` | linenoise/linenoise.c:833-845 | byte 23 takes the word before the cursor with the blanks after it |
| `LineLaws.WordUnique` | linenoise/linenoise.c:833-845 | of which there is only one |
| `LineLaws.SwapLaw` | linenoise/linenoise.c:983-991 | byte 20 exchanges the neighbours of the cursor and steps on unless at the last character |
| `LineLaws.InsertLaw` | linenoise/linenoise.c:1059-1061 | any byte that is no control byte is inserted at the cursor while there is room |
| `LineLaws.EndLaw` | linenoise/linenoise.c:952-967 | Enter returns the text and drops the newest entry of the history, byte 3 interrupts, byte 12 changes nothing |
| `LineLaws.HistoryLaw` | linenoise/linenoise.c:787-807 | bytes 16 and 14 keep the text in the entry it came from and load the older or newer neighbour, cut to the buffer, with the cursor at its end; past either end they load nothing |
| `LineLaws.EscapeLaw` | linenoise/linenoise.c:1004-1058 | arrows, Home and End do what their control bytes do; an unknown or cut sequence only takes its bytes |
| `LineLaws.DeleteKeyLaw` | linenoise/linenoise.c:1011-1022 | ESC [ 3 ~ takes the character at the cursor, another digit or ending nothing |
| `LineLaws.TabsOffer` | linenoise/linenoise.c:391-439 | after n tabs with k completions, offer (n - 1) mod (k + 1) is on show, the last standing for the text itself |
| `LineLaws.KeyAfterTabs` | linenoise/linenoise.c:410-428 | the key after the tabs first puts that offer in place of the text, or with ESC leaves the text |
| `LineLaws.TabAlone` | linenoise/linenoise.c:391-401 | a tab with nothing to complete is a character |
| `LineLaws.TypedLine` | linenoise/linenoise.c:1103-1118 | characters and Enter return the text with the characters where the cursor was, as many as fit |
| `LineEditor.Editor.constructor` | linenoise/linenoise.c:871-906 | an edit starts empty, with an empty line on top of the history |
| `LineEdit.UndoLaws` | linenoise/linenoise.c:724-829 | left and right, insert and backspace undo each other |
| `LineEdit.DeleteWordIs` | linenoise/linenoise.c:833-845 | what word delete removes is one whole word and the blanks after it |
| `LineEdit.TransposeIs` | linenoise/linenoise.c:983-991 | transposing exchanges two neighbours of the text |
| `LineEdit.BackAndForth` | linenoise/linenoise.c:787-807 | back and forth in the history restores a line that is shorter than the buffer |
| `LineEdit.FeedKeepsGood` | linenoise/linenoise.c:928-1087 | text within capacity and history index in range, for every byte |
| `LineEdit.HighByteIff` | linenoise/linenoise.c:928-949 | a byte ends the edit as an error exactly when a completion is on offer and it is above 127 |
| `LineEdit.HighByte` | linenoise/linenoise.c:928-949 | a tab and then such a byte |
| `LineEdit.EditKeepsHistory` | linenoise/linenoise.c:1250-1277 | what starting and finishing an edit does to the history, with the entry it loses |
| `LineEdit.HistoryLaws` | linenoise/linenoise.c:1250-1309 | adding appends and drops only the oldest of a full history, never repeats the last line; shortening keeps exactly the newest |
| `DecimalPrinter.TopBits` | haproxy/src/calltrace.c:118-141 | the top bits are the true quotient and the error carries over unchanged |
| `DecimalPrinter.FirstHolds` | haproxy/src/calltrace.c:118-118 | no overflow of the first product, and the error of every 32-bit number stays below one unit |
| `DecimalPrinter.Round` | haproxy/src/calltrace.c:119-152 | each round yields the next pair of digits, below 100 |
| `DecimalPrinter.TimesHundred` | haproxy/src/calltrace.c:141-152 | shifts and adds multiply by 100 without overflow |
| `DecimalPrinter.BcdDigits` | haproxy/src/calltrace.c:106-131 | every table entry is its two digits |
| `DecimalPrinter.EmitPair` | haproxy/src/calltrace.c:120-139 | both digits, one, or none, as the padding and the digits before ask |
| `DecimalPrinter.Ultoad2` | haproxy/src/calltrace.c:99-157 | for every 32-bit number and every min_pairs the text is the numeral padded with zeros to 2 * min_pairs digits, 10 at most |
| `DecimalPrinter.TextDigits` | haproxy/src/calltrace.c:99-157 | that text digit by digit: digit k from the right is the number divided by 10^k, modulo 10, as many digits as asked for or as the number needs |
| `DecimalPrinter.PaddedValue` | haproxy/src/calltrace.c:99-157 | reading the text back gives the number |
| `TimeWheel.Wheel.AddTimer` | socket/11.4.tw_timer.h:52-75 | a timer is due on tick max(1, t/TI) + 1 from now, and no other is disturbed; a negative timeout is refused |
| `TimeWheel.Wheel.DelTimer` | socket/11.4.tw_timer.h:77-95 | exactly that timer goes and no other is disturbed |
| `TimeWheel.Wheel.Tick` | socket/11.4.tw_timer.h:97-127 | fires exactly the timers due now, once each, and brings all others one tick nearer |
| `TimeWheel.UnlinkWheeled` | socket/11.4.tw_timer.h:77-95 | unlinking keeps every slot's list linked both ways, through any rotation and slot |
| `TimeWheelRuns.Drive` | socket/11.4.tw_timer.h:52-127 | any run of adds, deletes and ticks fires at each operation what the schedule says |
| `TimeWheelRuns.FiresOnTime` | socket/11.4.tw_timer.h:52-127 | a timer not deleted fires on the (k+1)-th later tick, k = max(1, t/TI), and on no earlier one |
| `TimeWheelRuns.FiresOnce` | socket/11.4.tw_timer.h:97-127 | and never again |
| `TimeHeap.TimeHeap.PercolateDown` | socket/11.5.time_heap.h:130-146 | sifting down restores heap order and keeps the timers |
| `TimeHeap.TimeHeap.Heapify` | socket/11.5.time_heap.h:52-59 | a heap of the same timers |
| `TimeHeap.Build` | socket/11.5.time_heap.h:40-60 | a heap of the given timers, or the exception exactly when they exceed the capacity |
| `TimeHeap.TimeHeap.AddTimer` | socket/11.5.time_heap.h:69-86 | one more timer, in heap order, doubling the array when it is full; a null pointer changes nothing |
| `TimeHeap.TimeHeap.Resize` | socket/11.5.time_heap.h:147-161 | twice the room, the same timers in place |
| `TimeHeap.TimeHeap.DelTimer` | socket/11.5.time_heap.h:87-93 | cancelled, still in the heap |
| `TimeHeap.TimeHeap.PopTimer` | socket/11.5.time_heap.h:100-109 | exactly the root goes, and its address is no longer cancelled |
| `TimeHeap.TimeHeap.Tick` | socket/11.5.time_heap.h:110-126 | takes out exactly the timers with expire <= now in order of expiry, calls back exactly those not cancelled, leaves exactly the others |
| `TimeHeapRuns.Drive` | socket/11.5.time_heap.h:69-126 | in any run of adds, lazy deletions and ticks each tick calls back exactly the timers that are due and not cancelled, once each and in order of expiry |
| `TimeHeapRuns.Run` | socket/11.5.time_heap.h:29-126 | the same from an empty heap of any capacity |
| `TimerRuns.FiresWhenDue` | socket/11.5.time_heap.h:110-126 | a timer not touched again fires on the first tick that reaches its expiry and on none before |
| `TimerRuns.FiresAsAsked` | socket/11.5.time_heap.h:110-126 | and that expiry is the one of the call that set it last |
| `TimerRuns.FiresOnce` | socket/11.5.time_heap.h:110-126 | and never again |
| `TimerRuns.CancelledSilent` | socket/11.5.time_heap.h:87-93 | a cancelled timer never fires |
| `SortedTimers.TimerList.AddTimer` | socket/11.2.lst_timer.h:40-55 | the timer enters at its place in the order |
| `SortedTimers.TimerList.InsertAfter` | socket/11.2.lst_timer.h:123-143 | the loop finds the place after all that expire no later and links there, at the tail if it is the last |
| `SortedTimers.TimerList.Adjust` | socket/11.2.lst_timer.h:56-74 | same timers, well linked, and in order exactly when the timer before is no later than the new expiry |
| `SortedTimers.TimerList.DelTimer` | socket/11.2.lst_timer.h:75-100 | exactly that timer goes, from head, tail or between |
| `SortedTimers.TimerList.Tick` | socket/11.2.lst_timer.h:101-120 | fires and deletes exactly the expired prefix |
| `SortedTimers.DueArePast` | socket/11.2.lst_timer.h:108-119 | the prefix fired is all that has expired and nothing else |
| `SortedTimersRuns.Drive` | socket/11.2.lst_timer.h:40-143 | in any run of adds, deletions, extensions and ticks the list stays well linked and in order and each tick calls back exactly the timers due, once each and in order of expiry |
| `SortedTimersRuns.Run` | socket/11.2.lst_timer.h:40-143 | the same from an empty list |
| `SortedTimersRuns.EarlierTime` | socket/11.2.lst_timer.h:56-74 | a timer moved to an earlier time leaves the list out of order |
| `BackendConn.BackStream.Redispatch` | haproxy/src/backend.c:1924-2001 | at most two assignments per call, the second exactly for a full server in direct mode that may be redispatched |
| `BackendConn.BackStream.HandleReq` | haproxy/src/backend.c:2208-2279 | output states, target and assignment, with no attempt made |
| `BackendConn.BackStream.HandleCer` | haproxy/src/backend.c:2336-2471 | closes exactly when retries are spent, disabled or impossible, else spends one and goes to a turn-around, a new request or the same server exactly as the error, the redispatch rule and the servers left say; a redispatch clears the flags that name the server, nothing else does; the session is no longer counted |
| `BackendConn.BackStream.ChooseRedispatch` | haproxy/include/haproxy/stream.h:333-369 | a new request that forgets the server exactly when it may be left and it is down, the retry count says so, or requests go round several servers; else another attempt on it |
| `BackendConn.DueOnLast` | haproxy/include/haproxy/stream.h:335-352 | an interval of -1 means exactly the last retry, 1 every retry, 0 none |
| `BackendConn.BackStream.Attempt` | haproxy/src/backend.c:2025-2101 | the assigned state: what an abort, a connection begun, an internal error and a retryable refusal lead to |
| `BackendConn.BackStream.Dequeue` | haproxy/src/backend.c:2102-2156 | the queued state: out of it with the target and flags of the entry, or timed out, aborted or waiting |
| `BackendConn.BackStream.TryConnReq` | haproxy/src/backend.c:2017-2200 | an attempt is made exactly in the assigned state without an abort; a refused one that may be retried closes exactly when retries are spent, disabled or impossible, else spends one and goes on at once, to a new request exactly when redispatched, never to a turn-around, and is not counted; leaving the queue leads to the assigned state or to a new request as the entry's flags and the server that picked it say, with its target |
| `BackendConn.BackStream.Enter` | haproxy/src/backend.c:1858-1866 | the session is counted on its server exactly when the flag is set |
| `BackendConn.BackStream.HandleCon` | haproxy/src/backend.c:2288-2325 | abort, error or no change |
| `BackendConn.BackStream.HandleRdy` | haproxy/src/backend.c:2480-2551 | abort and error only before data was sent, else established |
| `BackendConn.Drive` | haproxy/src/backend.c:1924-2551 | in every run, queueing, shutdowns, releases and retries of bad responses included, at most conn_retries + 1 attempts, and a share of 1 in the server's cur_sess exactly when the flag is set |
| `BackendConn.WholeLife` | haproxy/src/stream.c:605-625 | wherever the stream ends, no server's cur_sess is left changed |
| `BackendConn.Dispatch` | haproxy/src/stream.c:2272-2335 | for every state and every event the state that follows, and which events make an attempt |
| `BackendConn.BackStream.Request` | haproxy/src/stream.c:2272-2297 | a new request with the server a cookie names, or none |
| `BackendConn.BackStream.Shut` | haproxy/src/stconn.c:771-816 | the states that a shutdown releases |
| `BackendConn.BackStream.RetryRequest` | haproxy/src/http_ana.c:1126-1178 | a retry is spent and the session uncounted exactly while retries are left, to a new request that forgets the server exactly when redispatched; it fails, with the retry spent, when the endpoint cannot be reset |
| `BackendConn.BackStream.Released` | haproxy/src/stream.c:1908-1919 | closed and no longer counted |
| `ArgList.ScanArg` | haproxy/src/arg.c:158-220 | the loop reads one argument with its quotes and escapes |
| `ArgList.MakeArgList` | haproxy/src/arg.c:110-408 | the arguments, their count and where the list ends, or failure |
| `ArgList.ArgsRoundTrip` | haproxy/src/arg.c:110-408 | quoted strings are read back exactly, up to just after the closing parenthesis |
| `ArgList.AnySpelling` | haproxy/src/arg.c:183-218 | between double quotes every way to write the characters, plain, or with a backslash as r, n, t, a backslash, a blank or a quote, reads back the same |
| `ArgList.SingleQuoted` | haproxy/src/arg.c:175-182 | between single quotes everything but a single quote stands for itself |
| `ArgList.UnknownEscape` | haproxy/src/arg.c:183-218 | a backslash before any other character stands for itself |
| `ArgList.Unquoted` | haproxy/src/arg.c:158-220 | outside quotes everything but quotes, backslashes, commas and closing parentheses stands for itself |
| `ArgList.ArgsReadIff` | haproxy/src/arg.c:110-408 | quoted arguments are taken exactly when their number is in bounds |
| `ArgList.OneArgIff` | haproxy/src/arg.c:158-223 | a quoted argument is read back exactly when it leaves room for a quote and a terminator |
| `ArgList.FullArgRefused` | haproxy/src/arg.c:158-223 | a quoted argument that exactly fills its room is refused |
| `ArgList.FullRoom` | haproxy/src/arg.c:158-223 | three characters with room for four and for five |
| `CfgCond.EvalTerm` | haproxy/src/cfgcond.c:212-311 | the value of a term, negated unless it is an error |
| `CfgCond.EvalAnd` | haproxy/src/cfgcond.c:491-501 | the loop is the left-to-right conjunction with errors |
| `CfgCond.EvalExpr` | haproxy/src/cfgcond.c:508-516 | the loop is the left-to-right disjunction with errors |
| `CfgCond.EvalCondition` | haproxy/src/cfgcond.c:523-559 | the verdict on a text: false when empty, an error when it does not parse to its end |
| `CfgCondProof.TermBudget` | haproxy/src/cfgcond.c:81-178 | a larger budget never changes a parsed term, and the budget covers its depth |
| `CfgCondProof.AndBudget` | haproxy/src/cfgcond.c:351-411 | the same for conjunctions |
| `CfgCondProof.ExprBudget` | haproxy/src/cfgcond.c:424-484 | the same for expressions |
| `CfgCondProof.LookupFinds` | haproxy/src/cfgcond.c:39-52 | every keyword is found by its own word |
| `CfgCondProof.KeywordTable` | haproxy/src/cfgcond.c:21-34 | the words of the predicates |
| `CfgCondProof.PredReadIff` | haproxy/src/cfgcond.c:150-167 | a predicate is read exactly with two arguments for the three comparisons and one for the others |
| `CfgCondProof.NegationParity` | haproxy/src/cfgcond.c:111-115 | an odd number of exclamation marks negates |
| `CfgCondProof.NumeralRead` | haproxy/src/cfgcond.c:117-122 | a decimal numeral is true exactly when it is not zero |
| `CfgCondProof.HexRead` | haproxy/src/cfgcond.c:117-122 | after white space and a sign, 0x and hexadecimal digits are a number to their end, true exactly when a digit is not 0 |
| `CfgCondProof.IntegerRead` | haproxy/src/cfgcond.c:117-122 | the same for octal digits after a 0, and for decimal ones |
| `CfgCondProof.TermRoundTrip` | haproxy/src/cfgcond.c:81-178 | a printed term is read back |
| `CfgCondProof.AndRoundTrip` | haproxy/src/cfgcond.c:351-411 | a printed conjunction is read back |
| `CfgCondProof.ExprRoundTrip` | haproxy/src/cfgcond.c:424-484 | a printed expression is read back, up to what follows it |
| `CfgCondProof.PrintedParsesIff` | haproxy/src/cfgcond.c:351-484 | a printed condition parses to itself, all of it, exactly when the budget covers its depth |
| `CfgCondProof.PrintedVerdict` | haproxy/src/cfgcond.c:523-559 | the verdict on a printed condition is its meaning, or an error when it is too deep |
| `CfgCondProof.TotalExpr` | haproxy/src/cfgcond.c:491-516 | without failing predicates a condition is a disjunction of conjunctions |
| `CfgCondProof.ExprHolds` | haproxy/src/cfgcond.c:212-516 | where every predicate has an answer, a condition is the boolean formula it looks like |
| `CfgCondProof.TermSays` | haproxy/src/cfgcond.c:245-311 | the comparisons of strings, and that negation exchanges yes and no and leaves an error an error |
| `CfgCondProof.AndStops` | haproxy/src/cfgcond.c:491-501 | a conjunction has the verdict of its first term that is not true, an error among them |
| `CfgCondProof.ExprStops` | haproxy/src/cfgcond.c:508-516 | a disjunction has the verdict of its first part that is not false |
| `AclParse.ParseAclCond` | haproxy/src/acl.c:826-969 | the loop builds the suites of the words, or fails on an unknown name or a missing brace |
| `AclParse.ParsedMeaning` | haproxy/src/acl.c:853-958 | the suites built mean the disjunction of conjunctions of the words |
| `AclParse.NoEmptySuite` | haproxy/src/acl.c:947-956 | no suite is empty |
| `AclParse.ParseThenExec` | haproxy/src/acl.c:826-1125 | executing what was parsed passes exactly when the words do, fails only when they do, and on complete data gives their meaning |
| `AclMeaning.ReadsBack` | haproxy/src/acl.c:826-969 | a written condition is read as a suite per group and a term per literal, negated exactly when the marks before and on it are odd in number, and refused exactly when a literal is not known |
| `AclMeaning.WordsMean` | haproxy/src/acl.c:826-1125 | and on complete data it passes exactly when all literals of some group hold |
| `AclMeaning.OrWords` | haproxy/src/acl.c:868-875 | the words that separate groups |
| `AclMeaning.OpenBrace` | haproxy/src/acl.c:877-889 | a brace that is never closed is refused |
| `AclCond.RunExpr` | haproxy/src/acl.c:1069-1103 | fetching values until one matches or none is left |
| `AclCond.RunAcl` | haproxy/src/acl.c:1063-1103 | stopping at the first match gives the full disjunction |
| `AclCond.RunSuite` | haproxy/src/acl.c:1055-1117 | stopping at the first term that does not pass |
| `AclCond.RunCond` | haproxy/src/acl.c:1027-1125 | stopping at the first suite that passes gives the disjunction of suites |
| `AclCond.ExecAgrees` | haproxy/src/acl.c:1027-1125 | short-circuit execution passes exactly when full three-valued evaluation does, fails only when it does, and never misses on final data |
| `AclMeaning.ExprMeans` | haproxy/src/acl.c:1069-1103 | an expression passes exactly when a fetch that is made matches, and misses exactly when none does and the last may change |
| `AclMeaning.AclMeans` | haproxy/src/acl.c:1063-1103 | an ACL passes when an expression does and fails when all do |
| `AclMeaning.TermMeans` | haproxy/src/acl.c:1104-1110 | negation exchanges pass and fail and leaves a miss |
| `AclMeaning.SuiteMeans` | haproxy/src/acl.c:1055-1117 | a suite has the value of its first term that does not pass |
| `AclMeaning.CondMeans` | haproxy/src/acl.c:1027-1125 | a condition passes when a suite does and fails when all do |
| `AclCond.AnswerSurvives` | haproxy/src/acl.c:1014-1018 | a definite answer is not taken back, however the missing verdicts turn out |
| `HttpParse.Parser.ParseLine` | socket/08.3.http_parsr.cpp:33-56 | the first line end from the checked position on, with CR LF overwritten |
| `HttpParse.Parser.ParseContent` | socket/08.3.http_parsr.cpp:112-148 | verdict and place after the bytes so far, start <= checked <= read throughout |
| `HttpParse.Parser.Feed` | socket/08.3.http_parsr.cpp:187-199 | a chunk is appended and parsed from where the parser was |
| `HttpParse.ParseStable` | socket/08.3.http_parsr.cpp:112-148 | later bytes do not change what was decided, and parsing goes on from its place |
| `HttpParse.RequestLineIff` | socket/08.3.http_parsr.cpp:58-96 | three words are a request line exactly when they are GET, a URL with a path and HTTP/1.1, in any case of letters |
| `HttpParse.ChunkingIrrelevant` | socket/08.3.http_parsr.cpp:33-148 | every division into chunks gives the verdict and the place of the whole |
| `HttpParse.Serve` | socket/08.3.http_parsr.cpp:180-210 | the parser fed chunk by chunk until a verdict ends with the verdict and the place of all the bytes at once |
| `HttpMeaning.GetIff` | socket/08.3.http_parsr.cpp:33-148 | bytes are taken for a request exactly when they are lines ended by CR LF of which the first is a request line, those after it are headers and then one is empty |
| `HttpMeaning.BadIff` | socket/08.3.http_parsr.cpp:33-148 | and refused exactly when the first line is broken or no request line, or a header is broken by a lone CR or LF |
| `HttpMeaning.WordsAreLine` | socket/08.3.http_parsr.cpp:58-96 | GET, a path and HTTP/1.1 with any blanks between are a request line |
| `HttpMeaning.LineHasWords` | socket/08.3.http_parsr.cpp:58-96 | and every request line is these |
| `HttpMeaning.IsPathIff` | socket/08.3.http_parsr.cpp:83-90 | which URLs are or contain a path |
| `Base64.A2Base64` | haproxy/src/base64.c:36-114 | the encoding and its terminator, or failure exactly when the padded text does not fit; nothing at or past olen is written |
| `Base64.LetterIs` | haproxy/src/base64.c:26-29 | the letters are those of the alphabet in its order |
| `Base64.ValueIs` | haproxy/src/base64.c:26-29 | a character has the value of its place in the alphabet |
| `Base64.LettersMean` | haproxy/src/base64.c:46-53 | four letters hold the twenty-four bits of three bytes, most significant first |
| `Base64.EncodeGroup` | haproxy/src/base64.c:36-114 | every full group of an encoding is those letters |
| `Base64.EncodeTail` | haproxy/src/base64.c:36-114 | and the bytes left over are two or three letters, with padding in the first alphabet only |
| `Base64.RoundTrip` | haproxy/src/base64.c:36-187 | decoding undoes encoding for every byte string |
| `Base64.UrlRoundTrip` | haproxy/src/base64.c:75-257 | the same in the URL alphabet, without padding |
| `Base64.Base64Dec` | haproxy/src/base64.c:122-187 | the decoded bytes, at most olen of them, or the error that is due; nothing at or past olen is written |
| `Base64.Base64UrlDec` | haproxy/src/base64.c:191-257 | the same without padding: a length that no encoding has is refused, the last group is filled up, and at most olen bytes are written |
| `Base64.DecodesIff` | haproxy/src/base64.c:122-187 | which texts are decoded: whole groups of the alphabet, padded from the second character on at most |
| `Base64.PromisedIff` | haproxy/src/base64.c:153-155 | besides the groups that it says it takes, exactly a letter with three paddings is taken |
| `Base64.ThreePads` | haproxy/src/base64.c:153-155 | such a group |
| `Base64.UrlDecodesIff` | haproxy/src/base64.c:191-257 | the same without padding: every text of the alphabet whose length is accepted |
| `Base64.BytesMean` | haproxy/src/base64.c:162-175 | three bytes hold the bits of four values, most significant first |
| `Base64.S30ToB64` | haproxy/src/base64.c:266-275 | the five digits of the lower 30 bits, most significant first |
| `Base64.B64ToS30` | haproxy/src/base64.c:282-303 | the number of five characters, or -1 for a character outside the alphabet |
| `Base64.S30RoundTrip` | haproxy/src/base64.c:266-303 | reading back gives the number modulo 2^30 |
| `Base64.S30Means` | haproxy/src/base64.c:266-275 | the five characters are the digits to the base 64, most significant first |

## Left out

- Store: the statistics counters, failures of system calls, and C strings are not modelled; keys and data are sequences without NUL, and a key is assumed not to hold the separator, as the format demands.
- Store: the two `sprintf` calls whose source and destination overlap are taken to write what they were given.
- Concurrent store: a step is one lock section rather than one read or write. `DbConfined.ReadsConfined` and `DbConfined.WritesConfined` say that all its reads and single writes stay under its locks and in what it owns; that steps of different processes may therefore be split and interleaved is not itself stated. The index is records rather than bytes there, and failures to write are left out.
- Concurrent store: scanning beside a running store, which has no clean property because a reused record is written after its list is unlocked.
- Object table: failing `malloc` and `pthread_mutex_init`, which change nothing; and handing a reference to another thread is taken as one step.
- Semaphores: `sem_open`, which decrements without the lock, and `sem_rm` called by users; one key only.
- Line editor: the calls of the redraw from the editing operations, raw mode, history files, the non-terminal path, and multi-byte characters. Escape sequences to the terminal are commands rather than bytes. `LineEdit.HistoryAdd` and `LineEdit.SetMaxLen` are on values rather than on the array they shift.
- `TimeWheel`, `TimeHeap`, `SortedTimers`: callbacks do not call back into the container.
- Backend: which server is chosen, connection reuse, TLS, logging and most counters; a redispatch interval of minus the retries less one divides by zero, which is taken as no reason to redispatch; what load balancing, the queue, the connection layer and the client answer is given to each step.
- Arguments: types other than strings, and a bounded input length.
- Conditions: what the predicates other than the comparisons of strings look up, which is a parameter; allocation failures and error messages.
- ACLs: the `val` and `use` masks, and the parser of a single ACL, which is a parameter.
- Request parser: the two terminators that the request-line check writes inside a line that is already consumed.
- Base64: `base64dec` on empty input, which looks before its start; the tables are written as the ranges they hold.
- The rest of haproxy, which would only add easier members or depends on code that is not part of this model.
- The system-call demonstrations under `ipc`, most of `socket` and most of `apue.3e`, which are thin wrappers around the kernel.
