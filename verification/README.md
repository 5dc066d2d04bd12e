# Verified models of the algorithms and protocols in apue.3e

This project models, in Dafny, the parts of the third-edition programs of *Advanced Programming in
the UNIX Environment* that hold an algorithm or a protocol, and proves what each of them is for. Every
file is a module; `dafny verify dfyconfig.toml` checks all of them.

## What is modelled

**The hash database, `apue.3e/db/db.c`.** Two flat files; 137 hash chains and a free list are threaded
through ASCII pointer fields inside the index records.

- `DbCodec`, `DbImage`: the text fields, column by column, and the two files as bytes. An image (pointer cells, records,
  extents by offset) says what the bytes mean; every write of the library is one update of the image.
- `DbCatalog`, `DbMoves`, `DbListing`: who owns which record, in ten moves, one for each kind of write;
  the finite map the files represent; the sequential listing.
- `DbHandle`: the class `Db` with the handle's fields and the two byte strings, one method for each
  function of the library, each proved against the finite map.
- `DbProcess` ... `DbProgress`: any number of processes. One step reads or writes one pointer, record or
  extent, or takes or drops one lock. `DbProtocol` says what a process may rely on at each place in the
  code, `DbFrame` why the steps of the others keep it, `DbWrites`, `DbRelinks`, `DbAppends` and `DbReads`
  go through the steps, `DbLinear` proves linearizability, `DbProgress` freedom from deadlock, and `DbScans`
  what a sequential scan sees while others write and when nobody does. `DbAnswers` says what callers see: each
  answer, and what one call leaves for the next.
- `DbFiles`: the same processes on the bytes of the files, in step with the images.

**The reference-counted table, `mutex2.c` and `mutex3.c`.** `FooTable` and `FooChains` hold the memory and
the atomic table; `FooTwoLocks` and `FooTwoLocksSpec` are the version with two lock levels, for any number
of threads and any interleaving; `FooOneLock` is the version with one lock, as a class.

**The asynchronous pipeline, `rot13c2.c`**: `Rot13`. **The print spooler, `printd.c`**: `Spooler` (threads and
condition variable), `JobQueue` (the linked list, also that of `rwlock.c`), `Workers` (the worker list).
**The message queue, `condvar.c`**: `WorkQueue`. **The tree walk, `ftw8.c`**: `Ftw`, `FtwOrder`. **The memory stream,
`fmemopen.c`**: `MemStream` (bytes are those of `Bytes`). **The sort and merge, `barrier.c`**: `SortMerge`, `Barrier`. **The open server**:
`ClientTable`, `ServerLog`, `PollLoop`, `SelectLoop`. **The handshake, `devzero.c` and `tellwait.c`**: `TellWait`.

## Assumptions

- Database keys contain no `:` and no NUL; data contains no NUL. All-blank keys are allowed: they are
  stored and fetched like any other, and `db_nextrec` skips them.
- `err_dump` and `err_quit` end the process (`Halted`, a failed result). A store that quits halfway keeps
  its unfinished record to itself and may cost its key the old data. `DbLinear.Dies` says when a store may end
  that way: its data length is out of range (and nothing is lost), or the files have no room for its record, and
  then the key loses old data of another length.
- The `sprintf` of `_db_writeidx` whose source overlaps its target is read as copying the key first. It writes the
  record text before its length is checked (`apue.3e/db/db.c:577-581`), and the buffer holds `IDXLEN_MAX + 2` bytes
  (`:194`): for keys so long that the text is over `IDXLEN_MAX + 1` characters the C program has no defined behaviour,
  where the model quits.
- A process holds what its place in the code says it holds; a lock is granted when no other process holds
  an incompatible one. A process that ends drops its locks.
- Callers of `foo_hold` and `foo_rele` own a reference; references may be handed from thread to thread.
- `heapsort`, `malloc`, `realloc`, `lstat` and `readdir` do what they are specified to do; the kernel finishes
  asynchronous requests in any order, at least one before `aio_suspend` returns.

## What turned out different from what one might expect

- `add_worker` does not make the new worker the head of a list that has one already
  (`apue.3e/printer/printd.c:540-547`). The list is right after it if and only if it was empty before
  (`Workers.WorkerList.AddWorker`); with two workers, the first one's cleanup leaves `workers` pointing to it
  (`Workers.TwoWorkers`).
- `mstream_write` on a stream without `+` zeroes a byte of the contents after a seek back and at the end of the
  buffer. `MemStream.Harmless` is a test on stream, data and buffer size before the call; the write is that of
  a bounded file if and only if it holds (`MemStream.TerminatorHarmless`). Writing one byte over the first of
  two loses the second (`MemStream.TerminatorHarms`).
- `merge` finds a slice that is not exhausted in every step if and only if no number is `LONG_MAX`
  (`SortMerge.Merge`); a single `LONG_MAX` is enough to fail (`SortMerge.MergeLongMax`).
- `db_nextrec` may return a record a concurrent store has completed and not yet linked; never a key with blanked
  data (`DbProgress.NextRecAnswer`). The record it has come to is on its chain if and only if no process has it
  in hand (`DbScans.NextRecLinked`). `DbScans.ScanOvertakes` builds a run in which a scan returns what an
  insertion has not yet put in the database.
- A scan of a database lists its contents if and only if no process that quit has left a record with a name
  behind (`DbListing.ScanIsMap`, `DbScans.RestListing`): such a record is on no chain, and the scan lists it all
  the same. One call leaves one behind exactly when it quits on the pointer of a record it has already written
  (`DbHandle.Db.Store`).
- The poll loop passes on `client[i].uid` for entry `i` of its packed array (`apue.3e/ipc2/opend/loop.poll.c:79`,
  `:92`), but `client_del` does not pack the table. The two stay in the same order when the last client of the
  array hangs up, and are not right after another one does (`PollLoop.Server.Hangup`): with two clients, once the
  first has hung up, the second is served under the uid of the first (`PollLoop.WrongUid`). Within a pass that
  starts in order, a client is served under its own uid unless its entry was packed into the place of one closed
  just before (`PollLoop.Server.Scan`). The select loop walks the table itself and is right
  (`SelectLoop.Server.Scan`).
- For a directory that cannot be read, `dopath` calls `func` a second time with a slash after the path
  (`Ftw.Walker.DoPath`).

## Model

| member | source | states |
|---|---|---|
| DbCodec.AtolPadded | apue.3e/db/db.c:323-334 | A number printed right-adjusted in a field of any width is read back by atol as itself |
| DbCodec.PtrFieldWidth | apue.3e/db/db.c:618-631 | A pointer fills its seven columns exactly if and only if it is within PTR_MAX |
| DbCodec.LenFieldWidth | apue.3e/db/db.c:581-584 | Every permitted record length fills its four columns exactly |
| DbCodec.ParseOfBodyExactly | apue.3e/db/db.c:377-417 | The text key, offset, length is parsed back to the same three if and only if the key has neither separator nor NUL and the length is in range |
| DbCodec.DecimalIs | apue.3e/db/db.c:577-585 | The text of a number is its decimal digits, most significant first, without leading zeros |
| DbCodec.PaddedIs | apue.3e/db/db.c:582-583 | A field has those digits at its right end and blanks before them |
| DbCodec.AtolIs | apue.3e/db/db.c:323-334 | atol skips white space, takes one sign, and reads the digits up to the first other character |
| DbCodec.BodyLayout | apue.3e/db/db.c:577-581 | A record's body is key, colon, offset, colon, data length, newline, and permitted from 6 to 1024 characters |
| DbCodec.RecLayout | apue.3e/db/db.c:577-608 | Four columns with the length of the body come before it |
| DbCodec.ParseIs | apue.3e/db/db.c:394-417 | Any body is accepted if and only if it ends in a newline and has exactly two colons, with an offset that is not negative and a length of 1 to 1024 after them, and it is taken apart there |
| DbImage.Layout | apue.3e/db/db.c:13-26 | Where free-list pointer, chain heads, first record and record bodies are in the file |
| DbImage.RecAtIs | apue.3e/db/db.c:343-418 | What reading a record makes of any bytes at any place: end of file, a record with all its parts, or an error |
| DbImage.DataAtIs | apue.3e/db/db.c:424-435 | What reading data makes of any bytes: an error unless all are there and the last is a newline |
| DbCatalog.HashIs | apue.3e/db/db.c:306-316 | The chain of a key is the sum of its signed bytes times 1, 2, 3 and so on, reduced to 64 bits and then mod 137 |
| DbCatalog.HashOfOne | apue.3e/db/db.c:306-316 | The chain of a key of one character, ASCII or negative as a char |
| DbCatalog.HashSamples | apue.3e/db/db.c:306-316 | The chains of four keys; two are anagrams |
| DbCatalog.HashSumWraps | apue.3e/db/db.c:306-316 | The hash in unsigned long arithmetic is the plain sum of the signed chars, each times its place, reduced once at the end |
| DbImage.FilesPtr | apue.3e/db/db.c:323-334 | Reading any pointer cell of well-formed files gives the value last written, within PTR_MAX |
| DbImage.FilesRec | apue.3e/db/db.c:343-418 | Reading any index record gives back its pointer, length, key, offset and data length |
| DbImage.FilesDat | apue.3e/db/db.c:424-435 | Reading any extent with its recorded length gives back its data |
| DbImage.SetPtrFiles | apue.3e/db/db.c:618-631 | Writing a pointer field changes that cell alone; all other cells, records and extents read as before |
| DbImage.SetRecFiles | apue.3e/db/db.c:567-612 | Rewriting a record with a body of the same length changes that record alone, and the file still tiles into whole records |
| DbImage.AddRecFiles | apue.3e/db/db.c:590-611 | Appending a record at the end of the index file adds that record and nothing else |
| DbImage.SetDatFiles | apue.3e/db/db.c:531-560 | Overwriting an extent with data of its length changes that extent alone |
| DbImage.AddDatFiles | apue.3e/db/db.c:538-559 | Appending data adds one extent that overlaps no other |
| DbCatalog.LiveKeys | apue.3e/db/db.c:259-301 | The keys with a live record are exactly the keys of the map the files represent, with the data of those records |
| DbCatalog.ChainHas | apue.3e/db/db.c:279-297 | A live key is on the chain it hashes to |
| DbCatalog.UnhookOk | apue.3e/db/db.c:463-489 | When a deletion blanks the data, the record leaves its chain but for one owed pointer write, and all lists stay in order |
| DbCatalog.UnhookMap | apue.3e/db/db.c:463-489 | That write removes the record's key from the map and no other |
| DbCatalog.SetHeldOk | apue.3e/db/db.c:504-509 | Rewriting a record in a process's hands disturbs no list and not the map |
| DbCatalog.PushFreeOk | apue.3e/db/db.c:491-514 | The free-list pointer write puts the blanked record at the head of the free list |
| DbCatalog.MendOk | apue.3e/db/db.c:516-522 | The last write of a deletion makes the pointers on file agree with the chain again |
| DbCatalog.TakeFreeOk | apue.3e/db/db.c:775-791 | Pointing past a free record takes exactly that record off the free list |
| DbCatalog.FillHeldOk | apue.3e/db/db.c:685-690 | Refilling the extent of a record in hand touches no other record's data |
| DbCatalog.NewExtentOk | apue.3e/db/db.c:531-560 | Appended data belongs to no record and changes no list |
| DbCatalog.NewRecordOk | apue.3e/db/db.c:567-612 | An appended record is on no list and takes over its extent |
| DbCatalog.LinkFrontOk | apue.3e/db/db.c:676-681 | The chain-head write puts a completed record at the front of the chain its key hashes to |
| DbCatalog.LinkFrontMap | apue.3e/db/db.c:676-681 | With that write the key is in the map with the record's data, and nothing else changes |
| DbCatalog.OverwriteOk | apue.3e/db/db.c:730-735 | Overwriting the data of a live record changes the map at its key alone |
| DbMoves.DeleteMoves | apue.3e/db/db.c:463-525 | The four writes of a deletion together remove the key and leave chains and free list in order |
| DbMoves.AppendMoves | apue.3e/db/db.c:664-681 | The three writes of an append together put the key in the map |
| DbMoves.ReuseMoves | apue.3e/db/db.c:683-697 | The three writes of a reuse together put the key in the map |
| DbListing.NextBoundary | apue.3e/db/db.c:842-852 | From one record the next begins where it ends, up to the end of the file: the index file tiles into whole records |
| DbListing.ListingSound | apue.3e/db/db.c:835-875 | Unless a record with a name is in some process's hands, every entry of the sequential listing is live with its current data, no key is listed twice, and the entries are in the order of the file |
| DbListing.ListingComplete | apue.3e/db/db.c:835-875 | Every record with a key that is not blank is listed |
| DbListing.ListedTwice | apue.3e/db/db.c:835-875 | A key that two records of the file carry is listed twice, wherever the two are |
| DbListing.ScanIsMap | apue.3e/db/db.c:812-875 | Rewind and db_nextrec to the end give each live pair with a key that is not blank exactly once, and nothing else, if and only if no record with such a key is in some process's hands |
| DbListing.EmptyOk | apue.3e/db/db.c:129-160 | The header db_open writes is a well-formed empty database |
| DbHandle.Db.constructor | apue.3e/db/db.c:84-166 | A new database is valid, represents the empty map, is rewound, and its files have the header and nothing else |
| DbHandle.Db.Existing | apue.3e/db/db.c:120-166 | Opening well-formed files of an existing database leaves them as they are: the contents are those the files represent, and the handle is rewound |
| DbHandle.Db.Header | apue.3e/db/db.c:140-152 | The header has 138 zero pointers and a newline |
| DbHandle.Db.WritePtr | apue.3e/db/db.c:618-631 | Writes the pointer if it is within PTR_MAX, otherwise quits and changes nothing |
| DbHandle.Db.WriteDat | apue.3e/db/db.c:531-560 | Overwrites or appends one extent and records where it is |
| DbHandle.Db.WriteIdx | apue.3e/db/db.c:567-612 | Overwrites or appends one record, or quits on a pointer or a length out of range and changes nothing |
| DbHandle.Db.HashKey | apue.3e/db/db.c:306-316 | The loop computes the sum of the signed bytes of the key times their places, mod 2^64, mod 137 |
| DbHandle.Db.Find | apue.3e/db/db.c:259-301 | Finds the key if and only if it is live, and leaves record, its cell and the chain head in the handle |
| DbHandle.Db.DoDelete | apue.3e/db/db.c:463-525 | Removes the found key from the map, and nothing else; its record, and no other, changes hands, to the free list |
| DbHandle.Db.Delete | apue.3e/db/db.c:440-456 | Removes the key; returns 0 if it was there and -1 if not; leaves no record in hand and the lengths of both files |
| DbHandle.Db.Fetch | apue.3e/db/db.c:233-253 | Returns the data of the key, or NULL if it is not in the map; changes nothing |
| DbHandle.Db.FindFree | apue.3e/db/db.c:752-805 | Takes the first free record of exactly the asked sizes off the free list, and has that one in hand, if and only if there is one |
| DbHandle.Db.Append | apue.3e/db/db.c:664-681 | Puts the key in the map at the ends of the files, or quits when offset or length are out of range, with the map unchanged; says which record is then whose, and where both files end |
| DbHandle.Db.Reuse | apue.3e/db/db.c:683-697 | Puts the key in the map in the record taken from the free list, which goes to the chain of its key |
| DbHandle.Db.StoreNew | apue.3e/db/db.c:661-699 | A key that is not there is added, unless it fits no free record and cannot be appended; then the map is unchanged |
| DbHandle.Db.StoreLonger | apue.3e/db/db.c:712-731 | Data of another length replaces the old, unless it cannot be appended; then the key is gone |
| DbHandle.Db.Store | apue.3e/db/db.c:637-746 | Answers 1 exactly for an insertion of a key that is there, -1 exactly for a replacement of one that is not or a flag outside 1 to 3, and changes nothing then; 0 sets the key to the data; it quits only for a data length that is not permitted or for want of room; if no record was in hand before, one is afterwards exactly when it quit with a record written and not linked; and exactly how long both files then are |
| DbHandle.Db.Rewind | apue.3e/db/db.c:812-827 | Sets the position to the first record |
| DbHandle.Db.NextRec | apue.3e/db/db.c:835-875 | Returns the next entry of the listing and moves past it, or NULL at its end |
| DbHandle.Db.ScanAll | apue.3e/db/db.c:812-875 | Rewinding and calling db_nextrec until NULL gives exactly the contents without blank keys, each key once, if and only if no named record was left in hand |
| DbHandle.RoomFor | apue.3e/db/db.c:567-631 | While both files are within PTR_MAX, a key of 1 to 1010 characters with permitted data can always be appended, and the append makes both files longer by at most a record and an extent of the largest sizes |
| DbHandle.LoadAndList | apue.3e/db/t4.c:5-23 | All three stores of the loading program return 0, and a scan then gives those three pairs and nothing else, whatever order the file has them in |
| DbHandle.Session | apue.3e/db/db.c:637-746 | Every kind of answer of db_store and db_delete in one run on a new database, and what a fetch finds after each |
| DbReads.WalkExhausted | apue.3e/db/db.c:279-300 | A process that has walked off its locked chain knows that its key is not live |
| DbReads.FoundData | apue.3e/db/db.c:233-247 | The extent a fetch reads is the data of its key in the map |
| DbReads.KeySettled | apue.3e/db/db.c:273-283 | While a process holds its chain and has not begun to replace its record, files and abstract map agree on its key |
| DbFrame.GuarGivesRely | apue.3e/db/db.c:269-283 | Because the locks are compatible, what one process guarantees is what every other relies on |
| DbFrame.LocalFrame | apue.3e/db/db.c:259-301 | What a process knows at its place in the code survives a step of another process |
| DbWrites.BlankDataDone | apue.3e/db/db.c:482-489 | The first write of a deletion keeps every part of the invariant |
| DbRelinks.BlankIdxDone | apue.3e/db/db.c:504-509 | So does the write of the blanked record |
| DbRelinks.SetFreeDone | apue.3e/db/db.c:511-514 | So does the write of the free-list pointer |
| DbRelinks.UnlinkDone | apue.3e/db/db.c:516-522 | So does the write that unlinks the record |
| DbRelinks.TakeFreeDone | apue.3e/db/db.c:775-791 | So does taking a free record |
| DbWrites.ReuseDataDone | apue.3e/db/db.c:690-690 | So does refilling it with data |
| DbRelinks.ReuseIdxDone | apue.3e/db/db.c:691-691 | So does giving it its new key |
| DbAppends.WriteDatDone | apue.3e/db/db.c:538-559 | So does appending data under the lock of the data file |
| DbAppends.WriteIdxDone | apue.3e/db/db.c:590-611 | So does appending a record under the lock of the index file's end |
| DbAppends.LinkHeadDone | apue.3e/db/db.c:676-681 | So does the write of the chain head, with which the store happens |
| DbWrites.OverwriteDone | apue.3e/db/db.c:730-735 | So does overwriting data of the same length |
| DbAppends.HaltDone | apue.3e/db/db.c:572-579 | So does quitting halfway: the key is gone, nothing else is |
| DbRuns.StepKeeps | apue.3e/db/db.c:233-875 | Every step of every process keeps the invariant of chains, free list, extents, locks and abstract map |
| DbRuns.InitialInv | apue.3e/db/db.c:129-160 | A new database with any number of processes satisfies it |
| DbLinear.StepRefines | apue.3e/db/db.c:233-746 | Every step is a step of one atomic finite map: a call, the operation itself at one instant, its return, nothing, or the end of a store that was refused its data length or had no room, with its key gone only in place of data of another length |
| DbLinear.Linearizable | apue.3e/db/db.c:233-746 | Every run of any number of processes is a run of the atomic map that starts empty |
| DbLinear.HaltCause | apue.3e/db/db.c:531-612 | Every store that ended its process did so at one step of its own, for its data length, or because a pointer or a record length was out of range for the files as they were; no store of permitted length is lost while there is room |
| DbLinear.CommitPoint | apue.3e/db/db.c:233-746 | Whatever an operation answers is what it does to the map at one step of its own process, after which the answer stands |
| DbAnswers.DeleteAnswers | apue.3e/db/db.c:440-456 | In every run a delete answers 0 if its key is in the map at one step of the call and -1 if not, and takes the key away there |
| DbAnswers.FetchAnswers | apue.3e/db/db.c:233-253 | A fetch answers the data its key has in the map at one step of the call, or NULL, and changes nothing |
| DbAnswers.StoreAnswers | apue.3e/db/db.c:632-746 | A store answers 1 for flag 1 and a key that is there, -1 for flag 2 and a key that is not or a flag outside 1 to 3, and otherwise 0, with the key set to the data, at one step of the call |
| DbAnswers.OthersKeep | apue.3e/db/db.c:233-746 | What the map has for a key changes only at a step of a store or delete of that key that has not happened yet |
| DbAnswers.CallAfter | apue.3e/db/db.c:233-746 | A call begun after a store that answered 0 returned, with nobody else about to change the key, finds that data; after a delete it finds nothing, so that a second delete answers -1 |
| DbProgress.LockOrder | apue.3e/db/db.c:273-283 | A process holds at most one lock besides its chain's, and asks for none while it holds that one |
| DbProgress.NoDeadlock | apue.3e/db/db.c:233-875 | In no reachable state are all processes that are inside a call stuck |
| DbProgress.NextRecAnswer | apue.3e/db/db.c:842-874 | The entry db_nextrec returns is live with its current data, or the completed record of a store in flight; never a key with blanked data |
| DbScans.NextRecLinked | apue.3e/db/db.c:842-874 | The record db_nextrec has come to is on the chain of its key if and only if no process has it in hand; whoever has is a store that completed it with just this key and data and has not linked it, or never will |
| DbScans.ScanAlone | apue.3e/db/db.c:835-875 | On files that do not change db_nextrec among many processes passes over records with blank keys and no others, and returns the next entry of the listing |
| DbScans.ScanOvertakes | apue.3e/db/db.c:637-875 | For every key, data and flag that can be stored first there is a run in which db_nextrec is about to return them while the files do not yet represent them |
| DbScans.ScanOvertakesInsert | apue.3e/db/db.c:637-875 | For instance the first insertion of a with data bc, which is then not in the abstract map |
| DbScans.HandsTidy | apue.3e/db/db.c:637-746 | In every reachable state no record is off all lists if and only if no process has one in hand |
| DbScans.RestListing | apue.3e/db/db.c:812-875 | In every reachable state with no process inside a call, a scan of the file lists exactly the abstract map without blank keys, each key once, if and only if no process ended with a named record it could not link |
| DbProgress.LiveAgrees | apue.3e/db/db.c:259-301 | In every reachable state a record on a chain holds what the abstract map says of its key |
| DbProgress.FilesAgree | apue.3e/db/db.c:637-746 | When no store is between taking the old record away and linking the new one, the files represent exactly the abstract map |
| DbProgress.Partition | apue.3e/db/db.c:259-301 | In every reachable state the free list and every chain on file no deletion is in the middle of are acyclic, and so is one that a deletion is in the middle of once its one owed pointer is written; all are disjoint, each record on the chain of its hash, and they hold exactly the records not in a process's hands |
| DbProgress.NothingShared | apue.3e/db/db.c:463-739 | In every reachable state live keys are unique, records and data extents never overlap, and each record has an extent of its own of its recorded length |
| DbFiles.NextAgrees | apue.3e/db/db.c:323-435 | At every place, parsing the bytes on file leads where reading the image leads |
| DbFiles.EffectAgrees | apue.3e/db/db.c:531-631 | At every place, the bytes written are those of the image after the step |
| DbFiles.NeverBadRead | apue.3e/db/db.c:323-435 | In no reachable state does a read fail, so none of the sanity checks fires |
| DbFiles.FilesLinearizable | apue.3e/db/db.c:233-875 | Every run of any number of processes on the bytes of the two files is a run of the atomic map |
| DbFiles.FilesNoDeadlock | apue.3e/db/db.c:233-875 | And no reachable state of files and processes is a deadlock |
| FooTable.HashOfIs | apue.3e/threads/mutex2.c:4-5 | Which of the 29 chains an identity is on, also a negative one |
| FooTable.ApplyMeans | apue.3e/threads/mutex2.c:19-104 | The four operations of the atomic table entry by entry: alloc puts a new one first, hold and find add one reference to one entry, find takes the newest with the identity, release takes one reference off and the entry with the last |
| FooTwoLocksSpec.AnswersMean | apue.3e/threads/mutex2.c:19-104 | In every run, whatever is decided at a step is that, on the table as it is then |
| FooTable.PathRemove | apue.3e/threads/mutex2.c:86-95 | Pointing the predecessor past an object takes exactly that object out of the list |
| FooTable.FindInChain | apue.3e/threads/mutex2.c:58-63 | The first match on the one chain the identity hashes to is the newest object with it in the whole table |
| FooChains.LinkChains | apue.3e/threads/mutex2.c:34-35 | The head write puts the new object in front of its chain and leaves the other 28 |
| FooChains.CutHeadChains | apue.3e/threads/mutex2.c:87-90 | Removing the head leaves every chain in order |
| FooChains.CutChains | apue.3e/threads/mutex2.c:91-94 | Removing from the middle leaves every chain in order |
| FooTwoLocks.StepKeeps | apue.3e/threads/mutex2.c:19-104 | Every step of every thread keeps counts, chains, locks, the window and who may name what |
| FooTwoLocks.Listed | apue.3e/threads/mutex2.c:53-66 | An object some thread names or owns is on its chain, unless that thread itself is linking it or has cut it |
| FooTwoLocks.SoleBySelf | apue.3e/threads/mutex2.c:77-86 | A thread that finds count 1 at the recheck, with both locks, is the only one left with the object |
| FooTwoLocks.WindowNext | apue.3e/threads/mutex2.c:74-80 | At most one thread at a time is between the first test of foo_rele and its recheck for one object |
| FooTwoLocksSpec.StepRefines | apue.3e/threads/mutex2.c:19-104 | Every step is a step of the atomic table: alloc, hold, find the newest, release and free with the last reference |
| FooTwoLocksSpec.Linearizable | apue.3e/threads/mutex2.c:19-104 | Every run of any number of threads is a run of the atomic table that starts empty |
| FooTwoLocksSpec.Safe | apue.3e/threads/mutex2.c:19-104 | In every reachable state: no use after free, each count is the number of references owned, each object is on exactly the chain of its hash, one thread in the window |
| FooTwoLocksSpec.LockOrder | apue.3e/threads/mutex2.c:32-38 | hashlock always comes before f_lock, and who holds an f_lock waits for nothing |
| FooTwoLocksSpec.NoDeadlock | apue.3e/threads/mutex2.c:57-103 | In no reachable state are all threads that are inside a call stuck |
| FooOneLock.Table.Alloc | apue.3e/threads/mutex3.c:18-41 | Does what the atomic table's alloc does; NULL if malloc fails, with the table unchanged |
| FooOneLock.Table.Hold | apue.3e/threads/mutex3.c:43-49 | Does what the atomic table's hold does |
| FooOneLock.Table.Find | apue.3e/threads/mutex3.c:51-65 | Does what the atomic table's find does: the newest object with that identity, or NULL |
| FooOneLock.Table.Rele | apue.3e/threads/mutex3.c:67-90 | Does what the atomic table's release does; the object is freed exactly when its last reference goes |
| FooOneLock.Table.CutOut | apue.3e/threads/mutex3.c:73-83 | The removal loop takes exactly the given object off its chain |
| Rot13.TranslateTwice | apue.3e/advio/rot13c2.c:25-40 | Every letter is moved 13 places around the alphabet within its case and every other byte stays; translating twice gives back the text |
| Rot13.AllHold | apue.3e/advio/rot13c2.c:115-117 | An output with every block in place, and no more, is the translated input |
| Rot13.CompleteSound | apue.3e/advio/rot13c2.c:67-149 | Whatever request the kernel finishes next, blocks in buffers and blocks on file still account for all that was asked for |
| Rot13.StartSound | apue.3e/advio/rot13c2.c:71-89 | Starting a read gives the buffer a block no other buffer has |
| Rot13.TurnSound | apue.3e/advio/rot13c2.c:91-117 | A finished read is short only in the last block, and becomes a write of the translated block |
| Rot13.FreeSound | apue.3e/advio/rot13c2.c:119-139 | A buffer is freed only after its block is on file |
| Rot13.Pipeline.Serve | apue.3e/advio/rot13c2.c:69-140 | Serving one buffer keeps numop the number of buffers in use and aiolist non-NULL exactly for those, and gets on if there is something to do |
| Rot13.Pipeline.Pass | apue.3e/advio/rot13c2.c:69-140 | A pass over the buffers with anything finished or unread leaves strictly less to do |
| Rot13.Pipeline.Run | apue.3e/advio/rot13c2.c:67-149 | For every input and every order of completions the loop ends and the output is the translated input; without faults it never exits early |
| JobQueue.Queue.constructor | apue.3e/threads/rwlock.c:20-32 | An empty queue |
| JobQueue.Queue.Insert | apue.3e/threads/rwlock.c:37-49 | Puts the job in front; next, prev, head and tail agree (replace_job does the same) |
| JobQueue.Queue.Append | apue.3e/threads/rwlock.c:54-66 | Puts the job at the end (add_job does the same) |
| JobQueue.Queue.Remove | apue.3e/threads/rwlock.c:71-89 | Removes the given job, wherever it is, and keeps the order of the others |
| JobQueue.Queue.FindJob | apue.3e/threads/rwlock.c:94-108 | Returns the first job with that id; NULL if and only if there is none or the read lock failed |
| JobQueue.Queue.RemoveJob | apue.3e/printer/printd.c:320-331 | Removes the given job, wherever it is, and keeps the order of the others |
| JobQueue.Queue.Pick | apue.3e/printer/printd.c:693-693 | The printer takes the first job off the list |
| Workers.WorkerList.AddWorker | apue.3e/printer/printd.c:530-549 | The new worker is on the list if and only if the list was empty |
| Workers.WorkerList.ClientCleanup | apue.3e/printer/printd.c:573-601 | Takes the worker off the list, unless it is the head of an improper list, where workers still points to it |
| Workers.TwoWorkers | apue.3e/printer/printd.c:530-601 | A run with two workers after which workers points to the one that is gone and the other was never on the list |
| Spooler.StepKeeps | apue.3e/printer/printd.c:275-331 | Every step of clients and printer keeps order, conservation and the wake-up property |
| Spooler.FirstComeFirstServed | apue.3e/printer/printd.c:684-839 | In every run each job is in exactly one place, jobs are finished in the order added, also after deferral, and the printer sleeps on a job only while a client is about to signal |
| Spooler.NumberIs | apue.3e/printer/printd.c:256-268 | The k-th job number from n on, around the wrap back to 1 |
| Spooler.NumbersDistinct | apue.3e/printer/printd.c:256-268 | Two jobs get the same number if and only if a multiple of 2147483647 numbers lies between them |
| WorkQueue.StepKeeps | apue.3e/threads/condvar.c:14-38 | Every step of every producer and consumer keeps the links, the lock, the messages in hand, the counts and the wake-up property |
| WorkQueue.AlwaysSafe | apue.3e/threads/condvar.c:14-38 | After every step of every run the links spell the stack that the run's own enqueues and takes leave, and its counts of messages given, linked in, taken and processed balance |
| WorkQueue.NoMessageLost | apue.3e/threads/condvar.c:14-38 | In every run each message has been processed exactly as often as it was given to enqueue_msg, but for at most one time; then it is on the queue once or with exactly one thread, and otherwise in neither place; likewise taken as often as linked in, unless it is on the queue |
| WorkQueue.TakesNewest | apue.3e/threads/condvar.c:14-38 | In every run a consumer takes the message linked in last of those waiting |
| WorkQueue.NoLostWakeup | apue.3e/threads/condvar.c:19-37 | In no state of any run is a consumer asleep with a message on the queue, no producer about to signal and no other consumer awake |
| WorkQueue.NoneLostNext | apue.3e/threads/condvar.c:21-37 | After every step, also a signal or a wake-up without cause: while anyone sleeps, the messages waiting are no more than the producers between unlock and signal and the consumers awake |
| Ftw.CutIs | apue.3e/filedir/ftw8.c:91-120 | The calls made are the shortest prefix of all calls whose last one returned nonzero, and that value is the result |
| FtwOrder.PreorderLists | apue.3e/filedir/ftw8.c:76-121 | The calls are one for every file reached without dot and dot-dot, two for a directory that cannot be read, none twice, each directory before its entries and the entries in order, under the path and with the type of what is there |
| FtwOrder.PathIs | apue.3e/filedir/ftw8.c:100-112 | Every such path is the starting path and names after slashes, none of them dot or dot-dot |
| FtwOrder.Sample | apue.3e/filedir/ftw8.c:76-121 | The calls for a directory with dot, dot-dot, a file, and a directory that cannot be read |
| Ftw.Walker.DoPath | apue.3e/filedir/ftw8.c:76-121 | The calls are the preorder of the tree cut that way; the caller's path stays in the buffer even when it moves, and every write fits |
| Ftw.Walker.Entries | apue.3e/filedir/ftw8.c:108-117 | The readdir loop visits the entries in order, without dot and dot-dot, and leaves the prefix |
| Ftw.Walker.Grow | apue.3e/filedir/ftw8.c:94-99 | One doubling makes room for a slash, a longest name and a NUL, and keeps the contents |
| Ftw.Walker.Myftw | apue.3e/filedir/ftw8.c:56-68 | From any starting path, whatever its length, the walk makes the calls of the preorder cut after the first nonzero return |
| MemStream.TypeToFlags | apue.3e/exercises/fmemopen.c:96-138 | Accepts exactly the strings r, w or a followed by any of + and b, with the flags they mean |
| MemStream.Open | apue.3e/exercises/fmemopen.c:36-94 | Opens if and only if the size is nonzero, the mode valid and there is a buffer or a plus; the flags are those of the mode; what the stream then holds |
| MemStream.FindEnd | apue.3e/exercises/fmemopen.c:140-151 | The first zero byte, or the length |
| MemStream.Stream.Read | apue.3e/exercises/fmemopen.c:153-171 | Reads what a bounded file would; fails exactly without the read flag |
| MemStream.Stream.Write | apue.3e/exercises/fmemopen.c:173-204 | With plus, writes what a bounded file would, the terminator outside the contents; without, that and one byte zeroed, which shows exactly when the write was not harmless |
| MemStream.Stream.Seek | apue.3e/exercises/fmemopen.c:206-229 | Seeks within the contents and fails outside, from all three origins |
| MemStream.ReadMeans | apue.3e/exercises/fmemopen.c:153-171 | A read gives the bytes from the position on, as many as asked for or left, and moves past them |
| MemStream.WriteMeans | apue.3e/exercises/fmemopen.c:173-190 | A write replaces or adds the bytes from the position or the end on that fit, and leaves all others |
| MemStream.SeekMeans | apue.3e/exercises/fmemopen.c:206-229 | SEEK_SET counts from the start, SEEK_CUR from the position, SEEK_END from the end, all within the contents |
| MemStream.SeeksAddUp | apue.3e/exercises/fmemopen.c:206-229 | Two seeks from the position are one by the sum |
| MemStream.OpenedMeans | apue.3e/exercises/fmemopen.c:63-85 | What a stream holds and where it stands when it is opened, for every mode |
| MemStream.Session | apue.3e/exercises/fmemopen.c:36-229 | Two bytes written to a stream of eight, sought from all three origins, and read back |
| MemStream.TerminatorHarmless | apue.3e/exercises/fmemopen.c:197-202 | Without plus a write is the bounded file's if and only if, before the call, it is seen to end behind the contents or before a zero byte, or to leave a zero in the last byte of a full buffer |
| MemStream.TerminatorHarms | apue.3e/exercises/fmemopen.c:197-202 | Two writes that are not: one byte over the first of two, and an append that fills the buffer |
| MemStream.RunBounds | apue.3e/exercises/fmemopen.c:153-229 | Over every run of calls position, contents and buffer stay nested, and an appending stream never changes what it holds |
| MemStream.WriteSeekRead | apue.3e/exercises/fmemopen.c:153-229 | What was written is read back after a seek, and is all of it if and only if it fitted |
| SortMerge.Select | apue.3e/threads/barrier.c:68-74 | The inner loop picks a slice with the least head, if any head is below LONG_MAX |
| SortMerge.Merge | apue.3e/threads/barrier.c:59-78 | For any number and length of slices: every step finds a slice not exhausted if and only if no number is LONG_MAX, and snums is then a sorted permutation |
| SortMerge.MergeLongMax | apue.3e/threads/barrier.c:67-76 | With a single slice that holds only LONG_MAX the merge fails |
| SortMerge.MergeStep | apue.3e/threads/barrier.c:67-77 | One step of the merge keeps the output sorted, behind everything left, and a permutation of what was taken |
| Barrier.StepKeeps | apue.3e/threads/barrier.c:42-53 | A thread at the barrier has its slice sorted, and nobody else writes it |
| Barrier.MergeAfterSort | apue.3e/threads/barrier.c:101-108 | When merge starts every slice is sorted, the numbers are those at the start, and no thread can move them |
| ClientTable.Table.Alloc | apue.3e/ipc2/opend/client.c:5-22 | Ten more free entries, the others as they were |
| ClientTable.Table.Add | apue.3e/ipc2/opend/client.c:27-46 | Enters the client in the first free entry, of a larger table if need be, and leaves all others |
| ClientTable.Table.Del | apue.3e/ipc2/opend/client.c:51-63 | Frees the entry of that descriptor; quits if and only if there is none |
| PollLoop.PackedSet | apue.3e/ipc2/opend/loop.poll.c:85-91 | Packing removes one descriptor from the array, and no other |
| PollLoop.Server.constructor | apue.3e/ipc2/opend/loop.poll.c:35-46 | The listening descriptor is the one entry of array and table |
| PollLoop.AcceptedOrder | apue.3e/ipc2/opend/loop.poll.c:52-66 | While array and table are in the same order, the first free entry of the table is the next of the array, so they stay so |
| PollLoop.ClosedOrder | apue.3e/ipc2/opend/loop.poll.c:76-92 | After a hang-up they are still in the same order if and only if it was the last entry of the array |
| PollLoop.WrongUid | apue.3e/ipc2/opend/loop.poll.c:48-97 | Two clients connect and the first hangs up: the entry of the table used for the second then has the uid of the first |
| PollLoop.Server.Accept | apue.3e/ipc2/opend/loop.poll.c:52-66 | A new descriptor is appended to the array and entered in the table, at the same place if the two were in the same order |
| PollLoop.Server.Grow | apue.3e/ipc2/opend/loop.poll.c:6-22 | Ten more entries, the others as they were |
| PollLoop.Server.Hangup | apue.3e/ipc2/opend/loop.poll.c:76-92 | client_del always finds its entry; array and table keep the same descriptors; they keep the same order if and only if the entry was the last |
| PollLoop.Server.Serve | apue.3e/ipc2/opend/loop.poll.c:69-97 | A ready entry is closed or its request handled, under the uid in the entry of the table with the same number, which always exists |
| PollLoop.Server.Scan | apue.3e/ipc2/opend/loop.poll.c:68-97 | The scan ends, serves every ready entry exactly once despite the packing, closes exactly those that hung up or from which a read gives nothing, stops exactly if a read fails, and exactly the closed ones are gone; each is served under the uid of the table entry with the number of its place; that place is where it was at the start exactly if it is the first served there, and then, if array and table start in the same order, the uid is its own |
| SelectLoop.Server.Accept | apue.3e/ipc2/opend/loop.select.c:27-38 | A new descriptor is in the set and the table, below both bounds |
| SelectLoop.Server.Close | apue.3e/ipc2/opend/loop.select.c:49-53 | A closed descriptor leaves set and table, and no other entry changes |
| SelectLoop.Server.Scan | apue.3e/ipc2/opend/loop.select.c:40-58 | Every ready client is served exactly once, under the uid recorded for its descriptor, and closed exactly if a read gives nothing; it stops exactly if a read fails; exactly the closed ones are gone |
| TellWait.ParentKeeps | apue.3e/ipc1/devzero.c:32-39 | Every step of the parent keeps the turn in exactly one place: parent, pipe, child or pipe back |
| TellWait.ChildKeeps | apue.3e/ipc1/devzero.c:40-49 | So does every step of the child, and it never finds the wrong value |
| TellWait.NoDeadlock | apue.3e/ipc1/tellwait.c:12-48 | A state in which neither can step is the end of both |
| TellWait.Progress | apue.3e/ipc1/devzero.c:30-49 | Every step leaves less to do |
| TellWait.Alternate | apue.3e/ipc1/devzero.c:30-49 | For every loop bound and interleaving the two strictly alternate, each update returns its loop index, and runs end with both done, the pipes empty and the counter at 2*ceil(N/2) |

## Left out

- Everything under `ch1` to `ch14`: exercise copies of the programs modelled here.
- `db_open` with anything but a new database or well-formed files, the statistics counters, and a crash between two writes of one operation other than the quits the library itself makes.
- `db_nextrec` interleaved with other operations on the same handle, which move the shared file offset; in the model of many processes a scan keeps its own position.
- The two reads of an index record, header and body, are one step; so are the two parts of a gathered write.
- DbLinear.StepRefines: says nothing of when a process is scheduled; there is no fairness and hence no termination of walks.
- FooOneLock.Table.Alloc: each critical section of `hashlock` is one method, and calls follow one another as the lock makes them; the steps inside are interleaved only in the version with two locks. The hold of `f_lock` after `hashlock` is dropped, which only covers initialization, is not modelled.
- FooTwoLocksSpec.Linearizable: `f_count` is unbounded, so an overflow of `int` is not modelled, nor a failure of `pthread_mutex_init`.
- Rot13.Pipeline.Run: the input file does not change while it is read, so a short read of the last block is its true length; `isalpha` is that of the C locale.
- Spooler.FirstComeFirstServed: a critical section of `joblock` is one step; the HTTP and IPP exchange is one outcome (printed, cancelled or deferred), and `printer_status`, `readmore`, configuration and signals are not modelled.
- Spooler.NumberIs: `nextjob++` at its largest value is taken to become negative and then 1, as the code intends.
- WorkQueue.AlwaysSafe: what is done with a message after it is taken is one step; nobody enqueues a message that is still out.
- MemStream.Stream.Write: the buffering of stdio above `funopen`, and `int` overflow of offsets, are not modelled.
- SortMerge.Merge: what the program writes after a step that finds no slice is not modelled; the method stops there and says so.
- SelectLoop.Server.Scan: `FD_SETSIZE` is not modelled.
- The passing of descriptors, request parsing, `printf` output, and every program that only shows system calls.
