# Proofs about a PlayStation 2 game loader

This project models nine components of the loader and proves what they promise. Each
module follows one source file; code that changes things in place is modelled with
classes, arrays and loops, proved against a function or predicate, and the properties
are lemmas about that specification.

| component | source | files |
|---|---|---|
| I/O worker: producers, one worker and a blocker on a linked queue under two semaphores | `src/ioman.c` | RequestList, IoWorker, IoWorkerInvariant, IoWorkerTheorems, IoWorkerDispatch, IoWorkerBlocking, IoWorkerRemoval |
| IOPRP patcher: a ROMDIR archive rewritten into one buffer, table and all | `src/ioprp.c` | Ioprp |
| texture atlas and glyph cache | `src/atlas.c`, `src/fntsys.c` | AtlasTree, AtlasPixels, Atlas, GlyphCache |
| ZSO compressor and decompressor | `pc/ziso.py` | Zso, ZsoWriter, ZsoReader, ZsoLimits |
| game-list menu and its deferred operations | `src/menusys.c`, `src/gui.c` | TitleOrder, MenuView, GameMenu |
| TAR index and its cache file | `src/tar.c` | Tar, TarIndex |
| UTF-8 decoder | `include/utf8.h` | Utf8 |
| file replacement and batch migration | `src/config_migration.c` | SafeReplace, Migration |
| play history | `src/OSDHistory.c` | PlayHistory |

`Bytes.dfy` holds byte fields, C strings, memcpy and memset; `Arithmetic.dfy` products
and quotients of variables; `Options.dfy` one datatype.
`dafny verify dfyconfig.toml` checks everything.

## What turned out false, and what holds instead

- **A request can be handled before it is filled in, or dropped.** `ioPutRequest` makes
  its node reachable (lines 222-228) before it stores type and data (lines 231-233), and
  the worker reads `gReqList` without `gEndSemaId`. `UnfilledNodeIsHandled` gives an
  interleaving in which a handler is called with whatever malloc returned, and
  `UnfilledNodeIsDropped` one in which no handler is called at all. The list itself stays
  sound and in order in every interleaving; only what the handlers are called with is at
  stake. `RanIff`: at every moment of an interleaving handlers were called with the
  accepted requests, in order, if and only if every node dispatched carried its accepted
  request at that moment; `DispatchIsRightIff` says when a single dispatch is right. Only
  a put into an empty list is at risk: one into a list that is not empty is dispatched
  right in every interleaving (`PutBehindIsDispatchedRight`).
- **Blocking is not quiescence while a producer is past the flag check.** `QuietIff`: in
  any state with the flag set, whoever holds the semaphores, nothing more is accepted
  while no handler is registered if and only if no producer is past the flag check with a
  registered type. `BlockedIsNotQuiet` is a run to such a state.
- **A configuration path of 254 characters or more can lose the file.** The names for
  the temporary file and the backup are cut to 255 characters and become one.
  `AlwaysSafeIff`: the old file survives every course of failures if and only if the
  path has at most 253 characters. `BatchSafeIff` says the same of a batch: whatever the
  files hold and whatever fails, it loses none if and only if it converts to another
  device or every path has at most 253 characters. With 255 characters the first unlink
  deletes the file (`FullPathLoses`), with 254 a failed rename and a failed rename back do
  (`NearlyFullPathLoses`).
- **Settings whose path fills its buffer are never put in place.** Their temporary file is
  their own place, which is cleared just before. `ConvertedIff`: when nothing fails, a
  file is converted if and only if the reader takes something from it and its settings, if
  any, have a path of at most 254 characters.
- **The last compressed ZSO block is read with a length computed from the input size.**
  `RoundTripIff` gives the exact condition under which a file reads back, and
  `CrashesIff` the one under which the reader raises an exception. `OneBlockCrashes` is an
  input of four bytes for which it does.
- **A history name of 16 characters or more is never found again** (`FoundAgainIff`).
- **A TAR member above 4 MiB is found cut short.** `CapIsExactIff`: where the first member
  above 4 MiB is a regular file, an archive is indexed right if and only if there is none;
  otherwise the index is right up to that member and wrong there. `LargeFileIsCut` is such
  an archive.
- **The TAR cache is checked by the size of the archive alone.** `LoadTwice`: an index
  loaded with the cache an earlier start left is right if and only if the archive has
  another size than before or the same entries. `StaleCache` is a case where it is not.
- **A batch can overwrite information it has just written.** Two files with the same name
  but for the last four characters, like `a.cfg` and `a.CFG`, share one `.info` file.
  `RemainIff`: when nothing fails, the outputs of a converted file are there at the end if
  and only if the last file to write that information wrote the same. `OverwriteFirst`
  calls the code on a disk where this happens and the first input is gone.
- **A key pressed while menu operations are pending can act on the old list**
  (`EarlyKey`). The list itself is never affected (`DeferredListIsSame`). `KeySafeIff`
  says exactly when one key does now what it would do after the pending operations:
  operations that set the cursor themselves forget the key, so it must be one without
  effect on the drained list; operations that only append need the key to stay inside the
  list; and around a sort the item the key reaches must be the one it reaches in the
  sorted list, and the first on screen there. `HarmlessIff`: deferring is harmless at
  every moment of a run if and only if every key is pressed where it may be.

## Modelling assumptions

- EE kernel: a wake-up sent to a thread that is not asleep is counted; a thread waking
  itself has no effect. The stores of `ioPutRequest` between taking and giving
  `gEndSemaId` are two steps, linking and filling; each pass of the loop of
  `ioRemoveRequests` is one step. Handlers do not register handlers or remove requests.
- LZ4 is a pair of functions with stated laws (`ZsoReader.Lawful`, and for one
  direction of `RoundTripIff` `ZsoLimits.NeedsItsEnd`); the comparison of
  `100 * len / len` with the threshold is made on exact integers. FreeType is a
  function from code points to rendered glyphs. Memory allocation succeeds.
- `guiDeferUpdate` and `guiHandleDeferredOps` are indivisible. One menu is driven by the
  queue, and `displayedItems` is fixed and at least 1.
- A disk operation is atomic, except that opening a file for writing may leave any
  content until the write is complete; a rename replaces its target.
- C sizes and counters are unbounded where the source cannot reach their limits;
  32-bit fields, 8-bit masks, `snprintf` cuts and the wrap of the UTF-8 accumulator are
  written out.

## Model

| member | source | states |
|---|---|---|
| RequestList.PublishKeeps | src/ioman.c:215-229 | linking a node keeps the list linked from gReqList to gReqEnd, without leaks or sharing, and appends to the FIFO |
| RequestList.FillKeeps | src/ioman.c:231-233 | filling the node in makes every node carry its accepted request |
| RequestList.PopKeeps | src/ioman.c:136-140 | unlinking and freeing the head moves the oldest pending request to the handled ones |
| RequestList.UnlinkKeeps | src/ioman.c:252-273 | removing any node, head, middle or end, keeps the list sound and removes just that request from the FIFO |
| IoWorkerTheorems.StepKeeps | src/ioman.c:116-279 | every step of every thread, also one that reads an unfilled node, keeps the invariant of the whole system and touches no freed memory |
| IoWorkerTheorems.RunKeeps | src/ioman.c:116-405 | so does every interleaving of any length |
| IoWorkerTheorems.Refinement | src/ioman.c:116-279 | in every interleaving taken then pending requests are the accepted ones in order minus the removed ones, each at most once |
| IoWorkerTheorems.ListIsSound | src/ioman.c:125-147 | whenever gEndSemaId is free, following next from gReqList finds exactly the pending requests, and gReqEnd is the last node or both are NULL |
| IoWorkerTheorems.HandledIsHead | src/ioman.c:132-140 | the node being dispatched and handled is the oldest pending one and stays the head until it is popped |
| IoWorkerTheorems.NothingStranded | src/ioman.c:116-148 | a non-empty queue means the worker drains, a wake-up is counted, or a producer is about to wake it |
| IoWorkerTheorems.WorkerDrains | src/ioman.c:116-148 | from any reachable state without clients inside, the worker alone empties the queue, having taken everything accepted and not removed |
| IoWorkerTheorems.EmptyIsIdle | src/ioman.c:127-146 | when gReqList is NULL no handler is executing and everything accepted and not removed was taken |
| IoWorkerTheorems.RemoveCounts | src/ioman.c:242-279 | a turn of the removal loop frees a node of the given type and counts it, or steps over one of another type |
| IoWorkerRemoval.RemoveIsExact | src/ioman.c:242-279 | a whole call, among any steps of other threads, removes exactly the pending requests of the type, returns their number and leaves the others pending |
| IoWorkerDispatch.RanIff | src/ioman.c:102-148 | over every interleaving the handlers get the accepted requests in order exactly when each dispatched node carries its accepted request |
| IoWorkerDispatch.HandledIsAccepted | src/ioman.c:102-148 | from the initial state they then got exactly the taken requests and the current one |
| IoWorkerDispatch.DispatchIsRightIff | src/ioman.c:132-133 | one dispatch is right exactly when the head is filled in or what malloc returned agrees with the request |
| IoWorkerDispatch.RawIsHeadIff | src/ioman.c:215-229 | a node is linked as the head, unfilled, exactly when the list was empty |
| IoWorkerDispatch.PutBehindIsDispatchedRight | src/ioman.c:132-133 | a request put into a list that is not empty is carried by its node whenever it is dispatched, in any interleaving |
| IoWorkerDispatch.WorkerHandlesAll | src/ioman.c:116-148 | without clients inside, the worker alone calls the handlers with all that is still pending, in order |
| IoWorkerDispatch.UnfilledNodeIsHandled | src/ioman.c:219-233 | an interleaving from the initial state that calls a handler with the uninitialised node |
| IoWorkerDispatch.UnfilledNodeIsDropped | src/ioman.c:102-141 | an interleaving in which an accepted request is taken off the list and no handler is called |
| IoWorkerBlocking.DrainingRun | src/ioman.c:208-209 | with the flag set and no producer past it, nothing is accepted and the queue only shrinks |
| IoWorkerBlocking.BlockedIsQuiet | src/ioman.c:381-405 | after ioBlockOps(1) saw an empty list it stays empty, and no handler runs, until ioBlockOps(0) |
| IoWorkerBlocking.PassedProducerLinks | src/ioman.c:206-233 | from any state a producer past the flag check can still get its request accepted, whoever holds gEndSemaId |
| IoWorkerBlocking.QuietIff | src/ioman.c:381-405 | from any state with the flag set, nothing is accepted while no handler is registered exactly when no producer is past the flag check with a registered type |
| IoWorkerBlocking.BlockedIsNotQuiet | src/ioman.c:381-405 | a run from the initial state after which ioBlockOps(1) has returned and a request is still accepted |
| Ioprp.TurnKeeps | src/ioprp.c:43-64 | every turn of the loop makes progress, also the one that copies the old table over the new one being written |
| Ioprp.ProgressMeansPatched | src/ioprp.c:32-67 | full progress means the archive decodes to the patched files |
| Ioprp.PatchImage | src/ioprp.c:32-67 | decoding the output gives the same names and EXTINFO sizes in order, each file but ROMDIR its replacement or original bytes, 16-aligned with zero gaps, ROMDIR the new table, and the returned total |
| Ioprp.AlignOffsets | src/ioprp.c:99-118 | both offsets move to the next multiple of 16 and the gap in the output becomes zero |
| AtlasTree.TreePartitions | src/atlas.c:43-83 | placed rectangles and free leaves are pairwise disjoint, inside the atlas, and their areas sum to its area |
| AtlasTree.RectsAre | src/atlas.c:50-83 | those rectangles are exactly the placements and the free leaves |
| AtlasTree.PlaceFailsIff | src/atlas.c:50-83 | a call finds no room exactly when no free leaf anywhere fits, so pruning loses nothing |
| AtlasTree.PlaceTakesFree | src/atlas.c:50-83 | a placement has the requested size, takes free space only, and what was disjoint from the free leaves stays so |
| AtlasTree.RunPartitions | src/atlas.c:50-83 | the partition holds after any sequence of calls |
| Atlas.Alloc.Place | src/atlas.c:50-83 | the linked nodes, split in place, are the tree of the specification, and the node returned is where it says |
| AtlasPixels.CopyAdds | src/atlas.c:147-168 | the row by row copy shows the new image, keeps all earlier ones and leaves every other pixel zero |
| AtlasPixels.GutterIsZero | src/atlas.c:170-185 | the pixel column and row right of and below each image are zero |
| Atlas.Texture.CopyData | src/atlas.c:147-168 | the loop writes exactly the image's rows, inside the surface |
| Atlas.Texture.Place | src/atlas.c:170-185 | an image is placed unless the surface is missing or no leaf fits; all pixels of all images stay right |
| GlyphCache.Font.PreparePage | src/fntsys.c:140-172 | growing the page table and adding a page loses and adds no entry |
| GlyphCache.Font.GlyphAtlasPlace | src/fntsys.c:387-418 | a glyph lands in the first atlas with room, other entries stay, and failure means no atlas has a free leaf for it |
| GlyphCache.Font.CacheGlyph | src/fntsys.c:421-468 | a cached entry is returned as it was; otherwise the glyph is rendered and cached or nothing changes; other code points are untouched |
| GlyphCache.Font.Flush | src/fntsys.c:116-138 | no entry survives a flush |
| GlyphCache.CachedGlyphIsFresh | src/fntsys.c:421-468 | a valid entry has the metrics of a fresh rendering and its atlas rectangle holds the bitmap, pixel by pixel, however many glyphs were added since |
| ZsoWriter.CompressSerial | pc/ziso.py:286-317 | the serial loop leaves the specified file, or ends as specified |
| ZsoWriter.CompressPooled | pc/ziso.py:265-285 | the batched loop leaves the same file for every batch size and every threshold up to 100 |
| ZsoWriter.SetAlign | pc/ziso.py:210-216 | padding up to the next multiple of the alignment |
| ZsoReader.Lz4Decompress | pc/ziso.py:62-71 | the stripping loop ends and finds the longest prefix that decodes |
| ZsoReader.Decompress | pc/ziso.py:130-196 | the reader produces the specified result, with its four ways of ending |
| ZsoReader.LongestOfPadded | pc/ziso.py:62-71 | with padding behind it a compressed block decodes to the block |
| ZsoReader.StoredInFile | pc/ziso.py:271-308 | each block stands in the file where the table says, behind its padding |
| ZsoReader.RoundTrip | pc/ziso.py:130-323 | decompressing a compressed file returns the input cut to whole blocks |
| ZsoLimits.RoundTripIff | pc/ziso.py:167-173 | it does so exactly when the last block is plain, ends within total_bytes or starts one byte behind |
| ZsoLimits.CrashesIff | pc/ziso.py:130-196 | decompressing the file ends with an exception exactly when the last block is compressed and starts more than one byte behind total_bytes |
| ZsoLimits.OneBlockCrashes | pc/ziso.py:170-173 | a lawful codec and an input of one block whose file crashes the reader |
| ZsoLimits.StoredNotLonger | pc/ziso.py:275-283 | a stored block is never longer than block_size |
| ZsoLimits.PosBound | pc/ziso.py:271-284 | where writing stands is bounded by header, table, padding and input so far |
| ZsoLimits.FlagSafe | pc/ziso.py:225-236 | no position reaches the flag bit while header, table, padding and input stay below 2^31 alignment units |
| ZsoLimits.FlagSafeLarge | pc/ziso.py:225-236 | for alignments 2 to 127 and blocks of at least 2048 bytes no position ever does |
| ZsoLimits.FitsMeansWritten | pc/ziso.py:249-317 | then the program finishes |
| ZsoLimits.SmallInputsReadBack | pc/ziso.py:130-323 | below 256 MB the only condition left is the one on the last block |
| TitleOrder.CmpTransitive | src/menusys.c:780-782 | the case-insensitive comparison orders titles |
| TitleOrder.OrderUnique | src/menusys.c:755-794 | there is only one stable order of a list of titles |
| TitleOrder.ExchangeRemovesOne | src/menusys.c:784-790 | exchanging two neighbours in the wrong order removes exactly one inversion |
| TitleOrder.ExchangeKeeps | src/menusys.c:784-790 | and keeps the sort stable |
| TitleOrder.SortedIsOrder | src/menusys.c:770-793 | a pass without exchanges has reached the stable order |
| GameMenu.Swap | src/menusys.c:736-752 | relinking two neighbours gives the doubly linked list with the two exchanged |
| GameMenu.SortPass | src/menusys.c:770-791 | a pass either finds the list in order or lowers the inversion count |
| GameMenu.Menu.SubmenuSort | src/menusys.c:755-794 | the sort ends, with the same nodes in the stable order of their titles, linked both ways from the node without prev |
| GameMenu.Menu.SubmenuAppendItem | src/menusys.c:604-625 | one new node behind the old ones |
| GameMenu.Menu.SubmenuDestroy | src/menusys.c:674-687 | every node is released once, in order |
| GameMenu.Menu.ClearGameList | src/menusys.c:1518-1534 | an empty view; remindLast is cleared only with a list |
| GameMenu.Menu.FirstPage | src/menusys.c:821-832 | cursor and page move to the first item |
| GameMenu.Menu.LastPage | src/menusys.c:834-852 | cursor on the last item of a full last page |
| GameMenu.Menu.Next | src/menusys.c:854-879 | the cursor moves down and wraps; the page follows only when it must |
| GameMenu.Menu.Prev | src/menusys.c:881-902 | the cursor moves up and wraps; the page follows only when it must |
| GameMenu.Menu.NextPage | src/menusys.c:904-920 | one screen on, or around |
| GameMenu.Menu.PrevPage | src/menusys.c:922-938 | one screen back, or around |
| GameMenu.Menu.AppendOp | src/gui.c:1150-1175 | appending shows the item last; a selected one takes cursor and page and is remembered |
| GameMenu.Menu.SortOp | src/gui.c:1190-1203 | sorting shows the stable order, with the remembered item still under the cursor |
| GameMenu.Menu.ClearOp | src/gui.c:1182-1188 | clearing empties the view and keeps remindLast |
| GameMenu.Gui.DeferUpdate | src/gui.c:1116-1135 | the operation is queued last under the number returned, which has not run |
| GameMenu.Gui.HandleDeferredOps | src/gui.c:1215-1234 | all pending operations are applied in order |
| GameMenu.Gui.KeyPressed | src/menusys.c:854-938 | a key moves the cursor at once, whatever is pending |
| GameMenu.Gui.OpCompleted | src/gui.c:1111-1114 | true exactly of the operations that have run |
| MenuView.UpUndoesDown | src/menusys.c:854-902 | up and down undo each other, across both ends |
| MenuView.DownCycles | src/menusys.c:854-879 | n presses move the cursor n items on, modulo the length |
| MenuView.PagesShowEverything | src/menusys.c:904-920 | paging from the first page brings every item on screen |
| MenuView.KeyKeepsShown | src/menusys.c:821-938 | every key leaves the cursor on screen |
| MenuView.OpKeepsShown | src/gui.c:1137-1213 | so does every operation |
| MenuView.SortedIs | src/gui.c:1190-1203 | sorting is a stable rearrangement and keeps the remembered item under the cursor |
| MenuView.SortedAscends | src/menusys.c:755-794 | titles ascend |
| MenuView.KeySafeIff | src/gui.c:1116-1234 | a key pressed now does what it would do after the pending operations exactly under a condition on the key, the view and the operations |
| MenuView.NothingPending | src/gui.c:1215-1234 | while nothing is pending every key meets that condition |
| MenuView.WhereInOrder | src/gui.c:1190-1203 | items that wait for a sort end in the order of their titles, equal ones in the old order |
| MenuView.HarmlessIff | src/gui.c:1116-1234 | at every moment of a run draining gives the view of immediate application exactly when every key met that condition |
| MenuView.DeferringIsHarmless | src/gui.c:1116-1234 | then the view at the end is the same too |
| MenuView.DeferredListIsSame | src/gui.c:1116-1234 | whenever keys are pressed, the list after draining is the one applying every operation at once would give |
| MenuView.EarlyKey | src/gui.c:1215-1234 | a key pressed while an item waits leaves the cursor elsewhere |
| MenuView.RunKeeps | src/gui.c:1111-1234 | over every run the cursor is on screen and exactly the unrun operations are pending |
| Tar.ParseOctal | src/tar.c:49-59 | the value of the leading octal digits |
| Tar.OctalRoundTrip | src/tar.c:49-59 | octal digits read back as their number |
| Tar.OctalBound | src/tar.c:49-59 | twelve digits stay below 2^36 |
| Tar.CapIsExactIff | src/tar.c:223-311 | where the first member above 4 MiB is a regular file, the index is right exactly when there is none, and otherwise wrong from that one on |
| Tar.LargeFileIsCut | src/tar.c:235-238 | an archive of one file of 4 MiB and one byte is indexed with 4 MiB |
| Tar.ScanMembers | src/tar.c:223-311 | the index of an archive of any members of at most 4 MiB is exactly its regular files, in order, with offset, length and cut name |
| Tar.ExpectedData | src/tar.c:223-311 | every entry leads to the data of its member |
| Tar.LookupFindsMember | src/tar.c:403-462 | a lookup leads to the data of the first member of that name, or there is none |
| TarIndex.TrimTail | src/tar.c:272-288 | only trailing NULs and spaces are cleared |
| TarIndex.ReadName | src/tar.c:266-302 | the name of a header, prefix and all |
| TarIndex.DecodeEntry | src/tar.c:260-306 | a stored entry reads back, whatever its unwritten last byte |
| TarIndex.Index.MakeRoom | src/tar.c:251-258 | growing the buffer keeps every entry |
| TarIndex.Index.Parse | src/tar.c:223-325 | the buffer holds exactly the entries of the archive, or is gone when a header is cut short |
| TarIndex.CacheRoundTrip | src/tar.c:84-183 | a cache is taken for an archive of the same size only, and gives the same entries |
| TarIndex.Index.ReadCache | src/tar.c:84-149 | a cache is loaded exactly when it matches |
| TarIndex.Index.WriteCache | src/tar.c:151-183 | the file written would be loaded for this archive with these entries |
| TarIndex.Index.Load | src/tar.c:185-325 | the entries are those of a cache of matching size, else those of the archive, and then a cache with just these is left for archives of just this size |
| TarIndex.LoadTwice | src/tar.c:84-149 | the index a second start gets from the cache of the first is right exactly when the archive changed its size or kept its entries |
| TarIndex.StaleCache | src/tar.c:123-126 | two archives of one size with different entries |
| TarIndex.Index.Find | src/tar.c:403-423 | the first entry of that name, whatever the case |
| TarIndex.Index.EnsureLoaded | src/tar.c:485-493 | an index with entries is kept, another is loaded |
| TarIndex.Index.Get | src/tar.c:464-481 | the bytes of the first entry of that name, or nothing |
| TarIndex.GetMember | src/tar.c:185-481 | from the archive's bytes through parsing, lookup and reading: the data of the first regular member of that name, or nothing when there is none |
| TarIndex.Read | src/tar.c:425-462 | all of the member's bytes or none, and all of them when no read fails |
| Utf8.ClassIs | include/utf8.h:21-30 | the 256 byte classes of the table |
| Utf8.SuccessorIs | include/utf8.h:31-36 | the 144 transitions of the table |
| Utf8.Decoder.Decode | include/utf8.h:38-49 | one step of the decoder, accumulator included |
| Utf8.CodePoints | src/fntsys.c:579-583 | the code points the rendering loop acts on |
| Utf8.AcceptedIff | include/utf8.h:21-49 | accepted strings are exactly the concatenations of well-formed sequences of section 4 of RFC 3629 |
| Utf8.RejectedIff | include/utf8.h:21-49 | rejection comes exactly when no continuation is well-formed |
| Utf8.RejectStays | include/utf8.h:21-49 | nothing leads out of rejection |
| Utf8.CharAccepted | include/utf8.h:38-49 | a character yields the number of section 3 of RFC 3629 |
| Utf8.EncodeNumber | include/utf8.h:38-49 | sections 3 and 4 agree: every scalar value has a well-formed encoding with its number |
| Utf8.NumberEncode | include/utf8.h:38-49 | every well-formed sequence is the encoding of its number |
| Utf8.DecodeEncode | include/utf8.h:38-49 | decoding inverts encoding for every sequence of scalar values |
| Utf8.EncodeDecode | include/utf8.h:38-49 | encoding inverts decoding for every well-formed string |
| Utf8.SeenOfAnyString | src/fntsys.c:579-583 | of any bytes, the code points seen are those of the longest well-formed prefix |
| SafeReplace.NamesDifferIff | src/config_migration.c:76-82 | path, temporary file and backup are three names exactly up to 253 characters |
| SafeReplace.WriteLibconfig | src/config_migration.c:74-120 | the code passes through exactly the specified states |
| SafeReplace.ReplaceIsSafe | src/config_migration.c:74-120 | at every step, whatever fails, old content at the path or backup or new content at the path; a failure restores the old file when the rename back works |
| SafeReplace.LongPathLoses | src/config_migration.c:76-82 | a course of failures that loses the file, for every longer path |
| SafeReplace.AlwaysSafeIff | src/config_migration.c:74-120 | the old file always survives exactly for paths of at most 253 characters |
| Migration.MigrateOne | src/config_migration.c:737-815 | the body of the loop passes through exactly the specified states and reports whether the file was converted |
| Migration.MigrateAll | src/config_migration.c:696-818 | the loop passes through exactly the specified states and returns the number of files converted |
| Migration.NamesApart | src/config_migration.c:714-728 | the names used for different files never meet, unless a path in place has more than 253 characters |
| Migration.ConvertToKeeps | src/config_migration.c:741-815 | one file survives until its outputs are in place, the others stay as they are, and it is converted when nothing fails |
| Migration.RunIsSafe | src/config_migration.c:696-818 | at every moment of the batch every input holds its content at its path or backup, or it has outputs and they have been in place; settings stay, information stays until another file writes there, originals are kept or gone |
| Migration.BatchSafeIff | src/config_migration.c:714-815 | whatever the files hold and whatever fails, nothing is lost exactly when the devices differ or every path has at most 253 characters |
| Migration.LongPathIsLost | src/config_migration.c:716-800 | for any longer path in place a disk and a course of failures that lose the file |
| Migration.ConvertedIff | src/config_migration.c:716-798 | when nothing fails a file is converted exactly when it has outputs and the path of its settings, if any, has at most 254 characters |
| Migration.RemainIff | src/config_migration.c:768-813 | when nothing fails, a converted file's outputs are there at the end exactly when the last file to write its information wrote the same |
| Migration.InfosMeetIff | src/config_migration.c:719-728 | two files share their information file exactly when their names agree up to the extension, cut to 127 characters |
| Migration.FirstIsOverwritten | src/config_migration.c:719-728 | of `a.cfg` and `a.CFG`, converted without failures, the first ends without its information and without its original |
| Migration.OverwriteFirst | src/config_migration.c:696-818 | the code called on a disk of two such files leaves the information of the second only |
| PlayHistory.Launch | src/OSDHistory.c:186-216 | a launch counts one up to 63 and sets one free bit at each threshold |
| PlayHistory.FreeBit | src/OSDHistory.c:198-204 | a mask that is not full has a free bit for the random search |
| PlayHistory.SetFreeBit | src/OSDHistory.c:198-204 | setting it adds one bit |
| PlayHistory.CountOfLaunches | src/OSDHistory.c:186-216 | after n launches the count is n more, held at 63, and the mask has earned its bits |
| PlayHistory.FoundAgainIff | src/OSDHistory.c:254-258 | a record is found again exactly when its name has at most 15 characters |
| PlayHistory.History.Scan | src/OSDHistory.c:168-218 | records of that name are launched, and otherwise a least launched record is found |
| PlayHistory.History.AddRecord | src/OSDHistory.c:126-264 | known, kept for good, blank slot or evicted least launched record, which goes to history.old; all other slots unchanged |
| PlayHistory.HistoriesAreSound | src/OSDHistory.c:168-264 | every history grown from empty has unique names, counts up to 63 and the masks they earned |

## Left out

- ioEnd and termination: the drain at line 150 of src/ioman.c and the exit tests are not part of this model.
- ioRegisterHandler: only successful registrations, because its error returns keep gProcSemaId taken.
- ioGetPendingRequestCount: it reads the head before locking.
- ioPrintf and the log file: output only.
- Ioprp.PatchImage: images whose table starts at 0, with empty entries before ROMDIR and the three modules after it, names of 1 to 9 characters, sizes below 2^32.
- Atlas.Texture.Place: sizes whose increment overflows size_t are not modelled; the surface size from gsKit_texture_size is assumed to hold all rows.
- Formats with pixel size 0: nothing is drawn, so nothing is claimed about their pixels beyond that.
- ZsoReader.Lz4Decompress: data none of whose prefixes decodes, on which the source's loop never ends.
- ZsoReader.Decompress: inputs on which the stripping loop never ends are outside its contract; the specification calls them Hangs.
- ZsoWriter.CompressPooled: thresholds above 100, where the two paths differ by design.
- Command line, progress printing and the sector table tool of pc/ziso.py.
- GameMenu.Gui.HandleDeferredOps: operations on other menus, hints, icons and selection are one operation without effect on the list.
- submenuRemoveItem: it does not repair prev links, so the list it leaves is not the one modelled here.
- Sound effects, cover animations and drawing.
- TarIndex.Index.ReadCache: caches whose count times entry size leaves an int, where the source's arithmetic wraps, are outside its contract.
- TarIndex.Index.Parse: the 32-bit product of entry count and entry size, which needs millions of entries to wrap, and read errors of the device.
- Tar.CapIsExactIff: archives whose first member above 4 MiB is a directory or another non-file, behind which the parser reads whatever the data of that member holds.
- Tar.ScanMembers: plain octal sizes; GNU base-256 sizes, size fields with leading blanks, and names or prefixes ending in spaces (also after the cut to 255 characters) are left out, because the parser trims or misreads them.
- Choosing a device and a path for an archive (tarLoadFromAnyDevice, tarLoadFile), and the flag that no device has one: the archive's bytes are a parameter.
- fntFitString, layout, kerning and right-to-left text.
- Migration.RunIsSafe: entries whose own path is longer than 255 characters, for which the program acts on the path cut to 255; prefixes longer than the 63 characters src/gui.c keeps; file systems that ignore case or give one directory two prefixes; and directory entries that appear during the batch.
- A previous .info file from before the batch: it is unlinked before the rename, so its survival is not claimed.
- Reading and writing the settings themselves: the legacy reader is a function of the file's content.
- PlayHistory.History.AddRecord: an empty name, which would match a blank slot.
- Which of several least launched records is evicted: the remembered timestamp is not reset when a smaller count is found.
- Finding a memory card, loading and saving the history file.
