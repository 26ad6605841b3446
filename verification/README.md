# Verified model of the process manager and its server headers

The repository is a Windows process manager with a PE viewer, a build-output cleaner and a blacklist
(`ProcessMangerAlpha`), and a small server that bundles the MySQL client headers (`TheVirusServer`). This
project models the parts that are algorithms and proves what they compute. Each module follows one part:

- `RwLock`, `Mutex`: the Win32 lock wrappers, as step machines for any number of threads. Every access to
  the OS object or to the `have_exclusive_srwlock` field is a step of its own, and any schedule is allowed.
  The flag-based lock refines a lock with typed unlocks, and swapping clear and release is shown to break it.
  The header's functions are also methods on a struct, each tied to the steps it makes.
- `Timespec`: deadlines, comparison, difference and remaining time, for both layouts of `struct timespec`.
- `ByteOrder`, `SkipSpace`: the `korr`/`store` family over byte buffers against one little-endian reference,
  and both builds of `skip_trailing_space` against the plain byte loop.
- `PeImage`: a PE file in memory, and the two address translations over its section table. `Layout` says what it
  means that a field, an array or a text lies at an address; `PeFormat` writes the headers of a file and shows that
  the views read them back.
- `Reloc`, `RelocFormat`, `RelocClicks`, `RelocCases`: the relocation view: the walk and the globals it leaves,
  the table format as an encoder that the walk inverts, what a click opens and shows, and files on which that is
  not what it seems meant to be.
- `ExportTable`, `ImportTable`, `ResTable`: the other three PE views; `ExportFormat`, `ImportFormat`, `ResFormat`:
  the layouts of their tables, written from the specification, and what each view shows of a table so written.
- `VsCleaner`, `CleanerRoutes`: the suffix splitter, the recursive directory walk and the deletion loop, and what
  they come to in terms of the routes through the directory tree.
- `Blacklist`: the blacklist counter and the kill loop.
- `Text`, `ListCtrl`, `Words`, `Wrappers`: number formats and their parser, report-view lists, C integers,
  optional values.

Dialogs are classes whose fields are the source's members and file-level globals. Their methods change the
fields in the source's loops and are proved equal to a function of the old state; lemmas then say what that
function means. A list control is a sequence of rows; the OS, the clock, the snapshot of processes and the
directory tree are parameters.

Where the code does not do what it seems meant to do, the model keeps the code, and the statement gives the
exact condition under which it does:

- `rvaTofoa` and `foaTorva` are not inverse in general. Their bodies are `ProcessMangerAlpha/GlobalVals.cpp`,
  lines 6-34 and 37-66; the address calculator calls both. `PeImage.RoundTripInGeneral` says, for any section
  table, which RVAs come back. `PeImage.TranslationRoundTrip` gives the simpler condition that this becomes when
  the sections up to the one found are in linker order. `PeImage.RoundTripCanFail` and
  `PeImage.RoundTripCanBeRefused` are two-section files on which an RVA does not come back.
- A cell printed with `%.8X` is parsed with a signed 32-bit `_tcstol`, which saturates: `Text.HexRoundTrip`,
  `RelocClicks.ClickOpensItsBlock` and `ImportTable.ClickOpensItsTable` hold exactly below 2^31, and
  `RelocCases.PageBelowSectionsOpensNothing` is a file whose block is beyond it. The decimal round trip of
  process ids has no such limit (`Text.DecRoundTrip`): from 2^31 on an id is printed as a negative number and
  read back as itself.
- `getBlocksInfo` inserts row `i` of the block, not of the list. Behind the first entry that is not HIGHLOW a
  row comes in last and its texts go nowhere (`Reloc.BlockLoopMeans`, `RelocClicks.RowsAreTheEntries`, with the file
  of `RelocCases.LateEntryIsLost`).
- The base used for the addresses of a clicked block is a global that keeps the last walked block's page
  (`RelocClicks.ClickShowsLastPage`, with the file of `RelocCases.FirstRowShowsLastPage`).
- `DPMap` and `firstMap` are globals that outlive their dialog, so statements about them start from arbitrary
  earlier contents.
- In the resource tree `operator[]` adds a null entry for a node that is not mapped, and the handler reads
  through it. `ResTable.SafeExactly` says, in any dialog, when no selection does; `ResTable.SafeOnlyForDirectories`
  is the case of the first dialog, and `ResTable.TypeWithoutDirectory` a tree on which one does.
- A double click beside the rows of the process list adds an empty row, which reads as process 0
  (`Blacklist.AddedPid`).
- `set_timespec` and the struct layout's `get_milliseconds` are exact only under the conditions in
  `Timespec.SetTimespec` and `Timespec.StructWaitAtSameClock`. `my_config.h` defines neither
  `HAVE_STRUCT_TIMESPEC` nor a 64-bit `long`, so the Win32 build uses the other layout.

Run `dafny verify dfyconfig.toml` to check the project.

## Model

| member | source | states |
|---|---|---|
| `RwLock.StepKeepsInv` | TheVirusServer/include/thr_rwlock.h:80-138 | every step of every thread, at any point of any lock, trylock or unlock call, keeps the invariant: the SRW lock counts its owners, readers and a writer exclude each other, and the flag is TRUE exactly while an exclusive owner stands between setting and clearing it |
| `RwLock.FlagTold` | TheVirusServer/include/thr_rwlock.h:124-133 | a thread about to test the flag in unlock finds TRUE exactly when it acquired exclusive mode |
| `RwLock.FlagOverEveryRun` | TheVirusServer/include/thr_rwlock.h:59-138 | for any threads and schedule: the flag is up for every writer that returned from its lock call, down whenever there is a shared owner or no owner; two writers, or a writer and a reader, never own the lock together |
| `RwLock.NativeLockRefinesTyped` | TheVirusServer/include/thr_rwlock.h:80-138 | every run of the flag-based lock is a run of a lock with separate read-unlock and write-unlock, in which each unlock releases the mode its thread holds; the SRW lock is never misused |
| `RwLock.RunRefines` | TheVirusServer/include/thr_rwlock.h:80-138 | the refinement from any state that satisfies the invariant |
| `RwLock.OnlyOwnersBlock` | TheVirusServer/include/thr_rwlock.h:80-138 | a step leaves its thread in place exactly when a reader waits for an exclusive owner or a writer for some owner; unlock and the try calls never wait |
| `RwLock.SwappedOrderBreaks` | TheVirusServer/include/thr_rwlock.h:127-131 | with release before clear, some schedule of one writer and one reader releases a mode nobody holds |
| `RwLock.EveryHolderSees` | TheVirusServer/include/thr_rwlock.h:124-138 | in every run, a thread that holds the lock meets the precondition of `Unlock` for the mode it acquired |
| `RwLock.NativeRwLock.constructor` | TheVirusServer/include/thr_rwlock.h:59-64 | initialisation gives the protocol's initial state |
| `RwLock.NativeRwLock.RdLock` | TheVirusServer/include/thr_rwlock.h:80-84 | returns 0 in the state the protocol's steps reach, holding shared mode |
| `RwLock.NativeRwLock.TryRdLock` | TheVirusServer/include/thr_rwlock.h:90-95 | 0 and shared mode exactly when no writer is in, else EBUSY and nothing changed |
| `RwLock.NativeRwLock.WrLock` | TheVirusServer/include/thr_rwlock.h:101-106 | returns 0 in exclusive mode with the flag set, as the protocol's steps do |
| `RwLock.NativeRwLock.TryWrLock` | TheVirusServer/include/thr_rwlock.h:112-118 | 0 and exclusive mode with the flag set exactly on a free lock, else EBUSY and nothing changed |
| `RwLock.NativeRwLock.Unlock` | TheVirusServer/include/thr_rwlock.h:124-134 | releases exactly the mode the caller holds and leaves the flag FALSE, as the protocol's steps do |
| `Mutex.HoldsOverEveryRun` | TheVirusServer/include/thr_mutex.h:85-121 | over every run the critical section is left only by its owner, has at most one owner, and its depth is the owner's holds plus a trylock in progress |
| `Mutex.OwnerUndisturbed` | TheVirusServer/include/thr_mutex.h:85-121 | while a thread owns the mutex, no schedule of the others changes owner, depth or that thread |
| `Mutex.TryLockOutcome` | TheVirusServer/include/thr_mutex.h:95-107 | from any reachable state and with anything interleaved: 0 only from a free mutex, with depth 1; every EBUSY leaves owner and depth as before, at any depth of the caller's own |
| `Mutex.LockOutcome` | TheVirusServer/include/thr_mutex.h:85-89 | in every run a lock waits exactly while another thread owns the mutex, and otherwise leaves the caller the owner, one level deeper than its earlier holds |
| `Mutex.UnlockOutcome` | TheVirusServer/include/thr_mutex.h:113-117 | in every run an unlock finds its caller the owner, undoes one hold, and frees the mutex with the last |
| `Mutex.NativeMutex.Lock` | TheVirusServer/include/thr_mutex.h:85-89 | returns 0 one level deeper, in the state the protocol's steps reach |
| `Mutex.NativeMutex.TryLock` | TheVirusServer/include/thr_mutex.h:95-107 | 0 exactly from a free mutex, and then the caller holds it once; any other answer is EBUSY and leaves the mutex as it was, as the protocol's steps do |
| `Mutex.NativeMutex.Unlock` | TheVirusServer/include/thr_mutex.h:113-117 | leaves one level, freeing the mutex at the last, as the protocol's steps do |
| `ByteOrder.UnsignedLoads` | TheVirusServer/include/byte_order_generic.h:45-76 | the unsigned loads of 2, 3, 4, 5, 6 and 8 bytes are the little-endian values of those bytes |
| `ByteOrder.SignedLoads` | TheVirusServer/include/my_byteorder.h:43-55 | the signed loads of 2, 3 and 4 bytes are the two's complement readings of the unsigned ones; that of 8 bytes is in range and congruent to it |
| `ByteOrder.Int2store` | TheVirusServer/include/byte_order_generic.h:83-88 | writes the little-endian bytes of the value at the position and no other byte |
| `ByteOrder.Int3store` | TheVirusServer/include/my_byteorder.h:89-94 | the same for 3 bytes |
| `ByteOrder.Int4store` | TheVirusServer/include/byte_order_generic.h:90-96 | the same for 4 bytes |
| `ByteOrder.Int5store` | TheVirusServer/include/my_byteorder.h:96-103 | the same for 5 bytes |
| `ByteOrder.Int6store` | TheVirusServer/include/my_byteorder.h:105-113 | the same for 6 bytes |
| `ByteOrder.Int8store` | TheVirusServer/include/byte_order_generic.h:98-104 | two 4-byte stores of the halves are the one 8-byte little-endian store |
| `ByteOrder.LoadOfStore` | TheVirusServer/include/my_byteorder.h:43-113 | for every width, loading a stored value gives it modulo 2^(8N) |
| `ByteOrder.StoreOfLoad` | TheVirusServer/include/my_byteorder.h:43-113 | for every width, storing a loaded value gives the bytes back |
| `ByteOrder.KorrAfterStore` | TheVirusServer/include/my_byteorder.h:57-113 | each unsigned load after the store of its width gives the value modulo 2^(8N) |
| `ByteOrder.FieldAfterStore` | TheVirusServer/include/byte_order_generic.h:83-104 | after a store of any of the widths, the field holds the value modulo 2^(8N) and every other byte is as before |
| `ByteOrder.StoreAfterLoad` | TheVirusServer/include/my_byteorder.h:43-113 | storing what was loaded from a position changes nothing in the buffer |
| `ByteOrder.Sint3RoundTrip` | TheVirusServer/include/my_byteorder.h:43-55 | the signed 3-byte load after the store is congruent to the value modulo 2^24, and the value itself on [-2^23, 2^23) |
| `SkipSpace.TrimEndMeans` | TheVirusServer/include/m_string.h:311-313 | the byte loop's end is the only position with nothing but spaces behind it that is the start or follows another byte |
| `SkipSpace.SkipTrailingSpace` | TheVirusServer/include/m_string.h:321-333 | eight bytes at a time give the same end as the byte loop, for every buffer |
| `SkipSpace.SpaceWordMeans` | TheVirusServer/include/m_string.h:287-293 | a word of 4 or 8 bytes, of either byte order, equals the space mask exactly when every byte is a space |
| `SkipSpace.Zones` | TheVirusServer/include/m_string.h:297-304 | above 20 bytes the two zone bounds are the nearest aligned addresses inside the buffer, no address computation wraps, and the assert holds |
| `SkipSpace.SkipTrailingSpaceAligned` | TheVirusServer/include/m_string.h:284-314 | the three-zone scan gives the same end for every buffer, start address and word size 4 or 8; its word reads are aligned and in bounds |
| `SkipSpace.ScanWords` | TheVirusServer/include/m_string.h:307-309 | the word loop skips only spaces, with aligned reads between the zone bounds |
| `Timespec.SetTimespecNsec` | TheVirusServer/include/my_global.h:711-721 | the deadline is normalised and is 100 * clock + nsec to the nanosecond, short by one turn of the 64-bit tick counter exactly when that wraps |
| `Timespec.SetTimespec` | TheVirusServer/include/my_global.h:735-738 | the deadline is sec seconds after the clock exactly while neither 64-bit computation wraps |
| `Timespec.CmpIsTheOrder` | TheVirusServer/include/my_global.h:747-763 | on normalised values the comparison is the order of total nanoseconds, 0 only for equal values, antisymmetric |
| `Timespec.CmpIsTransitive` | TheVirusServer/include/my_global.h:747-763 | and transitive |
| `Timespec.DiffIsTheDistance` | TheVirusServer/include/my_global.h:765-773 | the difference is that of the instants modulo 2^64, exact exactly for a distance in [0, 2^64) |
| `Timespec.StructWaitAtSameClock` | TheVirusServer/include/thr_cond.h:92-101 | in the struct layout the wait asked at the clock of its setting is the asked milliseconds exactly if no rounding carries and it is under 2^32 ms |
| `Timespec.StructWaitIsNear` | TheVirusServer/include/thr_cond.h:92-101 | at any clock the struct layout's wait is less than a millisecond away from the time left, and 0 once the deadline has passed |
| `Timespec.StructWaitCanCarry` | TheVirusServer/include/thr_cond.h:92-101 | a wait of 100 ns asked just before a whole millisecond comes out as one millisecond |
| `Timespec.SetFtTimespecNsec` | TheVirusServer/include/my_global.h:723-731 | the FILETIME deadline as its 64-bit field holds it, and its timeout, capped at the largest 32-bit long; the ticks are right exactly while the sum fits 63 bits |
| `Timespec.GetMilliseconds` | TheVirusServer/include/thr_cond.h:58-90 | for any stored deadline and clock the clamped, truncated and cast result r satisfies r * 10^4 <= d < (r + 1) * 10^4 for the d ticks left, or is the original timeout when that is smaller, and is 0 when the deadline has passed; 2^32 - 1 only for a null deadline |
| `Timespec.WaitIsExact` | TheVirusServer/include/thr_cond.h:69-90 | a wait for a deadline set at any clock and asked at any other is exactly the whole milliseconds from the clock asked to clock + nsec / 100, up to min(nsec / 10^6, 2^31 - 1) |
| `Timespec.WaitIsTimeLeft` | TheVirusServer/include/thr_cond.h:69-90 | for a deadline set at any clock, stored wrapped or not, the wait is the time left to the deadline meant; only 2^63 ticks ahead or more it is 0 |
| `Timespec.WaitAtAnyClock` | TheVirusServer/include/thr_cond.h:69-90 | at the clock of its setting, or one set back, the wait is exactly min(nsec / 10^6, 2^31 - 1); at any clock less than 2^63 ticks before the deadline it lies in [0, that], never grows as time passes, and is 0 exactly when under a millisecond is left or was asked for |
| `Text.HexRoundTrip` | ProcessMangerAlpha/CRelocDialog.cpp:101-129 | a %.nX cell parsed in base 16 gives the value back exactly up to 2^31 - 1, above that it saturates |
| `Text.HexSaturates` | ProcessMangerAlpha/CRelocDialog.cpp:101-129 | the cell of 0x80000000 reads as 0x7FFFFFFF |
| `Text.Formats` | ProcessMangerAlpha/CRelocDialog.cpp:96-108 | the texts of the five formats on examples: padded and longer hex, positive and negative decimals, the entry count, and the ordinal |
| `Text.NoExtraZeros` | ProcessMangerAlpha/CRelocDialog.cpp:96-108 | a number longer than its width does not start with 0; with value, length and digits that fixes every printed number |
| `Text.Parses` | ProcessMangerAlpha/CRelocDialog.cpp:128-129 | what _tcstol skips and where it stops: blanks, signs, 0x in base 16, letters of either case, the first character that is no digit |
| `Text.CutToRange` | ProcessMangerAlpha/CRelocDialog.cpp:128-129 | every printed number, with or without a minus sign, is read back as itself or as the nearest 32-bit long |
| `Text.DecRoundTrip` | ProcessMangerAlpha/CBlacklistDialog.cpp:104-136 | a process id printed with %d and parsed in base 10 into a DWORD is itself, for all 2^32 ids |
| `ListCtrl.PutRow` | ProcessMangerAlpha/CRelocDialog.cpp:110-114 | inserting at an index and setting the texts gives one filled row there; past the end the row comes in last and empty |
| `ListCtrl.SplitConserves` | ProcessMangerAlpha/CVSCleanerDialog.cpp:175-184 | the rows kept and the rows removed are together the rows of the list; the marked ones are those removed |
| `ListCtrl.SplitInOrder` | ProcessMangerAlpha/CVSCleanerDialog.cpp:175-184 | the rows kept are exactly those neither selected nor checked and the rows removed exactly the others, each by increasing row number |
| `ListCtrl.RemoveStep` | ProcessMangerAlpha/CVSCleanerDialog.cpp:175-184 | working backward, deleting a row renumbers none of the rows still to be looked at |
| `PeImage.RvaTofoa` | ProcessMangerAlpha/CAddCalcDialog.cpp:147-155 | the translation called here (its body is GlobalVals.cpp, lines 6-34): the scan of the section headers finds the first section that reaches up to the RVA, refuses an RVA below a section's start, and otherwise falls off the end; the section name changes only when one is found |
| `PeImage.FoaTorva` | ProcessMangerAlpha/CAddCalcDialog.cpp:172-181 | the way back called here (GlobalVals.cpp, lines 37-66), with its comparison of a file offset against an end in memory |
| `PeImage.FoaMeans` | ProcessMangerAlpha/CAddCalcDialog.cpp:151-152 | if no section end wraps, the RVA goes to the first section that reaches it exactly when that section starts at or before it, and at the same distance into its raw data unless that wraps (GlobalVals.cpp, lines 19-33) |
| `PeImage.TranslationMeans` | ProcessMangerAlpha/CAddCalcDialog.cpp:151-155 | what the translation returns and which section name it leaves: the first section not ending below the RVA decides, by pointerToRawData + RVA - virtualAddress modulo 2^32, or refuses with -1 and the name as it was (GlobalVals.cpp, lines 6-34) |
| `PeImage.BackMeans` | ProcessMangerAlpha/CAddCalcDialog.cpp:172-180 | what the way back returns and which section name it leaves: refused below the first header's raw data, otherwise by the first section that starts in the file at or before the offset and ends in memory at or behind it (GlobalVals.cpp, lines 37-66) |
| `PeFormat.DirectoryRead` | ProcessMangerAlpha/CRelocDialog.cpp:82-88 | in a file whose headers are written out field by field, every data directory is read back |
| `PeFormat.SectionRead` | ProcessMangerAlpha/CAddCalcDialog.cpp:147-155 | and so are the number of sections and, for each, address, size, file pointer and name (read in GlobalVals.cpp, lines 8-22) |
| `PeFormat.LoadedFile` | ProcessMangerAlpha/CAddCalcDialog.cpp:147-155 | so the section table that the translations scan is the one written |
| `PeImage.RoundTripInGeneral` | ProcessMangerAlpha/CAddCalcDialog.cpp:147-175 | for any section table: a translated RVA comes back exactly when its offset is not below the first header's raw data and the first section to claim the offset has the same shift, modulo 2^32, as the one the RVA was translated by (GlobalVals.cpp, lines 19-65) |
| `PeImage.RoundTripExactly` | ProcessMangerAlpha/CAddCalcDialog.cpp:147-175 | with the sections up to the one found in linker order, the scan back is exact when every earlier section whose end in memory is not below the file offset is shifted by the same amount, and only then (GlobalVals.cpp, lines 54-63) |
| `PeImage.TranslationRoundTrip` | ProcessMangerAlpha/CAddCalcDialog.cpp:147-175 | the same for the two functions on a whole file; later sections may lie anywhere |
| `PeImage.RoundTripCanFail` | ProcessMangerAlpha/CAddCalcDialog.cpp:147-175 | a file in linker order on which an RVA comes back as another one (GlobalVals.cpp, lines 54-61) |
| `PeImage.RoundTripCanBeRefused` | ProcessMangerAlpha/CAddCalcDialog.cpp:172-175 | a file on which the way back refuses the offset of a translated RVA although its scan would find it (GlobalVals.cpp, lines 48-51) |
| `Reloc.WalkMeans` | ProcessMangerAlpha/CRelocDialog.cpp:92-118 | the walk appends one row per visited block in order, maps every page offset to its last block, and leaves the globals at the last block |
| `Reloc.RelocDialog.GetRelocTableInfo` | ProcessMangerAlpha/CRelocDialog.cpp:78-119 | the loop leaves list, map and globals as that walk from directory 5 to the first zero size |
| `Reloc.RelocDialog.GetBlocksInfo` | ProcessMangerAlpha/CRelocDialog.cpp:138-166 | the list of a block is its leading HIGHLOW entries with their texts, then one empty row per later HIGHLOW entry |
| `Reloc.BlockLoopMeans` | ProcessMangerAlpha/CRelocDialog.cpp:144-165 | inserting each HIGHLOW entry at its own number comes to that |
| `Reloc.RelocDialog.OnClickList1` | ProcessMangerAlpha/CRelocDialog.cpp:122-135 | shows the block the map holds for the parsed cell, adds a null entry for a missing key, and touches nothing else |
| `RelocFormat.WalkInvertsEncoding` | ProcessMangerAlpha/CRelocDialog.cpp:17-118 | on the encoding of any list of blocks, closed by a zero size, the walk ends after exactly those blocks, visits them at the prefix sums of their sizes, and reads back each page, count and (type, offset) entry |
| `RelocClicks.VisitsOnce` | ProcessMangerAlpha/CRelocDialog.cpp:93-118 | a walk that ends visits no block twice |
| `RelocClicks.MapHit` | ProcessMangerAlpha/CRelocDialog.cpp:103 | after the walk the map holds for a page offset the last block that has it |
| `RelocClicks.SameCellSameOffset` | ProcessMangerAlpha/CRelocDialog.cpp:99-113 | two rows show the same page cell exactly if their pages have the same file offset |
| `RelocClicks.ClickOpensItsBlock` | ProcessMangerAlpha/CRelocDialog.cpp:99-131 | a click on row r opens row r's block exactly when its page offset is below 2^31 and no later block has it, or an earlier dialog left this block under the saturated key and no block replaced it |
| `RelocClicks.RowsAreTheEntries` | ProcessMangerAlpha/CRelocDialog.cpp:144-165 | the rows are all HIGHLOW entries in order exactly when none stands behind an entry of another type |
| `RelocClicks.RowAddresses` | ProcessMangerAlpha/CRelocDialog.cpp:148-155 | every shown RVA is within 4096 of the base, RVA minus file offset is the same for all entries, and the far address is the RVA moved by the buffer's address |
| `RelocClicks.RowShows` | ProcessMangerAlpha/CRelocDialog.cpp:145-164 | the six texts of a shown entry: number, RVA, file offset, type, far address, and the DWORD that lies in memory where the file offset leads |
| `RelocClicks.SectionNameAt` | ProcessMangerAlpha/CRelocDialog.cpp:99-112 | a block's row shows the name of the section its page lies in; for a page in none, the name of the row above |
| `RelocClicks.ClickShowsLastPage` | ProcessMangerAlpha/CRelocDialog.cpp:97-155 | the clicked block's rows show RVAs and far addresses of its own page exactly when that is the last walked block's page, and its own file offsets exactly when the two pages have the same one; then the data shown is its own too |
| `RelocCases.FileExists` | ProcessMangerAlpha/CRelocDialog.cpp:80-91 | for every relocation table there is a file of one section whose directory 5 leads to it |
| `RelocCases.LateEntryIsLost` | ProcessMangerAlpha/CRelocDialog.cpp:144-165 | on a block with an entry of type 10 before a HIGHLOW one, the HIGHLOW entry is not shown |
| `RelocCases.FirstRowShowsLastPage` | ProcessMangerAlpha/CRelocDialog.cpp:97-149 | on a file with pages 0x2000 and 0x3000, the entry at 0x2008 is shown at 0x3008 |
| `RelocCases.PageBelowSectionsOpensNothing` | ProcessMangerAlpha/CRelocDialog.cpp:99-130 | a block whose page lies below the first section is not opened by a click on its row |
| `RelocCases.SamePageOpensTheLater` | ProcessMangerAlpha/CRelocDialog.cpp:103-130 | of two blocks for one page, a click on the first row does not open the first |
| `ExportTable.ExportTableDialog.GetExportTableInfo` | ProcessMangerAlpha/CExportTableDialog.cpp:77-180 | the loops over the tables behind directory 0 leave the rows that `JoinIsExact` describes |
| `ExportTable.ExportTableDialog.JoinFunction` | ProcessMangerAlpha/CExportTableDialog.cpp:141-177 | the inner loop and its two branches give the row of the first selecting name, or of none |
| `ExportTable.ExportedExactly` | ProcessMangerAlpha/CExportTableDialog.cpp:136-139 | the functions shown are exactly the nonzero ones, in increasing order, once each |
| `ExportTable.NamedByTheFirst` | ProcessMangerAlpha/CExportTableDialog.cpp:141-163 | a row is named exactly if some name selects its function, and then by the first such name |
| `ExportTable.JoinIsExact` | ProcessMangerAlpha/CExportTableDialog.cpp:134-178 | one row per nonzero function in order: index + base modulo 2^32, its RVA, its file offset, and the name at the first position that selects it, or dashes; each name with a valid ordinal of a nonzero function has a row, under it or an earlier name of the same function |
| `ExportFormat.ExportsRead` | ProcessMangerAlpha/CExportTableDialog.cpp:86-145 | from an export directory and tables written out in memory, the view reads back the ordinal base, the functions, the ordinals and the names |
| `ImportTable.ImportTableDialog.GetImportTableInfo` | ProcessMangerAlpha/CImportTableDialog.cpp:71-125 | one row per descriptor up to the first without a name |
| `ImportFormat.ModulesWalk` | ProcessMangerAlpha/CImportTableDialog.cpp:80-88 | on descriptors written out in memory, closed by one without a name, the walk ends there |
| `ImportFormat.ModuleShown` | ProcessMangerAlpha/CImportTableDialog.cpp:88-121 | and row i shows module i: its name and the five fields of its descriptor in the order of the columns |
| `ImportTable.ImportTableDialog.GetFuncInfo` | ProcessMangerAlpha/CImportTableDialog.cpp:143-189 | one row per thunk up to the first zero word, from three cursors advanced together |
| `ImportTable.Lockstep` | ProcessMangerAlpha/CImportTableDialog.cpp:150-187 | after any number of turns the word at the file offset is the one under the pointer, although the offsets wrap |
| `ImportTable.ThunkRowsMean` | ProcessMangerAlpha/CImportTableDialog.cpp:150-187 | row i shows RVA0 + 4i, its file offset + 4i and word i; it is of the ordinal kind exactly if bit 31 is set, and then ordinal + 2^31 is the word |
| `ImportFormat.ThunksWalk` | ProcessMangerAlpha/CImportTableDialog.cpp:146-150 | on an address table written out in memory, closed by a zero, the walk ends there |
| `ImportFormat.OrdinalShown` | ProcessMangerAlpha/CImportTableDialog.cpp:150-184 | the row of an import by ordinal: its RVA, file offset and word, dashes, and the ordinal below the top bit |
| `ImportFormat.NameShown` | ProcessMangerAlpha/CImportTableDialog.cpp:150-174 | the row of an import by name: the same, and the hint and name that lie where the word leads |
| `ImportTable.LengthIsUnique` | ProcessMangerAlpha/CImportTableDialog.cpp:150 | the number of rows is determined by the table |
| `ImportTable.ImportTableDialog.OnClickList1` | ProcessMangerAlpha/CImportTableDialog.cpp:129-140 | replaces the function list by the table the clicked row's FirstThunk cell parses to |
| `ImportTable.ClickOpensItsTable` | ProcessMangerAlpha/CImportTableDialog.cpp:120-138 | which is that module's own exactly below 2^31 |
| `ResTable.ResTableDialog.GetResTableInfo` | ProcessMangerAlpha/CResTableDialog.cpp:78-167 | the nested pointer walks fill tree and map with the branches of the two directory levels |
| `ResTable.TypeNames` | ProcessMangerAlpha/CResTableDialog.cpp:109-126 | the caption of every type number |
| `ResFormat.RootFound` | ProcessMangerAlpha/CResTableDialog.cpp:87-92 | data directory 2 leads to the root |
| `ResFormat.TreeRead` | ProcessMangerAlpha/CResTableDialog.cpp:93-165 | on a three-level tree written out in memory the view finds one branch for each root entry, named or numbered, in table order, and below it exactly that directory's entries, each with its caption, kind and target |
| `ResFormat.LeafNode` | ProcessMangerAlpha/CResTableDialog.cpp:134-161 | so the node of entry j of type i stands under that type with its own caption, and both are mapped to where their directories lie |
| `ResFormat.SampleTreeExists` | ProcessMangerAlpha/CResTableDialog.cpp:87-165 | a memory that holds such a tree |
| `ResTable.RootShape` | ProcessMangerAlpha/CResTableDialog.cpp:99-134 | root i is entry i of the first level, behind the earlier roots and their leaves, and is mapped to its own second-level directory |
| `ResTable.LeafShape` | ProcessMangerAlpha/CResTableDialog.cpp:135-161 | leaf j below root i is entry j of that directory, with that root as parent, mapped to its own third-level directory |
| `ResTable.Locate` | ProcessMangerAlpha/CResTableDialog.cpp:99-165 | there are no other nodes: every handle is a root or a leaf of these |
| `ResTable.NodeCount` | ProcessMangerAlpha/CResTableDialog.cpp:99-165 | the tree has as many nodes as the two levels have entries |
| `ResTable.ResTableDialog.OnSelchangedTree1` | ProcessMangerAlpha/CResTableDialog.cpp:170-195 | reads the counts of a root's own directory, or of a leaf's parent together with the leaf's data; fails exactly where it reads through null |
| `ResTable.ResTableDialog.GetDataEntryInfo` | ProcessMangerAlpha/CResTableDialog.cpp:198-210 | shows RVA, file offset and size of the first data entry of the leaf's own third-level directory |
| `ResFormat.DataRead` | ProcessMangerAlpha/CResTableDialog.cpp:202-208 | the data entry that a third-level directory's first entry leads to is read back as the address and size written |
| `ResFormat.LeafShowsItsData` | ProcessMangerAlpha/CResTableDialog.cpp:186-208 | so every leaf shows the counts of the directory above it and its own data's RVA, file offset and size |
| `ResTable.RunIsEachSafe` | ProcessMangerAlpha/CResTableDialog.cpp:170-210 | the null entries that selections add change no later selection: a run is safe exactly if each selection is |
| `ResTable.SelectionsAreSafe` | ProcessMangerAlpha/CResTableDialog.cpp:99-210 | on a tree whose first two levels are directories, every run of selections reads only mapped, non-null entries, whatever was left in the map |
| `ResTable.SafeExactly` | ProcessMangerAlpha/CResTableDialog.cpp:126-210 | whatever earlier dialogs left in the map: no selection reads through null exactly if every entry of the first two levels is a directory not at null, or has a handle under which an earlier dialog left one |
| `ResTable.SafeOnlyForDirectories` | ProcessMangerAlpha/CResTableDialog.cpp:126-210 | in the first dialog no selection reads through null exactly if both levels are directories |
| `ResTable.TypeWithoutDirectory` | ProcessMangerAlpha/CResTableDialog.cpp:126-177 | on a tree of one type that is no directory, selecting it fails in the first dialog and may succeed in a later one |
| `VsCleaner.VsCleanerDialog.OnBnClickedButton6` | ProcessMangerAlpha/CVSCleanerDialog.cpp:86-99 | the destructive loop ends and leaves the split of the text: the suffixes and what stands after the last backslash |
| `VsCleaner.JoinedSplit` | ProcessMangerAlpha/CVSCleanerDialog.cpp:86-99 | printing the split rebuilds the text, and no part holds a backslash |
| `VsCleaner.SplitJoined` | ProcessMangerAlpha/CVSCleanerDialog.cpp:86-99 | splitting a printed list of suffixes without backslashes gives the list back |
| `VsCleaner.VsCleanerDialog.EnumFilesPostfix` | ProcessMangerAlpha/CVSCleanerDialog.cpp:110-162 | the recursion, with an index of each call's own into the shared list, equals the entry-by-entry walk |
| `VsCleaner.WalkConserves` | ProcessMangerAlpha/CVSCleanerDialog.cpp:110-162 | for every finite tree the rows are the earlier rows plus exactly the expected ones, no index passes the end of the list, and there is one warning per directory that cannot be listed |
| `CleanerRoutes.OneRowPerFile` | ProcessMangerAlpha/CVSCleanerDialog.cpp:128-153 | the expected rows are one for each matching file: row k belongs to route k, the routes are all different, and they are exactly the routes to matching files |
| `CleanerRoutes.RowsAreReached` | ProcessMangerAlpha/CVSCleanerDialog.cpp:135-153 | row k shows the name of the file at the end of route k, and the start of the walk followed by a backslash and the name of each entry on the route |
| `CleanerRoutes.RoutesDiffer` | ProcessMangerAlpha/CVSCleanerDialog.cpp:126-159 | no two rows belong to the same route, at any depth |
| `CleanerRoutes.RoutesExactly` | ProcessMangerAlpha/CVSCleanerDialog.cpp:128-148 | the routes are exactly those on which no entry is hidden, "." or "..", all but the last are directories, and the last is a matching file, or a directory that cannot be listed |
| `CleanerRoutes.OneWarningPerDirectory` | ProcessMangerAlpha/CVSCleanerDialog.cpp:119-123 | the warnings are one for each directory reached that cannot be listed |
| `CleanerRoutes.WalkKeepsOrder` | ProcessMangerAlpha/CVSCleanerDialog.cpp:125-154 | wherever nested calls insert, the rows already in the list keep their order |
| `CleanerRoutes.WalkInFront` | ProcessMangerAlpha/CVSCleanerDialog.cpp:125-154 | each call puts its rows in front of all earlier ones, in the order of a list of their own, whatever index its caller is at |
| `CleanerRoutes.FlatFolder` | ProcessMangerAlpha/CVSCleanerDialog.cpp:125-154 | a folder without subfolders lists its matching files in the order they are found |
| `VsCleaner.MatchesAnywhere` | ProcessMangerAlpha/CVSCleanerDialog.cpp:147-148 | a name matches exactly if some suffix text occurs anywhere in it |
| `VsCleaner.VsCleanerDialog.OnBnClickedButton3` | ProcessMangerAlpha/CVSCleanerDialog.cpp:102-107 | after a scan the list holds exactly the expected rows |
| `VsCleaner.VsCleanerDialog.OnBnClickedButton4` | ProcessMangerAlpha/CVSCleanerDialog.cpp:172-186 | the backward loop leaves the unmarked rows and deletes the second texts of the marked ones, last first; `ScanThenDelete` says which files those are |
| `CleanerRoutes.ScanThenDelete` | ProcessMangerAlpha/CVSCleanerDialog.cpp:102-186 | after a scan, whatever rows are then marked: the rows stand for the matching files, one for each route, and exactly the files of the marked rows are deleted, each by its path along its route, the last row first |
| `Blacklist.BlacklistDialog.BLProcess` | ProcessMangerAlpha/CBlacklistDialog.cpp:118-144 | the process list is one row per process of the snapshot, in order: the id as a signed decimal, and the executable |
| `Blacklist.BlacklistDialog.OnDblclkList2` | ProcessMangerAlpha/CBlacklistDialog.cpp:147-159 | appends one unmarked row with the clicked row's two texts and keeps the counter equal to the number of rows |
| `Blacklist.BlacklistDialog.OnBnClickedButton2` | ProcessMangerAlpha/CBlacklistDialog.cpp:75-86 | leaves exactly the unmarked rows in order and the counter equal to their number |
| `Blacklist.AddedPid` | ProcessMangerAlpha/CBlacklistDialog.cpp:104-156 | a picked row shows the executable and reads back as the process id over the whole range; a double click on nothing gives an empty row that reads as process 0 |
| `Blacklist.StepRefines` | ProcessMangerAlpha/CBlacklistDialog.cpp:75-159 | each action on rows of text is the same action on a list of process ids |
| `Blacklist.RunRefines` | ProcessMangerAlpha/CBlacklistDialog.cpp:75-159 | over every run of double clicks, marks and removals the counter is the number of rows, which read as the processes picked and not removed |
| `Blacklist.BlacklistDialog.OnBnClickedButton3` | ProcessMangerAlpha/CBlacklistDialog.cpp:89-115 | terminates, per process of the snapshot in order, once for each row that reads as its id |
| `Blacklist.KillsExactly` | ProcessMangerAlpha/CBlacklistDialog.cpp:100-112 | an id is terminated exactly if it is in the snapshot and on the list |
| `Blacklist.KillCount` | ProcessMangerAlpha/CBlacklistDialog.cpp:100-112 | how often: for an id, the times it is in the snapshot multiplied by the rows that have it |
| `Blacklist.KilledByRows` | ProcessMangerAlpha/CBlacklistDialog.cpp:100-112 | the same in terms of the texts: an id is terminated exactly if some process has it and the first text of some row reads as it in base 10 |
| `Blacklist.KilledIffPicked` | ProcessMangerAlpha/CBlacklistDialog.cpp:75-159 | after any run, a process of the snapshot is terminated exactly if it was picked and not removed |
| `Blacklist.PickedIsKilled` | ProcessMangerAlpha/CBlacklistDialog.cpp:89-159 | whatever was done before, a running process that is double-clicked is terminated |

## Left out

- Reloc.RelocDialog.GetRelocTableInfo: requires that the chain of block sizes meets a zero; on any other memory the source's loop does not end.
- ImportTable.ImportTableDialog.GetImportTableInfo: requires a closing descriptor inside the memory, since the source reads on past it.
- ImportTable.ImportTableDialog.GetFuncInfo: requires a closing zero word inside the memory, likewise.
- PeImage.RvaTofoa: the value returned after the end of the function without a return statement is an arbitrary one per argument; the message box is not modelled.
- PeImage.Load: a read past the end of the memory gives 0 where the process would crash, and surrogate halves in resource names are shown as '?'; code pages are not modelled.
- ResTable.ResTableDialog.GetResTableInfo: tree handles are numbered by insertion; that a handle may be one an earlier dialog used is covered by the arbitrary earlier map.
- VsCleaner.VsCleanerDialog.EnumFilesPostfix: the directory tree is finite and does not change during the walk; junction cycles are not modelled.
- Blacklist.BlacklistDialog.OnBnClickedButton3: says which ids are passed to TerminateProcess, not whether the OS ends the process; the message boxes are not modelled.
- Timespec.SetTimespecNsec: the clamp for a `time_t` narrower than `long long` is not modelled, since `my_config.h` sets 8 bytes.
- Timespec.GetMilliseconds: takes the timeout field as set_timespec_nsec stores it, from 0 to 2^31 - 1.
- RwLock.NativeRwLock.TryRdLock: fails only for a writer; a spurious failure of the OS primitive is not modelled. Memory is sequentially consistent.
- Timespec.CmpIsTheOrder: covers the layout with seconds and nanoseconds; in the other layout comparison and difference are one comparison and one subtraction.
- The x86 forms of the loads, the floating-point accessors and the pthread branches: the platform defines them.
- `rw_pr_*`, IO_CACHE and the other MySQL declarations: they have no bodies in the headers.
- The scanners in CAllKillingDialog.cpp and CByPathKillingDialog.cpp: the event meant to guard their row index is never created, so the code does not decide where rows go; their deletion loop is the cleaner's.
- CFilesDialog.cpp: the cleaner's walk with icons and times.
- The rest of the address calculator, the PE header pages and the edit boxes of the export view: they only print fields.
- The server loop, sockets, SQL calls, encryption, services, registry, process, thread and module snapshots, windows and menus: input and output.
