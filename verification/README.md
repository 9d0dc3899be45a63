# A verified model of gridfs-fuse

gridfs-fuse is a FUSE file system on top of MongoDB's GridFS, which keeps versions of named files cut into chunks, with
memcached beside it as a cache of file attributes. This project models five linked parts of it in Dafny, and proves that
together they behave like a plain map from paths to metadata and bytes:

- open files: lazily loaded versions, the growing write buffer, publishing on release, and the chunked read with its C
  casts and its one-chunk cache (`Chunks`, `ChunkRead`, `Handles`, `OpenFile`, `ConcurrentRead`);
- the metadata text kept in a version's contentType: printer and strtok/atoi parser (`Decimal`, `ContentType`);
- directory queries by an escaped regular expression, proved against a matcher for the part of PCRE the queries use
  (`Regex`, `PathRegex`, `Directory`);
- the attribute cache, one call at a time and with concurrent callers (`FuseSpec`, `FuseOps`, `ConcurrentCache`,
  `CacheSteps`);
- the list of memcached servers below `/proc/instances` (`Paths`, `ProcServers`).

## How it is built

The objects the program updates in place are classes: `Entries.Mongo`, `Entries.Memcache`, `Entries.FilesystemEntry`,
`OpenFile.File`, `FuseOps.Fuse`, `ProcServers.Proc` and `ProcServers.Master`. `FuseOps` has the callbacks with their proc
branches. Each of their methods has the loops and
branches of the code, and its `ensures` equates the new state and the result with a function on values (`GridStore`,
`Handles`, `FuseSpec`, `ContentType`, `Directory`). `Refinement` proves that runs of those functions simulate `FlatSpec`,
a map with no versions, chunks or caches. `Theorems` and `Tree` draw the consequences for every run,
and `Numbers` says what single calls answer without naming any of the model's own functions. Concurrency is
modelled as state machines over the steps of any number of threads; one thread that is not interrupted is proved to compute
the sequential functions.

Two choices follow the build and the driver. `Config.asserts` says whether `assert` is compiled in: the default build type
is Release, where `open` no longer loads the version that its assert looks at (`src/filesystem_operations.cpp:368`), so an open file
shows the version at its first read; the results hold for both settings. The asserts of the inner read are always
modelled, because where one of them fails the copy would leave the chunk anyway. `Config.missingThrows` says whether the
driver throws when a grid file that does not exist is asked for a field; the results hold either way.

## Where the code does less than its surroundings expect

Where a natural claim fails, the code is kept as it is and the exact condition under which the claim holds, or a
counterexample, is proved.

- A read uses `(int)` casts of file positions. For a file of a given length it is right for all contents exactly when no
  piece of it starts at or beyond 2^31, so always for files of at most 2^31 bytes (`ReadRightIffAddressable`).
- The metadata text round-trips exactly for values that fit an `int`. After a `chown` that passes `(uid_t) -1` for an id it
  should leave alone, or a time from 2038 on, the path has no defined attributes (`RoundTripIffInRange`,
  `ChangeReadableIff`). Such calls are part of the runs the refinement covers; it is calls that parse the text afterwards
  that are not.
- `pathregex` leaves braces alone. The query for a directory is exact if and only if no braces in its path read as a
  counted repeat such as `{2}` (`CountedIff`); other braces do no harm (`QueryExactIffNoRepeat`). With one such repeat it is
  another directory's children that are found (`CountedPathMatches`), so that rmdir of `/d{2}` removes it although it is not
  empty (`CountedRmdirExample`). The same condition decides whether
  `isEmpty`, and with it `rmdir`, and the listing are right on every store (`EmptyRightIff`, `ListingRightIff`).
- `mkdir` neither checks for existence nor drops cached attributes; `MkdirCoherentIff` says exactly when that is harmless.
- The concurrent cache can keep a stale value for ever, because a getattr may fill in what it read before another caller's
  write and delete (`CrossedWindowGoesStale`). A store write leaves a coherent path safe for good if and only if every
  getattr caught between its read and its fill carries exactly what was written and, for a create, which never deletes,
  nothing else is cached unless somebody owes a delete (`WriteSafeIff`, `StaysGoodIffSettled`). The second part matters when
  two creates of a path both find nothing (`RacedCreateGoesStale`).
- `release` stores the buffer under the metadata of the handle's own snapshot. It leaves a path's metadata as it was if and
  only if it publishes nothing or the snapshot has the current metadata (`ReleaseKeepsMetaIff`); `ChmodLost` is a run that
  loses a chmod.
- `release` also recreates a file whose path was removed meanwhile. The tree is right after any run of calls the kernel makes
  as long as no such release happens (`TreeClosed`); `StepKeepsTreeIff` gives, call by call, the exact condition under which
  every path keeps a live directory as its parent.
- `store` zeroes `theWritten` before it copies it to `theFileLength`, which is then right if and only if nothing was written
  (`RememberedLengthIff`). A later read on the same object asks the snapshot for its length again, and gives the published
  bytes if and only if the snapshot had the same (`SameObjectReadsIff`). The end-to-end result therefore reads through a
  fresh handle.
- `create` on a proc path succeeds and hands nothing to the kernel, so that the release, read or write that follows
  dereferences a null handle. Calls after a successful create are defined if and only if the path is outside proc
  (`CreateUsableIff`, `CreatedServerCrashes`).
- `createRootDir` looks for the prefix as configured but creates the directory without a trailing slash, so a prefix ending
  in `/` gets one more root version on every mount (`RemountIffNoSlash`).
- A memcached port is stored in 16 bits, so the duplicate check misses ports outside 1..65535; ports that do not fit an
  `int` are undefined (`KeepsDistinctIffHarmless`, `WrappedPortDuplicates`).
- `Proc::create` cuts the path at a fixed length without looking at its kind, so every directory with a name as long as
  `instances` adds servers too (`OtherDirectoryAdds`); `AddsNothingIff` says which paths add none.
- After its path is removed, an open file's reads go on as long as they stay inside the cached chunk, and fail otherwise
  (`ReadDetermined`, `NeedsIff`, `GoneFails`).
- `[^/]*` matches the empty name; the listing result states this by quantifying over all slash-free names, the empty one
  included. The kernel never makes such a path.

## Assumptions about what lies outside

- `storeFile`, `findFile`, `removeFile` and `update` are single atomic steps; `findFile` returns the newest upload, ids are
  fresh and upload order is strict. Chunk sizes are the configured one and lie below 2^31.
- Asking a missing grid file for a field either throws (the caller then sees EIO), or gives 0 for the length and the chunk
  size and nothing defined for the content type; `Config.missingThrows` chooses. In the second case a release of changes
  that have no version to take the metadata from is left out of the runs covered.
- memcached keeps or drops entries; it never invents one.
- The kernel calls `mkdir` on absent paths only, and `open` on existing ones when asserts are compiled in. It does not use
  what `create` or `open` leave behind when they fail.
- In the runs the refinement covers, calls that parse a path's metadata (getattr, chmod, chown, utimens) find values that
  fit an `int`; readdir and rmdir are on paths without counted repeats; getattr and readdir on proc paths are on those that
  have a kind; ports handed to proc fit an `int`; nothing is called on the null handle of a create on a proc path; open proc
  files are read, written or listed only without asserts. The
  exact conditions above say what happens otherwise. A run that comes to an unspecified reply, which only a read that
  reaches 2^31 gives, says nothing from there on (`RunDefined`).
- For the tree: new paths go to a live directory, unlink is for what is not a directory, and chmod keeps the file type
  (`Tree.Vfs`).
- A `char` is one byte.

## Model

| member | source | states |
|---|---|---|
| Chunks.ConcatSplit | src/file.cpp:81 | the chunks a stored file is cut into, put back together, are its bytes, for every chunk size |
| Chunks.SliceOfChunk | src/file.cpp:161-164 | a byte range inside one chunk is the corresponding range of the whole file |
| ChunkRead.AddressExact | src/file.cpp:107-110 | the cast division and remainder give the right chunk and offset if and only if the position is below 2^31 |
| ChunkRead.OffsetInChunk | src/file.cpp:107-110 | for every position, chunk number and offset recombine to the position as the int cast sees it, and the offset's magnitude stays below the chunk size |
| ChunkRead.PieceClips | src/file.cpp:108-114 | the two clipping rules together end a piece at the first of the request's, the file's and the chunk's end |
| ChunkRead.PieceFits | src/file.cpp:140-167 | a piece inside one chunk passes the three asserts, returns that chunk's bytes, and asks the store only if the cache holds another chunk |
| ChunkRead.LoopIsSlice | src/file.cpp:105-120 | from any piece start the loop returns the flat slice, and has asked the store for the remaining chunk numbers once each, in order, leaving out the cached one |
| ChunkRead.LoopKeepsCache | src/file.cpp:105-120 | at any offset, even beyond 2^31 and on failures, the cached chunk stays the one its number says |
| ChunkRead.ReadIsSlice | src/file.cpp:88-121 | a read returns exactly the flat slice, empty past the end; with the chunks gone it fails exactly if it needs a chunk other than the cached one, and never returns other bytes |
| ChunkRead.NeedsIff | src/file.cpp:154-159 | a read needs the store if and only if its range is not empty and not all inside the cached chunk |
| ChunkRead.GoneFails | src/file.cpp:154-159 | the first read of any byte fails once the chunks are gone, and succeeds before |
| ChunkRead.SmallFilesAddressable | src/file.cpp:88-121 | every read of a file of at most 2^31 bytes is in the range where reads are right |
| ChunkRead.ReadRightIffAddressable | src/file.cpp:88-121 | for a given length, chunk size, offset and size: a read is right for all contents if and only if no piece starts at or beyond 2^31 |
| ChunkRead.SequentialReadsFetchOnce | src/file.cpp:154-159 | adjoining reads from the start fetch chunks 0, 1, 2 and so on, each once, however the requests are cut |
| ConcurrentRead.StepKeepsInv | src/file.cpp:140-167 | every step of every thread keeps mutual exclusion, each thread's partial result and the cache invariant |
| ConcurrentRead.CompletedReadsRight | src/file.cpp:104-121 | for any number of threads, any interleaving, failing fetches and other threads reading beyond 2^31: a read that stays below never faults, and if it returns, returns the flat slice |
| ConcurrentRead.CacheMatchesAlways | src/file.cpp:154-159 | in every reachable state, reads beyond 2^31 included, cached number and cached chunk match, except between the lock holder's two assignments |
| ConcurrentRead.OnlyHolderChangesCache | src/lock.h:7-23 | only the lock holder changes the cache, and at most one thread is inside |
| ConcurrentRead.SomeoneMoves | src/lock.h:7-23 | no deadlock: a thread amid a read can step, or the lock holder can, or the holder has faulted on a read beyond 2^31 |
| ConcurrentRead.AloneIsRead | src/file.cpp:88-167 | one uninterrupted thread computes the sequential read: same bytes, same failure, same cache, at any offset |
| Decimal.NumberReads | src/filesystem_entry.cpp:165-180 | atoi skips white space, takes a sign and the digits up to the first other character, and ignores what follows |
| Decimal.AtoiPrint | src/filesystem_entry.cpp:165-180 | atoi of a printed number is that number exactly if it fits an int |
| ContentType.StatFields | src/filesystem_entry.cpp:143-189 | the strtok loop computes the left-to-right meaning of the text's token list |
| ContentType.TokensOfSpelling | src/filesystem_entry.cpp:155-183 | tokenizing finds exactly the tokens, whatever runs of delimiters stand around them |
| ContentType.OneToken | src/filesystem_entry.cpp:155 | nothing but colons and bars separates tokens |
| ContentType.ParseSpelledFields | src/filesystem_entry.cpp:155-184 | a text of fields parses exactly if every value fits an int, and then assigns the fields in order |
| ContentType.LastWins | src/filesystem_entry.cpp:160-182 | each field ends with the value of the last entry for its key, or keeps its default |
| ContentType.OrderIndependent | src/filesystem_entry.cpp:143-189 | with distinct keys neither the order of the fields nor repeated delimiters change the result |
| ContentType.RoundTripIffInRange | src/filesystem_entry.cpp:143-189 | parsing the printed text returns the four values if and only if each fits an int, and is undefined otherwise |
| ContentType.PrintedPrint | src/filesystem_entry.cpp:198-199 | printing loses nothing: the four values of a printed text are those printed, also beyond the int range |
| ContentType.ParsePrinted | src/filesystem_entry.cpp:143-189 | on printed texts the parser never uses a default and never leaves the time unset; it reads all four values exactly if they fit an int |
| ContentType.ForeignText | src/filesystem_entry.cpp:143-189 | a text of another program reads as a plain file of mode 0644 with the configured owner and no time if no token starts like a field; a single token that does, such as text/plain, is undefined |
| ContentType.PrintExample | src/filesystem_entry.cpp:155 | the printer writes the parser's example text: m:16877, u:0, g:0, t:1321927291 |
| GridStore.StoreFileOk | src/filesystem_entry.cpp:85 | a stored version becomes the newest of its name with exactly its bytes, other names and older chunks unchanged |
| GridStore.RemoveFileOk | src/filesystem_entry.cpp:96 | a removal takes every version of the name with its chunks, and no other version's |
| GridStore.PatchOk | src/filesystem_entry.cpp:201-210 | an update by id changes that version only, and keeps the store well formed |
| PathRegex.EscapePath | src/directory.cpp:56-84 | the loop's result is the character-wise escaping of the path |
| PathRegex.EscapedCharacters | src/directory.cpp:56-84 | exactly twelve characters get a backslash, and a path is escaped piece by piece |
| PathRegex.EscapeInjective | src/directory.cpp:56-84 | different paths have different escapings |
| PathRegex.PlainMatches | src/directory.cpp:46-54 | without counted repeats, the compiled pattern matches exactly path, slash and a slash-free name |
| PathRegex.RepeatBreaks | src/directory.cpp:56-84 | with a counted repeat in the path some string is matched wrongly |
| Regex.CountedIff | src/directory.cpp:56-84 | the braces that matter: a text starts with a counted repeat if and only if it starts with {n}, {n,} or {n,m}, n and m being digits |
| Regex.CountedForms | src/directory.cpp:56-84 | the bounds of the three forms are the numbers their digits spell |
| PathRegex.QueryExactIffNoRepeat | src/directory.cpp:46-84 | the query finds exactly the children if and only if no braces in the path read as a counted repeat |
| PathRegex.BadCountsFindNothing | src/directory.cpp:46-84 | with a count above 65535 or bounds out of order in the path the query does not compile and finds nothing |
| PathRegex.CountedPathMatches | src/directory.cpp:46-84 | with one character repeated {n} times in the path, the query finds exactly the children of the path in which the character stands n times |
| Directory.List | src/directory.cpp:10-37 | the cursor loop emits the dot entries and the first occurrence of every name, cut after the path, or throws where substr does |
| Directory.ListingIsChildren | src/directory.cpp:10-37 | readdir shows the dot entries and then the last component of each live child exactly once, however many versions it has |
| Directory.EmptyIffNoChild | src/directory.cpp:39-44 | isEmpty holds if and only if no live path is a child |
| Directory.EmptyRightIff | src/directory.cpp:39-44 | isEmpty is right on every store that holds the directory if and only if its path has no counted repeat |
| Directory.ListingRightIff | src/directory.cpp:10-37 | the listing is right on every store that holds the directory if and only if its path has no counted repeat |
| Directory.CountedEmptyIff | src/directory.cpp:39-44 | isEmpty of such a directory tells whether that other directory has children |
| Directory.CountedListingThrows | src/directory.cpp:10-37 | listing such a directory throws exactly if that other directory has a live child no longer than the path |
| Directory.CountedExample | src/directory.cpp:39-84 | the query of /d{2} finds /dd/x and not /d{2}/x, and /d{2} counts as empty with /d{2}/x in it |
| Handles.WriteAppends | src/file.cpp:34-76 | a write is accepted exactly if it starts where the last one ended, then appends and keeps capacity at the rounded-up size; a rejected write changes no data |
| Handles.BufferIsAccepted | src/file.cpp:34-76 | after any calls the buffer is the concatenation of the accepted data; capacity 0 and no changes exactly while none was accepted, then max(cs, accepted rounded up to a multiple of cs) |
| Handles.RememberedLengthIff | src/file.cpp:78-86 | the length remembered after store is that of the published bytes if and only if there were none |
| CTypes.Conversions | src/file.cpp:102-114 | the casts to int, unsigned int, size_t and off_t take a multiple of 2^32 or 2^64 off, into their ranges |
| CTypes.TypeBits | src/filesystem_entry.cpp:60-66 | testing and setting the file-type bits 0x4000 and 0x8000, in numbers, every other bit kept |
| OpenFile.File.Reserve | src/file.cpp:53-69 | the growth loop ends with the smallest capacity that is enough, earlier bytes kept |
| OpenFile.File.Write | src/file.cpp:34-76 | the write copies the data behind what was written, or throws with the buffer unchanged |
| OpenFile.File.ExtendMemory | src/file.cpp:199-220 | growing by one chunk keeps every earlier byte |
| OpenFile.File.FreeMemory | src/file.cpp:222-232 | freeing drops written bytes, capacity and the dirty flag together, and does nothing without a buffer |
| OpenFile.File.Store | src/file.cpp:78-86 | publishes the written bytes as a new version with the snapshot's contentType, or throws if the path had no version; the remembered length follows the reset of the buffer |
| GridStore.TruncateEmpties | src/file.cpp:123-138 | a truncated path has no bytes and its old metadata; every other path, every older version and all chunks stay, so loaded versions can still be read |
| OpenFile.File.ReadPiece | src/file.cpp:140-167 | copies one piece of one chunk into the buffer at the given place and nowhere else |
| OpenFile.File.Read | src/file.cpp:88-121 | the loop fills the caller's buffer with the specified bytes and writes nothing beyond them |
| Entries.LastCallDecides | src/gridfs_fuse.cpp:296-339 | after any sets, removes and evictions the cache answers for a path exactly if the last of them about it was a set, and then with what was set |
| Entries.FilesystemEntry.Gridfile | src/filesystem_entry.cpp:28-37 | fetches the newest version once and keeps it, also if there was none |
| Entries.FilesystemEntry.Stat | src/filesystem_entry.cpp:45-70 | the attributes of the loaded version, not those of a newer one |
| Entries.FilesystemEntry.Create | src/filesystem_entry.cpp:72-91 | adds one version with the printed metadata and forgets the loaded one |
| Entries.FilesystemEntry.Chown | src/filesystem_entry.cpp:101-111 | rewrites owner and group and keeps mode and time |
| Entries.FilesystemEntry.Chmod | src/filesystem_entry.cpp:113-123 | rewrites the mode and keeps owner, group and time |
| Entries.FilesystemEntry.Utimes | src/filesystem_entry.cpp:125-135 | rewrites the time and keeps mode, owner and group |
| Paths.IsProcMeansBelow | src/filesystem_operations.cpp:44-57 | a path is a proc path if and only if it is the proc directory or lies below it |
| Paths.ConfiguredIs | src/filesystem_operations.cpp:60-72 | a kernel path is configured to the prefix and the path, the root to the prefix alone |
| Paths.ConfigurePathInjective | src/filesystem_operations.cpp:60-72 | different paths of the kernel become different paths in the store, whatever the prefix |
| Paths.ProcSeenByKernel | src/filesystem_operations.cpp:44-72 | whatever the prefix, the configured path is a proc path if and only if the kernel's path is /proc or below it |
| FuseOps.Fuse.Getattr | src/filesystem_operations.cpp:83-128 | a hit answers from the cache; a miss answers from the newest version and caches it; absent and proc paths are never cached, and proc paths answer by their kind |
| FuseOps.Fuse.Mkdir | src/filesystem_operations.cpp:134-154 | adds a directory version whether or not the path exists, and leaves the cache alone |
| FuseOps.Fuse.CreateRootDir | src/gridfs_fuse.cpp:223-233 | makes the root only if the prefix is not live |
| FuseOps.Fuse.Rmdir | src/filesystem_operations.cpp:161-193 | removes the path and its cached attributes only if the query finds nothing below it |
| FuseOps.Fuse.Readdir | src/filesystem_operations.cpp:213-237 | proc paths are listed by their kind without a look at the store; otherwise the listing of an existing entry, or ENOENT |
| FuseOps.Fuse.Create | src/filesystem_operations.cpp:252-296 | adds an empty file only if the path is absent, leaves the cache alone and an open file behind in both cases; on a proc path adds a server, succeeds also if it is listed, and leaves the file handle at 0 |
| FuseOps.Fuse.Unlink | src/filesystem_operations.cpp:304-331 | removes every version and the cached attributes, ENOENT without one |
| FuseOps.Fuse.Symlink | src/filesystem_operations.cpp:612-647 | stores the target under an absent path, EEXIST otherwise |
| FuseOps.Fuse.Open | src/filesystem_operations.cpp:342-376 | an open file that has loaded the newest version exactly if asserts are compiled in; on a proc path adds a server, ENAMETOOLONG if that is refused |
| FuseOps.Fuse.Release | src/filesystem_operations.cpp:448-484 | publishes exactly if something was written, and drops the cached attributes after publishing; for an open proc path only drops cached attributes |
| FuseOps.Fuse.Chmod | src/filesystem_operations.cpp:687-713 | updates the newest version's mode and drops the cached attributes, ENOENT without one |
| FuseOps.Fuse.Chown | src/filesystem_operations.cpp:719-745 | updates the newest version's owner and drops the cached attributes, ENOENT without one |
| FuseOps.Fuse.Truncate | src/filesystem_operations.cpp:751-787 | only a truncation to zero succeeds, and drops the cached attributes |
| FuseOps.Fuse.Utimens | src/filesystem_operations.cpp:795-826 | updates the newest version's time and drops the cached attributes; proc paths succeed without effect |
| Refinement.StepRefines | src/filesystem_operations.cpp:83-826 | every admissible call keeps store, cache and open files in relation with the flat map, and its reply is one the flat map allows |
| Refinement.RunRefines | src/filesystem_operations.cpp:83-826 | whole runs: after any admissible run the states are related and every reply along the way was allowed |
| Refinement.GetattrRefines | src/filesystem_operations.cpp:83-128 | getattr answers what the flat map says although it may answer from the cache |
| Refinement.ReaddirRefines | src/filesystem_operations.cpp:213-237 | the names shown are exactly the children in the flat map, without duplicates; on proc paths the instances entry or the servers |
| Refinement.CreateRefines | src/filesystem_operations.cpp:134-647 | mkdir, symlink and create add exactly one path with the printed metadata, and may leave the cache alone |
| Refinement.UnlinkRefines | src/filesystem_operations.cpp:304-331 | unlink removes exactly one path, with all its versions and its cached attributes |
| Refinement.RmdirRefines | src/filesystem_operations.cpp:161-193 | rmdir removes exactly one path, and only without children in the flat map |
| Refinement.ChangeRefines | src/filesystem_operations.cpp:687-826 | chmod, chown and utimens are record updates of one path in the flat map, for all values their C types hold |
| Refinement.TruncateRefines | src/filesystem_operations.cpp:751-787 | truncate empties one path in the flat map, or fails without effect |
| Refinement.OpenRefines | src/filesystem_operations.cpp:342-376 | open takes its snapshot of the flat file exactly if asserts are compiled in |
| Refinement.WriteRefines | src/filesystem_operations.cpp:393-440 | write appends to one handle's buffer or fails without effect |
| Refinement.ReadStepRefines | src/filesystem_operations.cpp:499-539 | read takes the snapshot at the first look and returns slices of it |
| Refinement.ReadDetermined | src/file.cpp:88-121 | a read through a loaded handle fails exactly if the version's chunks are gone and the range is not all in the cached chunk |
| Refinement.ProcRefines | src/filesystem_operations.cpp:252-376 | create and open on proc paths add the server named behind the prefix, or refuse it; only open leaves an open path; files and handles stay |
| Refinement.ReleaseRefines | src/filesystem_operations.cpp:448-484 | release sets the path to the handle's buffer and the snapshot's metadata, or changes nothing |
| Theorems.RootRel | src/gridfs_fuse.cpp:223-233 | the state after createRootDir is related to the flat map holding the root alone |
| Theorems.RemountIffNoSlash | src/gridfs_fuse.cpp:223-233 | a second createRootDir changes nothing if and only if the prefix has no slash at its end |
| Theorems.MetadataWellFormed | src/filesystem_entry.cpp:72-213 | in every reachable state every version's contentType is the printer's image of four values, and the parser finds all four exactly if they fit an int |
| Theorems.MetadataFrame | src/filesystem_entry.cpp:101-213 | any sequence of chmod, chown and utimes equals the same record updates, rewrites one contentType and leaves the rest of the store |
| Theorems.ChangeReadableIff | src/filesystem_entry.cpp:101-135 | after a change getattr gives the changed attributes if and only if the new values fit an int, and nothing defined otherwise |
| Theorems.CacheTransparent | src/filesystem_operations.cpp:83-154 | after any run with any evictions every cached path is live, outside proc and cached with its newest attributes, and getattr answers as with an empty cache |
| Theorems.MkdirCoherentIff | src/filesystem_operations.cpp:134-154 | mkdir keeps a coherent cache coherent if and only if its path is uncached or cached with the new attributes |
| Theorems.SnapshotIsolation | src/filesystem_entry.cpp:28-37 | a loaded open file returns slices of its version through any interleaving, and may fail only after a removal of its path |
| Theorems.HandleKept | src/filesystem_operations.cpp:342-539 | over any run an open file keeps its path and snapshot, and only a removal of its path revokes it |
| Theorems.ReleaseKeepsMetaIff | src/filesystem_operations.cpp:448-484 | release leaves a live path's metadata as it was if and only if nothing is published or the snapshot has the current metadata |
| Theorems.ChmodLost | src/file.cpp:78-86 | create, read, write, chmod, release: the mode is the one from before the chmod |
| Theorems.SameObjectReadsIff | src/file.cpp:78-102 | after store, reads on the same object give the published bytes if and only if the snapshot had the same bytes |
| Theorems.BufferIsOwnWrites | src/file.cpp:34-76 | over any run a buffer is the accepted writes on its own open file, so two writers never mix |
| Theorems.EndToEnd | src/filesystem_operations.cpp:393-484 | accepted writes, release, open, read: any offset and size give the slice of exactly those writes, with the releasing handle's snapshot metadata |
| Theorems.WriteThenRead | src/filesystem_operations.cpp:252-539 | on a fresh mount, for every path outside proc and any two pieces of data of at most 2^31 bytes together: create, two writes, release, open and read give the slice of both |
| Theorems.RunDefined | src/filesystem_operations.cpp:83-826 | a run in which no read reaches 2^31 never comes to a failing assert, an out-of-bounds copy or an undefined value |
| Theorems.CreateUsableIff | src/filesystem_operations.cpp:252-484 | after a successful create every read, write and release of what it hands to the kernel is defined if and only if the path is outside proc |
| Theorems.CreatedServerCrashes | src/filesystem_operations.cpp:252-460 | create below the instances, then release: on every fresh mount the second call dereferences a null handle |
| Theorems.ListedServerRefused | src/proc.cpp:71-107 | in every reachable state opening any listed server name is refused with ENAMETOOLONG and changes nothing |
| Theorems.OpenBareHost | src/proc.cpp:71-107 | open of a name without colon below /proc/instances, in any state: refused if the host is listed on port 11211, appended on that port otherwise |
| Theorems.OpenHostAndPort | src/proc.cpp:71-107 | open of host:port with a port in 1..65535, whatever the host contains: refused if listed, appended otherwise |
| Numbers.GetattrInNumbers | src/filesystem_entry.cpp:45-70 | getattr of a live path: its four stored values, 2 links and size 4096 if mode bit 0x4000 is set, and otherwise 1 link and the number of bytes |
| Numbers.ProcGetattrInNumbers | src/proc.cpp:52-69 | getattr of /proc and /proc/instances gives mode 0x4000, of anything below the latter 0x8000, with the configured owner; nothing is defined for other proc paths |
| Numbers.CreatedInNumbers | src/filesystem_operations.cpp:252-296 | create with permission bits mode stores 0x8000 + mode, the configured owner and the time, and getattr then answers that with 1 link and size 0 |
| Numbers.MadeInNumbers | src/filesystem_operations.cpp:134-154 | mkdir stores 0x4000 + mode, and getattr then answers that with 2 links and size 4096 |
| Numbers.LinkedInNumbers | src/filesystem_operations.cpp:612-647 | symlink stores mode 0xA1FF, and getattr then answers that with 1 link and the length of the target |
| Numbers.RootInNumbers | src/gridfs_fuse.cpp:223-233 | createRootDir on an empty store leaves a directory of mode 0x41ED, and getattr answers that |
| Numbers.CountedRmdir | src/filesystem_operations.cpp:161-193 | rmdir of a directory with one character repeated {n} times in its path succeeds exactly if another directory has no children |
| Numbers.CountedReaddir | src/filesystem_operations.cpp:213-237 | readdir of such a directory then fails with EIO, and only then |
| Numbers.CountedRmdirExample | src/filesystem_operations.cpp:161-193 | rmdir of /d{2} succeeds with /d{2}/x in it |
| Tree.PutKeepsTreeIff | src/file.cpp:78-86 | publishing at a path keeps every path below a live directory if and only if the path belongs there and no directory with children is lost |
| Tree.StepKeepsTreeIff | src/filesystem_operations.cpp:134-826 | one call keeps the tree if and only if a condition on the state before the call holds |
| Tree.VfsKeepsKinds | src/filesystem_operations.cpp:134-826 | every call of the kernel keeps what open files have loaded live and of the same kind, unless their path was removed |
| Tree.VfsIsSafe | src/filesystem_operations.cpp:161-826 | in a right tree, what the kernel guarantees of a call, and no pending writer on a removed path, makes it safe |
| Tree.TreeClosed | src/filesystem_operations.cpp:161-193 | after any run of calls under the kernel's preconditions, with no pending writer on removed paths, every live path but the root has a live directory as parent |
| ConcurrentCache.StepKeepsInv | src/filesystem_operations.cpp:90-121 | every step of every caller keeps: a stale cached value is owed a delete or came through a crossed window or a raced create |
| ConcurrentCache.StaleIsOwedOrRaced | src/filesystem_operations.cpp:90-121 | for any number of callers and any interleaving, a cached value is the store's, or owed a delete, or was read before a write and filled in after it, or belongs to a path that was created twice at once |
| ConcurrentCache.StaysGoodIffSettled | src/filesystem_operations.cpp:90-121 | from a coherent state a path stays coherent under every safe continuation if and only if every open window on it carries what the store has |
| ConcurrentCache.WriteSafeIff | src/filesystem_operations.cpp:90-121 | a store write on a coherent path leaves it safe for good if and only if every getattr between its read and its fill carries exactly what was written and a create finds nothing else cached, unless a delete is owed |
| ConcurrentCache.DisciplinedIsCoherent | src/filesystem_operations.cpp:90-121 | from an idle start, a path whose writes are all safe in that sense is cached as stored, or owed a delete |
| ConcurrentCache.CrossedWindowGoesStale | src/filesystem_operations.cpp:90-121 | an unsafe write: five steps leave a stale value nobody will delete |
| ConcurrentCache.RacedCreateGoesStale | src/filesystem_operations.cpp:252-296 | two creates that both find nothing: one is read into the cache, the other writes, and nobody will delete |
| CacheSteps.GetattrIsSteps | src/filesystem_operations.cpp:83-128 | uninterrupted, lookup, store read and fill are getattr: same reply, same cache |
| CacheSteps.MutatorIsSteps | src/filesystem_operations.cpp:687-826 | uninterrupted, a store write and a delete are any call that changes the newest version of one path and drops what is cached for it |
| CacheSteps.MutatorsWriteOne | src/filesystem_operations.cpp:161-826 | unlink, rmdir, chmod, chown, utimens and truncate are such calls when they succeed |
| CacheSteps.ReleaseWritesOne | src/filesystem_operations.cpp:448-484 | so is a release that publishes |
| CacheSteps.ProcReleaseWritesOne | src/filesystem_operations.cpp:448-484 | and so is the release of an open proc path, which changes nothing else |
| CacheSteps.CreatorIsSteps | src/filesystem_operations.cpp:134-296 | uninterrupted, a look that finds nothing and a store write are create, mkdir and symlink |
| ProcServers.ServerRoundTrip | src/proc.cpp:34-84 | parsing a printed host:port returns the pair, whatever the host contains, exactly if the port fits an int |
| ProcServers.ListedNameRefused | src/proc.cpp:91-104 | adding a listed name changes nothing |
| ProcServers.ListedNamesChangeNothing | src/proc.cpp:71-107 | adding listed names in any order and any number of times changes nothing |
| ProcServers.BareHostAdds | src/proc.cpp:71-107 | a text without colon is refused if Server(text, 11211) is listed and appends it otherwise |
| ProcServers.HostAndPortAdds | src/proc.cpp:71-107 | host:port with a port in 1..65535 is refused if listed and appended otherwise |
| ProcServers.SecondAddRefusedIffPlain | src/proc.cpp:91-107 | a second add of the same text is refused if and only if its host is not empty and its port is in 1..65535 |
| ProcServers.KeepsDistinctIffHarmless | src/proc.cpp:91-107 | a text has a defined outcome and keeps every duplicate-free list duplicate-free if and only if it ends in a colon or names a server with a host and a port in 1..65535 |
| ProcServers.RunKeepsDistinct | src/proc.cpp:71-107 | over any run of such texts the list is duplicate-free and holds exactly the servers named |
| ProcServers.RunKeepsPlain | src/proc.cpp:71-107 | over any run of texts whose ports fit an int the list only grows and holds plain servers |
| ProcServers.WrappedPortDuplicates | src/proc.cpp:97-105 | ports 1 and 65537 give the same server twice |
| ProcServers.NamesDistinct | src/proc.cpp:34-50 | the listed names are distinct if and only if the servers are |
| ProcServers.ClassifiedIsProc | src/proc.h:19-38 | the kinds are exactly prefix/proc, prefix/proc/instances, and every path that starts with prefix/proc/instances/; all are proc paths |
| ProcServers.Proc.Create | src/proc.cpp:71-107 | the search loop and the parser together add or refuse as specified |
| ProcServers.Proc.ListServers | src/proc.cpp:34-50 | the loop prints every server in order |
| ProcServers.AddsNothingIff | src/proc.cpp:71-107 | a path of whatever kind adds nothing to any list if and only if it is shorter than the instances prefix, or longer and ending in a colon |
| ProcServers.OtherDirectoryAdds | src/proc.cpp:71-75 | every directory of proc with a name as long as instances adds the same servers as instances itself |

## Left out

- Driver, connection pool, BSON and `synchonizeUpdate`: the store is an abstract machine, and network errors are not modelled except failing chunk fetches among concurrent readers.
- memcached networking, pools and key redistribution: one map with arbitrary eviction. The key `a:` + path stands for the path.
- Crashes inside a store, and upload-date ties: decided by the driver.
- Racing first reads: the unlocked lazy initialisation of the version, the length and the chunk size; concurrent readers start from an initialised open file.
- Refinement.RmdirRefines: assumes that the path has no counted repeat, because rmdir is wrong on some store otherwise; the exact condition is `Directory.EmptyRightIff`.
- Refinement.ReaddirRefines: makes the same assumption, with `Directory.ListingRightIff`; on proc paths it covers those that have a kind, since the code reads an unset type on the others.
- Refinement.ChangeRefines: assumes that the metadata present before the call fits an int, because the code parses it first; the values written may be any.
- Refinement.GetattrRefines: makes the same assumption, and on proc paths covers those that have a kind.
- ProcServers.RunKeepsPlain: ports that do not fit an int are excluded, because C leaves their conversion undefined.
- Objects that failing calls leave behind are not freed by the code; memory use is not modelled. `Proc::list` is a function of the path's kind.
- FuseOps.Fuse.Readdir: opendir and readdir are one call here, so what happens between them is not modelled.
- FuseOps.Fuse.Getattr: attributes computed from a contentType without a time field are reported as unspecified, because the code reads an unset variable there.
- OpenFile.File.Write: a failing mmap or mremap, and the narrowing of byte counts to the int result of the callbacks, are not modelled.
- ProcServers.Proc.Create: the library's replacement of an empty host and of port 0 is a parameter; that its port parameter has 16 bits is an assumption.
- Regex: only the constructs a directory query can contain. Because `[^/]*` also takes a newline, `$` before a final newline adds no match.
- ContentType.StatFields: NUL bytes inside a contentType, which would end the text early.
- `readlink` and `Symlink::read`, option parsing, authentication, logging, shell tests and the process entry point.
