# Verified models of the Internxt command line client

Dafny models of the parts of `ixr` that have to look simple while doing
something lazy, concurrent or order-dependent underneath: the NFS write-back
cache, the streaming reader, one-way sync, and a handful of smaller machines
around them. `dafny verify dfyconfig.toml` checks everything.

| files | what they model |
|---|---|
| `NfsBuffer`, `NfsProtocol`, `NfsSafety`, `NfsRuns`, `NfsLimits`, `NfsWitnesses`, `NfsServer`, `RetryPacing` | NFSv3 writes go to a lazily filled temp file that a background sweep uploads. `NfsBuffer` has the buffer object and its atomic changes; `NfsProtocol` interleaves RPCs, flush and sweep at their await points; `NfsSafety` proves the invariant step by step; `NfsRuns` proves over whole runs that reads refine a plain byte array and that no write is lost; `NfsLimits` says exactly where the code fails to keep that and by how much, and `NfsWitnesses` gives runs that get there; `NfsServer` has the flusher and the sweep as methods proved to be runs of the protocol; `RetryPacing` spaces failing uploads. |
| `RecentWindow`, `StreamReader` | Random access over a restartable sequential download with a bounded window of recent bytes. |
| `FuseWrite` | The FUSE write handle: pulling content late is the same as pulling it at open. |
| `Glob` | The SMB wildcard matcher with one saved star. |
| `SyncPlan`, `SyncRun`, `SyncDirections`, `Sorting` | One-way sync in both directions: the delete plan, the pass, the pass after it. |
| `InodeTable`, `DirPaging` | Stable numbers for Drive items, paths from parent links, and directory paging by number. |
| `PathText`, `DrivePaths`, `Hrefs` | Slash-separated text; Drive paths to uuids and back; WebDAV hrefs. |
| `ListingCache`, `RacingCreate` | The listing cache under other clients' changes; many requests creating one folder. |
| `Compare`, `FolderUpload` | Byte-exact comparison; accounting for every node of an uploaded folder. |
| `Basics` | Options, bytes, plain random-access files. |

Times, network answers, uuids, file ids and the order in which hash maps and
finished tasks come are parameters or arbitrary choices. A Drive upload,
download, entry creation or listing is a step that may fail; what the server
stores is a map.

## Where the code falls short of its promise

Each of these is kept as the code has it, shown by a witness, and bounded by an
exact condition over all states or inputs.

- **Eviction does not look at who holds the buffer** (src/nfs/fs.rs:943). A
  mutation that holds it, still downloading, waiting for the file lock or
  holding it, commits to an orphan; reads then agree with the plain file exactly
  when the mutation only cut the file. One that had copied the node before goes
  back to the content that node names; reads agree exactly when the mutation
  hides the difference (`EvictionUnderMutation`, `StaleNodeRevivesContent`,
  `EvictionLosesAWrite`). Reads that hold the buffer do no harm.
- **A file can get over the upload limit**, because `setattr` is not gated and a
  write is gated by its own end only (src/nfs/fs.rs:1042-1056, 1094-1098), and a
  flush over the limit clears `dirty` (src/nfs/fs.rs:773-782): exactly then, or
  for an empty file without an entry it knows, nothing is uploaded and the buffer
  can go (`OverLimitIsDropped`, `OverLimitTruncateIsLost`).
- **An empty write past the end moves the size counter and not the file**
  (src/nfs/fs.rs:362-368, and src/fuse/unix/fs.rs:1226-1239): exactly that and
  nothing else makes the two disagree (`CounterFollowsFile`,
  `EmptyWritePastEnd`, `WriteHandle.Write`).
- **A create whose answer is lost leaves an entry its buffer does not know**
  (src/nfs/fs.rs:848-870): the next flush creates again and is refused because
  the name is taken (src/fuse/unix/fs.rs:692). From a quiet state a flush of a
  buffer can end exactly if the entry it knows is the one under the name or,
  without one, the name is free; if not, none of this buffer ever does
  (`FlushEndsUnlessBarred`, `UnansweredCreateNeverFlushes`). A truncate to zero
  gets the buffer dropped, and comes undone once a listing has shown the entry,
  exactly when there is one (`UnansweredCreateUndoesTruncate`,
  `TruncateComesUndone`).
- **A lookup can intern an entry older than the last flush**
  (src/nfs/fs.rs:543-553 after 890-897). Without a buffer reads are then that
  entry's content, and a mutation starts over from it; both agree with the plain
  file exactly when the difference is none or hidden
  (`StaleListingRevivesContent`, `MutationOnStaleListing`,
  `StaleListingServesOldContent`).
- **Truncating to zero declares the buffer filled before cutting it**
  (src/nfs/fs.rs:1043-1050). Until the truncate commits, which empties the file
  in any case (`EmptyingHeals`), reads can come back short and content can read
  as zeros, whatever mutations come in between: exactly when something of the
  content still missing would show (`ReadOfHollowBuffer`,
  `MutationOnHollowBuffer`, `HollowReadIsShort`, `HollowBufferLosesContent`).
- **The wildcard matcher tests for an equal character before it tests for a
  star** (src/smb/fs.rs:128-136), so a star in the name can use up a star of the
  pattern. Its doc comment promises a wildcard match for any name. The answer is
  never a false yes. The loop, which sees every pattern but the empty one, `*` and
  `*.*`, is right about a pattern for every name if and only if the pattern
  holds no star, and about a name for every pattern if and only if the name
  holds none (`GlobMatch`, `PatternIsExact`, `NameIsExact`).
- **Sync settles only what can be represented on the other side.** Upwards, not
  names that end in a dot: a pass leaves the local files on Drive if and only if
  every name it uploads survives, and a second one has nothing to upload if and
  only if besides none of those files is stamped over two seconds before 1970
  (`NameSurvives`, `UpPassConverges`, `SecondPassIsIdle`,
  `LostNameIsUploadedAgain`). Downwards, not such times, and not remote files
  with a size and no content (`SyncDownConverges`). A name can also be a file
  here and a folder there. A remote file over a local folder fails; a remote
  folder over a local file may not, and then the pass ends with neither: the
  folders are right exactly when no remote folder is a local file
  (`WhatClashesCost`, `ClashLosesBoth`).
- **A lookup that overlaps a local change can put the old listing back** after
  the change invalidated it (src/serve/tree.rs:212-223): all later answers are
  fresh if and only if no lookup held the old listing (`InvalidateThenFresh`).
- **`/./` in a path is dropped after decoding** (src/webdav/resource.rs:57), so
  components get lost exactly when it occurs: a child's href is read back if and
  only if its folder's has none and the child is not a folder named `.`
  (`ParseKeepsComponents`, `ChildHrefRoundTrip`, `DotNameIsLost`).

A step is called calm in `NfsSafety` unless it is an eviction under a mutation, a
commit over the limit, an empty write past the end, the dropping of an empty
buffer whose name has an entry it does not know, or an older entry interned. The
whole-run theorems of `NfsRuns` are about calm runs: every other interleaving,
failure and tearing is included, among them eviction under reads, unanswered
creates and the listings that show them, and the window of a truncate to zero.

## Model

| member | source | states |
|---|---|---|
| NfsBuffer.CounterFollowsFile | src/nfs/fs.rs:359-374 | after any mutation the size counter equals the temp file's length if and only if it was not an empty write past the end; the bytes are those of the plain file |
| NfsBuffer.WriteBuffer.EnsureMaterialized | src/nfs/fs.rs:332-357 | succeeds exactly when already done, nothing to pull, or the whole content arrives, and then the temp file holds the content over whatever a failed download left |
| NfsBuffer.WriteBuffer.WriteAt | src/nfs/fs.rs:359-374 | the committed write: bytes, counter, generation and dirty move together |
| NfsBuffer.WriteBuffer.Resize | src/nfs/fs.rs:1048-1056 | the committed truncate or extension |
| NfsBuffer.WriteBuffer.ClearDirtyIfUnchanged | src/nfs/fs.rs:382-389 | reports true exactly when no mutation landed since the snapshot, and only then clears dirty |
| NfsBuffer.WriteBuffer.ReadAt | src/nfs/fs.rs:423-444 | under any pattern of short reads returns the slice of the file cut at the size counter |
| NfsBuffer.WriteBuffer.SweepFailing | src/nfs/fs.rs:919-941 | a sweep tries exactly when the buffer is dirty, 2 seconds quiet and past its backoff; a failed try changes the pacing and nothing in the buffer |
| NfsBuffer.RetryBackoffIsCappedPower | src/nfs/fs.rs:73-82 | over all 32-bit counts from 1 the delay is min(60, 2^n) seconds and neither shift nor product overflows |
| RetryPacing.FailingUploadsBackOff | src/nfs/fs.rs:395-406 | in every run of sweeps in which uploads fail, with writes at any time, attempt 6 + k starts at least 62 + 60 k seconds after the first |
| RetryPacing.FailingBufferIsRetried | src/nfs/fs.rs:912-946 | through any such run the buffer stays dirty, and is due again 2 quiet seconds after a write and a minute after an attempt |
| NfsSafety.StepKeeps | src/nfs/fs.rs:689-946 | every calm step of RPCs, flush, eviction and listings keeps the protocol invariant; the five kinds that are not calm are named above |
| NfsSafety.CommitKeeps | src/nfs/fs.rs:1031-1105 | a commit within the limit, not empty past the end, keeps the invariant while a flush is at any stage of its upload and in the window of a truncate to zero |
| NfsSafety.FinishKeeps | src/nfs/fs.rs:886-897 | ending a flush keeps it, whether or not writes landed or tore the upload |
| NfsSafety.EvictKeeps | src/nfs/fs.rs:942-944 | so does an eviction while reads hold the buffer |
| NfsRuns.StreamedReadsRefinePlainFile | src/nfs/fs.rs:1065-1081 | over every calm run a read begun without a buffer returns the slice and the end-of-file flag of the plain file as it was when the read began, whatever happens before it ends |
| NfsRuns.BufferedReadsRefinePlainFile | src/nfs/fs.rs:423-444 | over every calm run a read begun on a buffer, evicted meanwhile or not, returns the slice of the plain file at one moment between its beginning and its end, cut at the size of the moment it fixed its length; the end-of-file flag is by the size at the beginning |
| NfsRuns.ReadsBeginOnPlainFile | src/nfs/fs.rs:660-687 | after any calm run a new read sees the plain file's size, and once the buffer is evicted the stream behind it is the plain file |
| NfsRuns.NoLostWrite | src/nfs/fs.rs:742-909 | over every calm run Drive holds the plain file when there is no buffer, or a clean one with no mutation past the file lock; a dirty buffer holds it itself; but for a buffer between the two halves of a truncate to zero |
| NfsRuns.DirtyFallsOnlyTo | src/nfs/fs.rs:760-782 | of all steps from all states exactly three clear dirty: a flush ending with no commit since its snapshot, the empty uncreated file, the file over the limit; so a failed flush never does |
| NfsRuns.QuietFlushLands | src/nfs/fs.rs:742-897 | from every reachable quiet state with a dirty buffer that knows the entry under its name, or none if there is none, the flush can run to its end and leaves Drive equal to the plain file |
| NfsLimits.EvictionUnderMutation | src/nfs/fs.rs:942-944 | evicting under a mutation that is downloading, waiting for the file lock or holding it: reads agree with the plain file afterwards if and only if that is a beginning of what Drive held, so only if the mutation cut the file |
| NfsLimits.StaleNodeRevivesContent | src/nfs/fs.rs:689-738 | a mutation that copied the node before: reads agree if and only if it hides what has changed since |
| NfsWitnesses.EvictionLosesAWrite | src/nfs/fs.rs:942-944 | a run from a fresh file after which a completed write is gone |
| NfsLimits.MutationOnHollowBuffer | src/nfs/fs.rs:1042-1056 | every mutation between the two halves of a truncate to zero: reads agree if and only if the content still missing is overwritten, cut off or zero |
| NfsLimits.ReadOfHollowBuffer | src/nfs/fs.rs:1042-1056 | every read there agrees if and only if it is empty, past the end, or within the file with nothing missing that is not zero |
| NfsLimits.EmptyingHeals | src/nfs/fs.rs:1042-1056 | in every such state the truncate is still to come, and after it file and plain file are both empty |
| NfsWitnesses.HollowBufferLosesContent | src/nfs/fs.rs:1042-1056 | a run from a fresh file after which old content reads as something else |
| NfsWitnesses.HollowReadIsShort | src/nfs/fs.rs:1042-1056 | a run from a fresh file in which a read gets nothing of the content |
| NfsLimits.OverLimitIsDropped | src/nfs/fs.rs:769-782 | a flush starts no upload exactly when the file is over the limit or empty and uncreated; reads after eviction are the old content |
| NfsLimits.OnlyTruncatesExceed | src/nfs/fs.rs:1042-1098 | exactly which mutations are accepted, and that of a file within the limit only a truncate makes one over it |
| NfsWitnesses.OverLimitTruncateIsLost | src/nfs/fs.rs:773-782 | a run from a fresh file after which an extension over the limit is gone |
| NfsLimits.EmptyWritePastEnd | src/nfs/fs.rs:362-368 | after an empty write reads are right; the size shown and the size the next flush declares are the file's if and only if the write was not past the end |
| NfsLimits.FlushEndsUnlessBarred | src/nfs/fs.rs:760-870 | from a quiet state with something to link, some run ends a flush of the buffer if and only if the entry it knows is the one under the name or, without one, the name is free |
| NfsLimits.UnansweredCreateUndoesTruncate | src/nfs/fs.rs:760-768 | an empty file without an entry it knows is dropped, and a listing then brings other content back if and only if its name has an entry |
| NfsLimits.StaleListingRevivesContent | src/nfs/fs.rs:543-553 | once an older entry is interned reads are that entry's content |
| NfsLimits.MutationOnStaleListing | src/nfs/fs.rs:689-738 | a mutation then agrees with the plain file if and only if it hides the difference |
| NfsWitnesses.UnansweredCreateNeverFlushes | src/nfs/fs.rs:848-870 | a run from a new file after which no flush of its buffer ever ends |
| NfsWitnesses.TruncateComesUndone | src/nfs/fs.rs:760-768 | a run from a new file after which a truncate to zero reads as the old content |
| NfsWitnesses.StaleListingServesOldContent | src/nfs/fs.rs:543-553 | a run from a fresh file after which reads are the content before the last flush |
| NfsServer.FlushIsRun | src/nfs/fs.rs:742-909 | an undisturbed flush with any network outcome is a run of the protocol's steps |
| NfsServer.NfsFile.FlushWriter | src/nfs/fs.rs:742-909 | the flusher moves the whole state exactly as that run does; a failed try is counted and stamped, a success clears the count and is stamped, nothing to upload clears the count only |
| NfsServer.NfsFile.Sweep | src/nfs/fs.rs:912-946 | one tick tries a dirty buffer after 2 quiet seconds and min(60, 2^n) seconds after the last of n failures, drops a clean one after 30, and leaves any other alone, pacing included |
| NfsServer.NfsFile.SweepAndFail | src/nfs/mod.rs:94-100 | the sweeper's loop while uploads fail, with writes in between, is a run of `RetryPacing`: attempt 6 + k starts at least 62 + 60 k seconds after the first |
| RecentWindows.RecentWindow.Push | src/serve/recent_window.rs:44-57 | the popping loop leaves the last `cap` bytes of the continued or restarted range |
| RecentWindows.RecentWindow.ReadFull | src/serve/recent_window.rs:60-76 | a hit exactly when the range is covered, and then those bytes |
| RecentWindows.PushStaysWithin | src/serve/recent_window.rs:41-57 | the window stays a contiguous slice of the file |
| RecentWindows.PushTwice | src/serve/recent_window.rs:44-57 | the window does not depend on how the stream was cut into chunks |
| StreamReader.ReadState.ReadAt | src/nfs/fs.rs:225-279 | returns a beginning of the asked slice, all of it unless the stream broke off right there; at most 8 MiB discarded; the stream is replaced exactly for a step back or a longer gap; covered slices touch no stream; a broken stream stays broken |
| StreamReader.ReadState.SkipTo | src/nfs/fs.rs:246-263 | skipping stops at the offset or where the stream ended, and remembers what went by |
| FuseWrite.WriteHandle.Read | src/fuse/unix/fs.rs:1154-1176 | reads what a handle that copied the content at open would read |
| FuseWrite.WriteHandle.Write | src/fuse/unix/fs.rs:1211-1241 | succeeds exactly when its end fits 64 bits and the limit and the content arrives, and then writes what that handle would write; the counter stays its length exactly unless the write is empty and past the end; otherwise nothing changes |
| FuseWrite.WriteHandle.SetSize | src/fuse/unix/fs.rs:878-909 | truncates what that handle would truncate, without a download for zero |
| FuseWrite.WriteHandle.Release | src/fuse/unix/fs.rs:662-741 | uploads exactly that handle's file, under its size if and only if the counter is right, or nothing when Drive has it already |
| FuseWrite.TruncateThenWrite | src/fuse/unix/fs.rs:871-905 | truncate and rewrite uploads the new bytes only |
| Glob.GlobMatch | src/smb/fs.rs:119-147 | the empty pattern and `*.*` match all; for any other never a false yes, and the wildcard relation whenever the lowered name or pattern holds no star; terminates |
| Glob.SecondStarWins | src/smb/fs.rs:131-134 | forgetting the earlier star when a later one is met loses no match |
| Glob.ScanSound | src/smb/fs.rs:127-146 | from any point of the loop a yes is a wildcard match |
| Glob.ScanComplete | src/smb/fs.rs:127-146 | from any point of the loop a wildcard match is found, stars on one side only |
| Glob.PatternIsExact | src/smb/fs.rs:127-146 | the loop is the wildcard relation on every name if and only if the lowered pattern holds no star |
| Glob.NameIsExact | src/smb/fs.rs:127-146 | the loop is the wildcard relation for every pattern it looks into if and only if the lowered name holds no star |
| Glob.StarInNameCanHide | src/smb/fs.rs:128-130 | an input on which the matcher answers no and the relation yes |
| SyncPlan.PlanTransfers | src/sync.rs:427-443 | leaves a file alone exactly when both sides have it in one size with times at most 2 seconds apart, lists each other file once and counts the rest as skipped |
| SyncPlan.PlanRemovals | src/sync.rs:444-467 | lists once each topmost extra folder and each extra file under none of them |
| SyncPlan.RemovalsExactlyCover | src/sync.rs:739-761 | every destination-only path is taken by exactly one removal and nothing on the source by any |
| SyncPlan.PrunedApart | src/sync.rs:444-461 | pruned folders never nest |
| SyncRun.CreateFolders | src/sync.rs:487-507 | parents come before children, so no folder lacks its parent and all exist in the end |
| SyncRun.PassConverges | src/sync.rs:427-604 | after a failure-free pass the destination has the source's folders and files; a second pass removes nothing and transfers again exactly what did not land looking like its source |
| SyncDirections.SyncUp | src/sync.rs:386-608 | the whole upward pass with deletes, names that do not survive included |
| SyncDirections.UploadOneIs | src/sync.rs:619-658 | one upload makes the path its name comes back as unless another file has it, takes the old entry away, and touches no other |
| SyncDirections.UpPassConverges | src/sync.rs:427-658 | such a pass leaves the local files on Drive if and only if every name it uploads survives, and is then the plain pass |
| SyncDirections.SecondPassIsIdle | src/sync.rs:427-658 | a second pass has nothing to upload if and only if those names survive and none of those files is stamped over 2 seconds before 1970 |
| SyncDirections.SyncUpConverges | src/sync.rs:427-604 | same folders, same files, same sizes, times at most 2 seconds apart; a second pass uploads exactly the just uploaded files stamped over 2 seconds before 1970 |
| SyncDirections.NameSurvives | src/sync.rs:636-639 | a name comes back from Drive unless it ends in a dot that is not its first character, and then exactly that dot is lost |
| SyncDirections.LostNameIsUploadedAgain | src/sync.rs:636-658 | over any sequence of passes a file whose name does not survive, absent at first and shadowed by no other, is uploaded by every pass |
| SyncDirections.SyncDown | src/sync.rs:669-864 | the whole downward pass with deletes, clashing names included: exactly which downloads fail and what is left |
| SyncDirections.WhatClashesCost | src/sync.rs:781-860 | something fails exactly when a remote file that is not there locally has a folder in its place or a local file above it; when nothing fails the local folders end as the remote ones if and only if no remote folder is a local file, and the pass is then the plain one |
| SyncDirections.SyncDownConverges | src/sync.rs:724-860 | same folders, same files and, but for files without content or dated too early, same sizes and times at most 2 seconds apart; a second pass downloads exactly those excepted that were just downloaded |
| SyncDirections.DownloadLooksUnchanged | src/sync.rs:934-1010 | which downloaded files look unchanged, both ways |
| SyncDirections.ClashLosesBoth | src/sync.rs:781-787 | a clash after which a pass without failures leaves neither folder nor file |
| InodeTables.RunKeepsValid | src/nfs/fs.rs:539-572 | over every run of interns and removals the id map and the name index stay mutual inverses and every id exceeds its parent's |
| InodeTables.NumbersAreStable | src/fuse/unix/fs.rs:444-468 | an id stays with its parent and name through refreshes until removed |
| InodeTables.NumbersAreNotReused | src/fuse/unix/fs.rs:444-476 | a removed id is never in the table or handed out again |
| InodeTables.InternTouchesOne | src/nfs/fs.rs:539-562 | interning gives the old number or one never used, and touches nothing else |
| InodeTables.RemovedIsGone | src/nfs/fs.rs:564-572 | removing takes the number and its key away, and nothing else |
| InodeTables.InodeTable.Intern | src/fuse/unix/fs.rs:444-468 | interning refreshes or adds, and keeps the table's invariant |
| InodeTables.InodeTable.PathOf | src/fuse/unix/fs.rs:404-425 | the parent-walking loop ends and its names lead from the root back to the id |
| InodeTables.PathLeadsBack | src/fuse/unix/fs.rs:404-425 | climbing parents and following names are inverse |
| DirPaging.ReadDir | src/nfs/fs.rs:1350-1403 | one call numbers all children, keeps earlier numbers, and returns the next of them above the cookie in order, as many as asked for unless it reports the end, and that exactly when none is left |
| DirPaging.PagingIsComplete | src/nfs/fs.rs:1372-1403 | with this directory's numbers kept, resumed pages put together are every child exactly once, and some call reports the end, none before it |
| DirPaging.ListDirectory | src/nfs/fs.rs:1350-1403 | calling until told it is the end, with other requests in between, gets every child exactly once |
| DrivePaths.WalkComponents | src/paths.rs:149-198 | answers a folder exactly when all names lead on and a folder may be meant, a file exactly when the names in front lead to a folder with such a file and no such folder and a file may be meant, and an error otherwise |
| DrivePaths.ResolveDeviceIs | src/paths.rs:70-91 | a device is found by its uuid, else by its name if it is the only one of that name, letter case aside |
| DrivePaths.CaseAside | src/paths.rs:74-77 | equal letter by letter but for the case of A to Z |
| DrivePaths.DriveIsRoot | src/paths.rs:206-217 | `//drive` is the root under another name |
| DrivePaths.BadEscapes | src/paths.rs:218-236 | any other escape is an error, and so are backups in a workspace or without a device that is found |
| DrivePaths.UnknownIds | src/paths.rs:448-470 | an id has a path unless it is neither a folder's nor a file's |
| DrivePaths.FolderRoundTrip | src/paths.rs:394-461 | the path printed for a reachable folder's uuid resolves to that uuid, under the root or a backup device |
| DrivePaths.FileRoundTrip | src/paths.rs:462-483 | likewise for files |
| DrivePaths.BackupsPath | src/paths.rs:431-437 | the writing loop gives the device and the names below it |
| PathText.ParentAndName | src/sync.rs:114-140 | a path is its parent, a slash and a name without one |
| PathText.ComponentsOfText | src/paths.rs:41-46 | names written with slashes are read back |
| PathText.ComponentsJoin | src/webdav/resource.rs:63-67 | splitting a joined text splits its two sides |
| Hrefs.EscapesAre | src/webdav/xml.rs:27-40 | letters, digits and `-_.!~*'()/` are written as they are, every other byte as `%` and two upper-case digits |
| Hrefs.EncodeDecode | src/webdav/xml.rs:27-40 | decoding an encoded byte string gives it back, for every byte string |
| Hrefs.EncodeHref | src/webdav/xml.rs:27-40 | the loop encodes, and its result decodes to the input |
| Hrefs.DecodesEscape | src/webdav/resource.rs:34-52 | `%` and two digits, in either case, decode to their byte |
| Hrefs.DecodesPlain | src/webdav/resource.rs:34-52 | anything else stands for itself |
| Hrefs.PercentDecode | src/webdav/resource.rs:34-52 | the index loop decodes, invalid escapes passed through |
| Hrefs.ParsedParts | src/webdav/resource.rs:56-86 | the name is the last component, the parent path reads back as the others, the folder hint is the slash at the end |
| Hrefs.ParseKeepsComponents | src/webdav/resource.rs:56-86 | parsing keeps the components of the decoded text if and only if `/./` does not occur in it |
| Hrefs.ChildHrefRoundTrip | src/webdav/resource.rs:56-86 | parsing a listed child's encoded href gives the base's components and the name if and only if the base has no `/./` and the child is not a folder named `.`; and then the folder hint exactly when the listing wrote the slash |
| Hrefs.DotNameIsLost | src/webdav/resource.rs:57 | under any base the href of a folder named `.` loses a component |
| ListingCache.FolderCache.Get | src/serve/cache.rs:53-66 | a hit exactly for an unexpired entry of an enabled cache; an expired one is dropped |
| ListingCache.FolderCache.FindFolder | src/serve/tree.rs:200-223 | only a name in a fresh entry is answered from the cache; a no is always the live listing's |
| ListingCache.LookupsAnswer | src/serve/tree.rs:200-223 | a lookup that goes to the server answers with what is listed there, and one right after it alike, from the cache if there is one |
| ListingCache.CachedAnswerWasTrue | src/serve/tree.rs:176-223 | over every run with other clients each answer from the cache was true less than one TTL ago, plus the time a lookup may take to store what it fetched; none with TTL 0 |
| ListingCache.NegativeAnswerWasLive | src/serve/tree.rs:209-222 | over every such run each no was the live listing's at a moment of its own lookup |
| ListingCache.InvalidateThenFresh | src/serve/cache.rs:104-110 | after a change and its invalidation no answer predates the change, if and only if no lookup held the old listing |
| RacingCreate.RunKeepsInv | src/webdav/handlers.rs:838-881 | over every run of racing calls and other clients no name is listed twice and every answer is listed |
| RacingCreate.RacersAgree | src/webdav/handlers.rs:838-881 | all calls that succeed for one parent and name answer with the one folder of that name |
| RacingCreate.LoserAdopts | src/webdav/handlers.rs:846-874 | a call that looks again after the folder appeared answers with it |
| RacingCreate.RefusedLooksAgain | src/webdav/handlers.rs:848-880 | a call whose create fails looks again unless it was the sixth time, and answers with the folder if it is there |
| RacingCreate.GivesUpAfterSix | src/webdav/handlers.rs:848-880 | over every run a call gives up only when a listing fails or six of its creates have |
| RacingCreate.CallsLook | src/webdav/handlers.rs:849-853 | a call begins by looking, and one look at the server settles it or has it create |
| RacingCreate.MissingIsMade | src/webdav/handlers.rs:851-867 | a call that finds no such folder makes it and answers with it |
| Compare.ContentDiffOffset | src/compare.rs:100-146 | for every chunking: same exactly when equal, the first difference otherwise, and the error exactly when the local file runs out inside a chunk |
| Compare.DiffReasons | src/compare.rs:153-198 | the reasons one file differs, none exactly when size, asked-for time and asked-for bytes agree; an error exactly when the download outruns the local file |
| Compare.ReasonsMean | src/compare.rs:168-198 | when each reason is given |
| Compare.DiffOneFolder | src/compare.rs:382-491 | the full list, or its first group when stopping early; without an answer only if some file's comparison errs |
| Compare.DifferencesMean | src/compare.rs:401-488 | the full list has exactly the differences there are, each on its side |
| Compare.FirstGroupIs | src/compare.rs:418-474 | stopping early shows the first path's differences, all of them |
| Compare.StoppingEarlyIsPrefix | src/compare.rs:382-491 | stopping early shows a prefix of the full list, empty exactly when that is |
| Compare.NoDifferenceMeansEqual | src/compare.rs:401-488 | the full list is empty exactly when both sides have the same folders and files and every file the same size, bytes and date, as far as asked for |
| FolderUpload.ScanDir | src/commands.rs:552-607 | the recursion appends the pre-order scan |
| FolderUpload.ScanFindsAll | src/commands.rs:552-607 | the scan finds a path exactly when following names leads to a folder, or to a file of that size that is not an excluded empty one |
| FolderUpload.TotalIsSum | src/commands.rs:552-607 | the returned total is the sum of the collected file sizes |
| FolderUpload.ScanParentsFirst | src/commands.rs:552-607 | each folder's parent is listed before it and each file's parent is listed |
| FolderUpload.ScanFindsOnce | src/commands.rs:552-607 | no path is listed twice |
| FolderUpload.CreateTree | src/commands.rs:725-771 | a folder is ready, under the uuid its creation in its parent's answered, exactly when it and all above it could be created, and fails once otherwise |
| FolderUpload.UploadFolder | src/commands.rs:725-827 | every folder and wanted file of the tree ends in exactly one of ready, uploaded and failed, and which is determined by what could be made and taken; the total is the sum |
| FolderUpload.FailsWhole | src/commands.rs:725-827 | a failed folder has all in it among the failures |

## Left out

- Several files at once over NFS: one file's node, buffer, reader and flush are modelled; files share only the Drive, and the sweep visits them one by one.
- Namespace operations racing with a flush (create, remove, rename on the file being written).
- Interleaving inside synchronous Rust code: from its last await to its return an RPC is one step, and so is `clear_dirty_if_unchanged`, a load and a store.
- A local write or truncate that fails after it took the file lock: it commits or has not begun. Opening the temp file does not fail.
- The flush's `flush()` of the temp file failing before the snapshot: it changes only the retry pacing.
- Wrap-around of the 64-bit write generation; the 32-bit failure counter does wrap, and the pacing result stops there.
- What the core does when asked to upload more bytes than the temp file has: it is not part of this model, which lets such an upload end only if another write is tearing it.
- What Drive does when asked to replace an entry that is in the trash, which an unanswered replacement by an empty file leads to: the model has it refused.
- A replacement that trashes the old entry and then fails to make the new one: a failed replacement has happened wholly or not at all.
- NfsProtocol.Reply: does not model a download that breaks off early; that is `StreamReader`, whose reads are then a beginning of the same slice.
- NfsServer.NfsFile.FlushWriter: does not model other work during its awaits, because the interleavings are those of `NfsProtocol`.
- Glob.GlobMatch: does not say, for one pattern and one name that both hold a star, whether a no is right; `PatternIsExact` and `NameIsExact` say that each such pattern and each such name is answered wrongly somewhere.
- Network failures in sync, and `--exclude-empty-files` beyond treating the filtered walk as the source: convergence is of a pass in which nothing fails.
- ListingCache, RacingCreate: pagination and the virtual folders; one listing is one fetch.
- Case-insensitive lookups for Windows, the Windows file system itself, the SMB and SFTP handles: they repeat the FUSE and NFS logic.
- Overlapping releases of two FUSE handles on one file.
- Compare: network errors of a single file's comparison, which end the whole comparison.
- FolderUpload: a panic in an upload task; the pause after creating folders.
- UTF-8 itself: `ChildHrefRoundTrip` takes the encoding and its inverse as parameters.
- Attributes, timestamps and sizes in directory entries; thumbnails; cryptography; command line, prompts and output; credentials; VPN and TLS.
