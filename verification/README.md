# Verified models of Project Space

This project models parts of Project Space in Dafny 4.11 and proves what they promise. Each file is one module.

| file | what it models |
|---|---|
| `IssueOperationStore.dfy` | the memory store of issue-creation operations: reservation, transitions, lazy expiry |
| `IssueCreationProtocol.dfy` | idempotent issue creation: many requests, one store, one remote, crashes, lost writes |
| `DevServerLocks.dfy`, `SlotQueue.dfy` | the promise-chain lock, the inspection slots, their nesting, and the bounded upload slots |
| `Images.dfy`, `PngLayout.dfy`, `PngChunks.dfy`, `PngStructure.dfy` | PNG: interlace passes, scanline sizes, chunk stream, structure scanner |
| `Layout.dfy`, `ItemStream.dfy` | files that are a head, a list of items and an end item, whatever the items are |
| `JpegSegments.dfy`, `JpegStructure.dfy` | JPEG: markers, entropy-coded data, segment scanner |
| `GifBlocks.dfy`, `GifStructure.dfy` | GIF: sub-blocks, blocks, structure scanner |
| `CodeUnits.dfy`, `CanonicalJson.dfy`, `JsonReader.dfy` | the canonical JSON text that release manifests are signed as, and a reader of JSON text |
| `CommandReplay.dfy` | signed connector commands: creation, checks, replay table |
| `BranchComparison.dfy` | the slice of history shown for a branch comparison |
| `ComputeInventory.dfy` | the compute inventory put together from connector reports |
| `Texts.dfy`, `Numerals.dfy`, `SemanticVersion.dfy` | orders of texts and digit strings; reading and comparing semantic versions |
| `ReleaseQueue.dfy`, `ReleaseHandoff.dfy`, `ReleaseQueueRuns.dfy` | the restart-stable release queue: one decision, when a release run is started, and whole runs |
| `CodexRpc.dfy` | the message pump of the app-server client and its turns |
| `WorktreeProbes.dfy`, `WorktreeMap.dfy` | coalesced filesystem probes; the bounded concurrent map |
| `AllowedHosts.dfy` | the two host grammars and the two list normalisers |
| `Common.dfy` | options, sequences without duplicates, sums |

Code that the source writes as step-by-step updates is a method or a class whose contract ties it to a function of its
input or old state; the theorems are lemmas about that function and about whole runs of it. What the functions compute
is stated once more from the fields of their inputs alone, in lemmas named after what they pin down exactly. Protocols
with concurrent requests are state machines in which every `await` is a place where others may step.

## What the proofs found

- **Issue creation.** The protected time is not the retention period but the retention period less the longest time from
  a request's reservation to its last act: `AtMostOnceExactly` shows that no run creates two issues for one operation
  closer than that, and that one comes exactly as close, when the first creation lands late, its completion is lost and
  the search of the second request misses it. If a request outlives its record nothing is left: a record can then be
  released by a request that reserved an older record of the operation, because a transition checks the fingerprint and
  the state but not whose reservation it is.
- **Store transitions** do not look at expiry, so a write can bring an expired record back.
  `LazyWriteRefinesEagerExactly` says precisely when the memory store and one that expires eagerly differ.
- **PNG chunk types** are decoded with Node's `ascii`, which drops the high bit, so eight-bit variants of a type are
  accepted as that type. An accepted file obeys the types of RFC 2083 if and only if no type byte has its high bit set
  (`AcceptedIsLiteralExactly`), and `HighBitsAreAccepted` gives one that does not.
- **Branch slices.** For every input `BaseFlagExactly` says when the base is shown. With three places or more a slice
  that counts as whole shows it (`WholeSlicesShowTheBase`); with one or two, `truncated` can be false although it is cut
  (`FlagsExactly` gives both flags exactly for histories without merges).
- **Pre-release identifiers** may have leading zeros in the version pattern, where length-then-text is not the order of
  numbers (`LeadingZeroExactly`).
- **Release queue.** The queue can get stuck for good, and `GetsStuckExactly` says by which steps: a merge comes in
  behind a reserved catch-up whose release run is not under way; the run of the catch-up stops behind such a merge, or
  on its second attempt, after which it is not started again; or any release run leaves a draft, or counts as a
  success although there is no release. `StuckForever` shows that nothing is released any more, `StuckIsReached` gives
  runs that get there. In the other worlds of the model the queue can get to a deployment alone, unless it lacks a
  later merge that asks for a release or waits until a release whose two attempts have failed is declared failed
  (`DrainsExactly`, `SourceEndsTheWait`, `FailureEndsTheWait`).
- **Replay table.** A grant can be accepted twice only if the table has room for two entries and the clock goes up and
  back down to where the grant is still valid (`ReplayNeedsPeak`), and then it can (`ReplaysExactly`). A clock that
  only goes back, or goes back first, is harmless.
- **Allowed hosts.** Every address is a name as far as both grammars go, and no excluded character can occur in a name, so
  the branch for addresses and the check for excluded characters decide nothing (`HostsExactly`): four numbers above
  255 are accepted as a name (`OutOfRangeIsAccepted`).
- **Canonical JSON** prints minus zero as `0`, so the two zeros share a text; as integers they are one value here.

## Model

| member | source | states |
|---|---|---|
| IssueOperationStore.MemoryOperationStore.Reserve | server/github-issue-creation-operation-store.ts:70-105 | which of the five answers a reservation gets, and the record it leaves, by the live record's fingerprint, state, issue and age; other records stay unless they have expired; the whole new store is that of sweeping, clearing and deciding, in that order |
| IssueOperationStore.MemoryOperationStore.Transition | server/github-issue-creation-operation-store.ts:135-150 | exactly the one record changes, if it exists with the same fingerprint in an expected state, to the state, issue and times that are written |
| IssueOperationStore.MemoryOperationStore.CleanupExpired | server/github-issue-creation-operation-store.ts:119-133 | of the first 64 records the expired go and the others move to the back in order |
| IssueOperationStore.CompletedIsReplayed | server/github-issue-creation-operation-store.ts:87-89 | a completed operation is answered with its issue exactly until the retention period is over |
| IssueOperationStore.ReplayedWasCompleted | server/github-issue-creation-operation-store.ts:87-150 | over any run from the empty store, a replayed issue was reported by a call of the run for the draft that asks, and less than the retention period ago |
| IssueOperationStore.ReplayedWhileKept | server/github-issue-creation-operation-store.ts:87-150 | and a reported issue is replayed to its draft throughout the retention period, whatever calls come between |
| IssueOperationStore.ConflictExactly | server/github-issue-creation-operation-store.ts:80-105 | once a draft has been let in, another draft under its identifier is in conflict for the whole retention period, whatever calls come between, and the draft itself never is |
| IssueOperationStore.SweptKeepsLive | server/github-issue-creation-operation-store.ts:119-133 | cleanup never drops or changes a record that is live now or later |
| IssueOperationStore.LazyReserveRefinesEager | server/github-issue-creation-operation-store.ts:70-105 | a reservation answers, and leaves the live records, as if all expired records had been removed before |
| IssueOperationStore.ReserveForgetsThenDecides | server/github-issue-creation-operation-store.ts:70-105 | the answer comes from the live record alone; no other record changes, and only expired ones go |
| IssueOperationStore.LazyWriteRefinesEagerExactly | server/github-issue-creation-operation-store.ts:135-150 | a transition agrees with eager expiry if and only if it does not hit an expired record it may write |
| IssueOperationStore.ExpiredRecordIsRemoved | server/github-issue-creation-operation-store.ts:119-133 | an expired record at position p is gone after floor(p/64)+1 reservations of other keys |
| IssueOperationStore.LazyRunRefinesEager | server/github-issue-creation-operation-store.ts:64-150 | over any run of calls in time order that revives no expired record, all answers are those of eager expiry |
| IssueCreationProtocol.StepKeepsInv | server/github-issue-creation-service.ts:164-236 | every step of any request, crash, lost write or late landing keeps the guard on each operation that may still create |
| IssueCreationProtocol.AtMostOnceWithinRetention | server/github-issue-creation-service.ts:182-235 | in every reachable world two creations for one operation are at least the retention period less the request delay apart |
| IssueCreationProtocol.AtMostOnceExactly | server/github-issue-creation-operation-store.ts:135-150 | for every operation and draft, the gap that all runs keep between two creations is exactly the retention period less the request delay, or nothing if requests may outlive their records |
| IssueCreationProtocol.AnswersAreTrue | server/github-issue-creation-service.ts:94-162 | an issue that is reported exists with the operation's marker; "retry" is only said when the remote refused the request's post |
| IssueCreationProtocol.AnswersAgree | server/github-issue-creation-service.ts:164-236 | two requests of one operation that report an issue report the same one, while landings are within the protected time |
| IssueCreationProtocol.ReservationHeard | server/github-issue-creation-service.ts:182-214 | what a request does with each answer of a reservation: only a new one goes on towards a post |
| IssueCreationProtocol.SearchHeard | server/github-issue-creation-service.ts:106-162 | what it does with a search: one match is saved and reported, none lets a new reservation post, anything else is left to the user |
| IssueCreationProtocol.PostHeard | server/github-issue-creation-service.ts:219-235 | which write is sent after a post that returned, was refused or is unclear, and where the request goes on |
| IssueCreationProtocol.WriteHeard | server/github-issue-creation-service.ts:94-104 | whatever becomes of the write, the issue is reported, a retry is offered, or the remote is searched again |
| IssueCreationProtocol.PostsAfterEmptySearch | server/github-issue-creation-service.ts:216-222 | over any run, whatever was posted was posted after a search that found nothing |
| IssueCreationProtocol.RequestCanEnd | server/github-issue-creation-service.ts:164-236 | from every world, a request that has not crashed can get to an answer by events of its own |
| IssueCreationProtocol.CreationCanSucceed | server/github-issue-creation-service.ts:182-225 | a request whose operation has no live record can create its issue, report it, and leave a completed record |
| IssueCreationProtocol.RefusalCanBeRetried | server/github-issue-creation-service.ts:226-232 | after a refused post the user is offered a retry, and the operation can be reserved anew |
| IssueCreationProtocol.AmbiguityCanBeResolved | server/github-issue-creation-service.ts:104-130 | after an unclear post whose issue exists, a search that finds it alone lets the request report it |
| DevServerLocks.StepKeepsInv | server/dev-server-service.ts:179-212 | each step of lock and slot code keeps tickets, tails, holders and slots in agreement |
| DevServerLocks.MutualExclusion | server/dev-server-service.ts:194-212 | at most one task per key is inside the exclusive section |
| DevServerLocks.WorkIsExclusive | server/dev-server-service.ts:361-634 | in every reachable state, no two pieces of work change one project's settings or touch one server at the same time |
| DevServerLocks.TailExactlyWhileInUse | server/dev-server-service.ts:200-209 | a key is in the table of tails exactly while someone holds or awaits it |
| DevServerLocks.FirstComeFirstServed | server/dev-server-service.ts:194-203 | whoever is inside finds all earlier tickets of the key returned |
| DevServerLocks.SlotsAreSharedOut | server/dev-server-service.ts:176-192 | slots in use never exceed the capacity, and nobody waits while one is free |
| DevServerLocks.DeadlockFree | server/dev-server-service.ts:361-397 | in every reachable state with unfinished work some step other than a new arrival is possible |
| DevServerLocks.StepsDecrease | server/dev-server-service.ts:566-611 | every step other than an arrival brings the work closer to its end |
| DevServerLocks.AllWorkFinishes | server/dev-server-service.ts:631-657 | runs without arrivals are bounded, and where none can continue every task has finished |
| SlotQueues.SlotQueue.Acquire | server/github-issue-creation-routes.ts:134-143 | admitted, queued or turned away exactly by free slots and room in the queue; who is inside and who waits is stated in full |
| SlotQueues.SlotQueue.Release | server/github-issue-creation-routes.ts:145-149 | the slot goes to the longest waiter, or becomes free |
| PngLayout.EveryPixelExactlyOnce | server/github-issue-attachment-validation.ts:253-262 | for every size each pixel is sampled by exactly one pass, column and row of the seven (section 2.6 of RFC 2083) |
| PngLayout.PassAreasSumUp | server/github-issue-attachment-validation.ts:253-262 | the areas of the passes sum to width times height |
| PngLayout.DecodedSizeBounds | server/github-issue-attachment-validation.ts:232-252 | the decoded size lies within one and two bytes per scanline above the pixel data |
| PngLayout.RowLengthExactly | server/github-issue-attachment-validation.ts:232-252 | a scanline has a filter byte and the fewest whole bytes that hold its samples, by the color type's channels |
| PngLayout.LayoutsInOrder | server/github-issue-attachment-validation.ts:232-252 | each pass that has pixels has its rows, in the order of the passes |
| PngLayout.RowStartsConcat | server/github-issue-attachment-validation.ts:270-279 | scanlines follow each other without gaps, layout after layout |
| PngLayout.ValidPngImageData | server/github-issue-attachment-validation.ts:263-280 | accepted exactly if size, consumed bytes and every row's filter byte are right; all reads in bounds |
| PngChunks.SplitRendered | server/github-issue-attachment-validation.ts:121-140 | chunks that are written out split into the same chunks |
| PngChunks.RenderSplit | server/github-issue-attachment-validation.ts:121-140 | bytes that split into chunks are those chunks written out |
| PngStructure.ChunkTypeIsLiteralExactly | server/github-issue-attachment-validation.ts:134 | a chunk type is read as its bytes if and only if no high bit is set |
| PngStructure.KindsExactly | server/github-issue-attachment-validation.ts:134-215 | which chunk types are the four that must be understood, which may be passed over, and which are not supported, letter by letter |
| PngStructure.HeadersExactly | server/github-issue-attachment-validation.ts:148-168 | a header is read exactly if its thirteen bytes lay out a size within the limits and a color format of RFC 2083, section 4.1.1 |
| PngStructure.HeaderLayoutsExactly | server/github-issue-attachment-validation.ts:232-252 | the scanlines of a header are those of its image or seven passes, refused exactly above 32 MiB |
| PngStructure.PalettesExactly | server/github-issue-attachment-validation.ts:170-185 | a palette is accepted exactly with one to 256 entries, no more than the bit depth can name, and not in gray images |
| PngStructure.AcceptedIsLiteralExactly | server/github-issue-attachment-validation.ts:134 | an accepted list obeys the literal types of RFC 2083 if and only if no type byte has its high bit set |
| PngStructure.HighBitsAreAccepted | server/github-issue-attachment-validation.ts:134 | whatever the checksum, bytes that are accepted although the header's type has a high bit set |
| PngStructure.ScanDecides | server/github-issue-attachment-validation.ts:107-221 | the loop's verdict on a chunk list is that of the independent definition of well-formed lists |
| PngStructure.EncodingIsUnique | server/github-issue-attachment-validation.ts:107-221 | bytes encode at most one chunk list |
| PngStructure.ScanBytesDecides | server/github-issue-attachment-validation.ts:107-221 | a result exists exactly for bytes of a well-formed list, and is that list's |
| PngStructure.ReadPng | server/github-issue-attachment-validation.ts:107-221 | sound and complete for the grammar, including the short-input guard; every read in bounds |
| PngStructure.RenderAndRead | server/github-issue-attachment-validation.ts:107-221 | writing a well-formed list and scanning it gives its image data and layout back |
| ItemStream.ScanOfList | server/github-issue-attachment-validation.ts:290-354 | a scan over the bytes of an item list ends as the fold over that list says |
| ItemStream.ListOfScan | server/github-issue-attachment-validation.ts:290-354 | a scan with a result was over the bytes of such a list |
| JpegSegments.FindJpegMarkerAfterScan | server/github-issue-attachment-validation.ts:365-386 | the first real marker at or after the start, or none: past fill bytes, stuffed zeros and restart markers |
| JpegSegments.RealMarkerExactly | server/github-issue-attachment-validation.ts:365-386 | a real marker is fill bytes and a code that is no stuffed zero and no restart marker |
| JpegSegments.SegmentsExactly | server/github-issue-attachment-validation.ts:292-315 | segments byte by byte: which two markers stand alone, which codes are refused, and how length, data and entropy-coded data follow |
| JpegSegments.CleanUpToMarker | server/github-issue-attachment-validation.ts:365-386 | the data before a real marker is clean entropy-coded data exactly if no other real marker comes first |
| JpegSegments.SegmentAtRenders | server/github-issue-attachment-validation.ts:292-315 | a segment that is read is the one whose bytes stand there |
| JpegSegments.RenderedSegmentAt | server/github-issue-attachment-validation.ts:292-315 | a segment that is written is read back, given a marker behind a scan |
| JpegStructure.ReadJpegMarker | server/github-issue-attachment-validation.ts:356-364 | the code after the run of fill bytes, or none at the end |
| JpegStructure.TakenExactly | server/github-issue-attachment-validation.ts:316-352 | the loop takes exactly the lists with one frame at most, scans only after it, and all headers well-formed |
| JpegStructure.FramesExactly | server/github-issue-attachment-validation.ts:316-334 | a frame header is accepted exactly if it lays out precision, lines, columns and components within the limits, and gives that size |
| JpegStructure.ScansExactly | server/github-issue-attachment-validation.ts:335-348 | a scan header is accepted exactly if it lays out one to four components |
| JpegStructure.ReadJpegDimensions | server/github-issue-attachment-validation.ts:281-355 | a size is returned exactly for the bytes of an accepted segment list, and is the one its frame states |
| GifBlocks.SubBlocksExactly | server/github-issue-attachment-validation.ts:486-507 | a sub-block list is read exactly where it is written |
| GifBlocks.SkipGifSubBlocks | server/github-issue-attachment-validation.ts:486-507 | skipping lands just past the terminator of the list that stands there, within the part limit, and never otherwise |
| GifBlocks.BlockExactly | server/github-issue-attachment-validation.ts:404-485 | a block is read exactly where it is written |
| GifBlocks.DescriptorsExactly | server/github-issue-attachment-validation.ts:430-443 | an image descriptor is fine exactly if it lays out a size of at least one pixel with the reserved bits clear |
| GifBlocks.TableBytesExactly | server/github-issue-attachment-validation.ts:395-398 | a color table has three bytes for each of the 2^(n+1) colors, if its flag is set |
| GifBlocks.ExtensionsExactly | server/github-issue-attachment-validation.ts:464-485 | which extensions have a header, and of which length |
| GifStructure.SkipGifExtension | server/github-issue-attachment-validation.ts:464-485 | an extension is skipped to its end with its sub-blocks counted, or refused |
| GifStructure.SkipGifImage | server/github-issue-attachment-validation.ts:424-459 | an image is skipped to its end if it fits the screen and has a color table, or refused |
| GifStructure.TakenExactly | server/github-issue-attachment-validation.ts:404-462 | the loop takes exactly the lists with at most one image, inside the screen, within the part limit |
| GifStructure.ScreensExactly | server/github-issue-attachment-validation.ts:387-403 | screen size, color table flag and start of the blocks, from the bytes of the screen descriptor |
| GifStructure.FitsExactly | server/github-issue-attachment-validation.ts:430-448 | an image is taken exactly if it lies inside the screen and has a color table, by its descriptor's fields |
| GifStructure.PartsExactly | server/github-issue-attachment-validation.ts:404-507 | a block counts as one part, and each of its sub-blocks and their terminator as one more |
| GifStructure.ReadGifDimensions | server/github-issue-attachment-validation.ts:387-463 | the screen size is returned exactly if the bytes are a block list with exactly one image, ended by the trailer |
| CanonicalJson.PrintPrefixFree | server/connector-runtime-release-manifest.ts:272-296 | a printed value can be read off the front of a text in one way only |
| CanonicalJson.SortedEqualExactly | server/connector-runtime-release-manifest.ts:282-287 | sorting keys makes two values equal exactly if they are equal with records read as maps |
| CanonicalJson.CanonicalJsonInjective | server/connector-runtime-release-manifest.ts:260-296 | two values share their signed text if and only if they are equal with records read as maps; which text it is, is stated by the three members that follow |
| JsonReader.CanonicalTextIsRead | server/connector-runtime-release-manifest.ts:272-296 | the signed text is JSON: a reader written from the grammar of RFC 8259 gives the value back, with records as maps, and the keys of every record rise by code unit in the text |
| JsonReader.StringSpelled | server/connector-runtime-release-manifest.ts:273-275 | each code unit goes out as it is, except quotation marks, backslashes, control characters and halves of surrogate pairs, which have their shortest escapes |
| JsonReader.NumberSpelled | server/connector-runtime-release-manifest.ts:276-278 | an integer is spelled as its decimal digits without leading zeros, with a minus exactly if it is negative |
| JsonReader.RefusedExactly | server/connector-runtime-release-manifest.ts:272-296 | there is no text exactly if some part of the value is a number outside the safe range or no JSON value |
| CommandReplay.IdentifiersExactly | server/connector-runtime-command-contract.ts:110-111 | which texts are identifiers and machine identifiers, character by character |
| CommandReplay.JoinedKeyTellsApart | server/connector-runtime-command-contract.ts:279 | the joined key distinguishes machine, generation and operation for all well-formed grants |
| CommandReplay.CreatedPassesExactly | server/connector-runtime-command-contract.ts:231-270 | a created request passes the checks exactly for its machine, target and generation, from the skew before issue to the skew after expiry |
| CommandReplay.RefusedForTheFirstUnmet | server/connector-runtime-command-contract.ts:298-343 | a request passes the checks exactly if it is genuine by its fields; otherwise the first of eight demands that it does not meet gives the error |
| CommandReplay.CreatesExactly | server/connector-runtime-command-contract.ts:231-270 | which requests are created, what their grants say, and which error the others get |
| CommandReplay.PassedWereCreated | server/connector-runtime-command-contract.ts:231-347 | if no signature is forged and no two plans share a digest, the requests that pass are exactly those that were created, for these options and this time |
| CommandReplay.ReplayProtection.Purge | server/connector-runtime-command-contract.ts:278 | exactly the expired entries go |
| CommandReplay.ReplayProtection.Accept | server/connector-runtime-command-contract.ts:277-283 | answer and whole table: replayed, at capacity, or entered with its expiry |
| CommandReplay.VerifyRequest | server/connector-runtime-command-contract.ts:286-347 | accepted exactly if well-formed, validly signed, within its time and lifetime, bound field by field and by both digests to plan and options, with a fine release, and entered in the replay table if there is one; answer and whole table |
| CommandReplay.NoGrantIsAcceptedTwice | server/connector-runtime-command-contract.ts:272-284 | over any run whose clock does not go up and back down, no grant twice; over any run at all, the table within its bound |
| CommandReplay.TableIsHistory | server/connector-runtime-command-contract.ts:277-283 | the entries that count are those of the accepted grants that have not expired |
| CommandReplay.AcceptedExactly | server/connector-runtime-command-contract.ts:277-283 | a request that passes the checks is accepted exactly if its key is not live and fewer than the maximum are |
| CommandReplay.PurgedOnlyWhenExpired | server/connector-runtime-command-contract.ts:309-313 | an accepted grant leaves the table only when the time check refuses it, then and later |
| CommandReplay.ReplayNeedsPeak | server/connector-runtime-command-contract.ts:277-345 | whatever the requests, a grant is accepted twice only with room for two entries and times that go up and back down within one grant's longest validity |
| CommandReplay.ReplaysExactly | server/connector-runtime-command-contract.ts:231-345 | for a target and a runtime that restarts can be made for, at times for which they can: some requests get a grant accepted twice if and only if that is so |
| BranchComparison.UniqueByHash | server/github-branch-comparison.ts:150-157 | each hash once, with the first commit that has it, in the order of these |
| BranchComparison.Reaches | server/github-branch-comparison.ts:173-191 | ends, and is true exactly if a path of parents inside the slice exists |
| BranchComparison.AllocateUniqueBudget | server/github-branch-comparison.ts:193-216 | the two budgets are those of the greedy turns |
| BranchComparison.AllocationIsOptimal | server/github-branch-comparison.ts:193-216 | the whole budget is used, no side is starved, and no such allocation leaves less of the worse-off side |
| BranchComparison.AllocationExactly | server/github-branch-comparison.ts:193-216 | the greedy allocation is the valid one that levels what is left of the sides, with the odd place for head |
| BranchComparison.BuildSlice | server/github-branch-comparison.ts:218-277 | without a base in both histories, the first of each hash among half the limit of each branch's tips, head's first; with one, among the allotted tips and what follows the base, up to the limit; and both flags, in terms of hashes and parent paths |
| BranchComparison.SliceIsBounded | server/github-branch-comparison.ts:218-277 | distinct hashes, at most the limit, and only commits that were given |
| BranchComparison.FittingChainsAreComplete | server/github-branch-comparison.ts:218-277 | two parent chains whose own parts fit in all places but one are shown whole with the base, not truncated |
| BranchComparison.BaseFlagExactly | server/github-branch-comparison.ts:254-264 | for every input, the base is shown if and only if both histories have it and there are more places than sides with commits of their own, or two places and one tip |
| BranchComparison.WholeSlicesShowTheBase | server/github-branch-comparison.ts:254-276 | with three places or more, a slice that is not truncated shows the base |
| BranchComparison.FlagsExactly | server/github-branch-comparison.ts:254-276 | for histories without merges and with nothing in common above the base, exactly when a slice counts as whole, and when it shows the base |
| ComputeInventory.GroupByConnector | server/compute-inventory.ts:61-69 | each connector has the physical machines that list it, in order, once per listing |
| ComputeInventory.ComputeInventoryFromConnectors | server/compute-inventory.ts:51-201 | the snapshot is described by the fields of the reports: every host, environment, platform, definition and link, with names, resources and associations |
| ComputeInventory.DescribedExactly | server/compute-inventory.ts:22-201 | the description leaves nothing open: a snapshot fits the reports' fields if and only if it is the one that the pass computes |
| ComputeInventory.RunsOnExactly | server/compute-inventory.ts:82-125 | where an environment runs, by the five cases of resolution, evidence and number of listings |
| ComputeInventory.MetadataIsTold | server/compute-inventory.ts:22-45 | what stands for a connector without metadata: its kind by a table, its name, identity, platform and mode |
| ComputeInventory.ManualInOrder | server/compute-inventory.ts:61-69 | the machines that list a connector come in their own order, once for every time that they do |
| ComputeInventory.InventoryIsClosed | server/compute-inventory.ts:71-200 | every platform, host, parent, definition and environment that is mentioned is there, and each definition is used |
| ComputeInventory.ResourcesDoNotDependOnOrder | server/compute-inventory.ts:91-103 | any order or repetition of the same reports gives the same hosts with the same resources |
| ComputeInventory.PreferredIsBest | server/compute-inventory.ts:203-212 | the resources kept are the largest offer so far |
| ComputeInventory.AssociationsDoNotDependOnOrder | server/compute-inventory.ts:154-180 | an environment that reports itself has the host all its reports agree on, or a conflict if two differ, in any order |
| SemanticVersion.ParseExactly | server/connector-runtime-status.ts:20-21 | a text is read as a version exactly if it is that version written out |
| SemanticVersion.VersionTextsExactly | server/connector-runtime-status.ts:20-21 | which texts are versions, character by character, and the parts that each is read as |
| SemanticVersion.CompareSemanticVersions | server/connector-runtime-status.ts:28-64 | the loops compute the lexicographic comparison, or nothing unless both texts are versions |
| SemanticVersion.PrecedenceIsTotalPreorder | server/connector-runtime-status.ts:28-64 | antisymmetric and transitive over all versions, and 0 exactly if only build metadata differs |
| Numerals.NumericOrderIsNumberOrder | server/connector-runtime-status.ts:23-26 | on numerals without leading zeros, length then text is the order of integers |
| Numerals.LeadingZeroExactly | server/connector-runtime-status.ts:20-26 | a digit string compares as its number with all numerals if and only if it has no leading zero |
| SemanticVersion.PrecedenceIsSemVer | server/connector-runtime-status.ts:28-64 | on versions that SemVer allows, the comparison is the precedence of items 10 and 11 of SemVer 2.0.0 |
| ReleaseQueue.CombinedIsLargest | scripts/release-queue-state.ts:168-177 | the combined bump is the largest that any merge asks for by bump or intent, and there is one exactly if one is asked for |
| ReleaseQueue.NextExactly | apps/docs/lib/releases/semver.ts:44-62 | a bump keeps the parts before its own, raises its own by one, and sets those after it to 0 |
| ReleaseQueue.PendingExactly | scripts/release-queue-state.ts:67-76 | the merge that is due is the oldest that asks for a release, if any does |
| ReleaseQueue.RefusedForTheFirstUnmet | scripts/release-queue-state.ts:60-160 | there is a decision exactly if all demands on tags and failures are met, and the first that is not gives the reason |
| ReleaseQueue.UnfailedDecision | scripts/release-queue-state.ts:71-160 | without a failed release the current main is deployed if no merge asks, and else the oldest that does is released, under its next version |
| ReleaseQueue.EnforcementLasts | scripts/release-queue-state.ts:38-52 | releasing past the marker leaves the same owned commits |
| ReleaseQueue.OwnReservationChangesNothing | scripts/release-queue-state.ts:54-160 | the decision is the same once its own tag is reserved |
| ReleaseQueue.LaterMergesChangeNothing | scripts/release-queue-state.ts:67-160 | later merges do not change which release is next |
| ReleaseQueue.TombstoneLeadsToCatchUp | scripts/release-queue-state.ts:90-144 | what is decided after a failed release is the one catch-up at the last merge, with the largest bump asked for since, and no other tag is reserved |
| ReleaseQueue.UnfailedDecidesExactly | scripts/release-queue-state.ts:71-158 | without a failed release there is a decision if and only if no tag is reserved but the one that is due to the oldest merge, listed once |
| ReleaseQueue.CatchUpDecidesExactly | scripts/release-queue-state.ts:93-144 | with one failed release there is a decision if and only if it is the oldest merge's and reserved, a later merge asks for a release, and no third tag is reserved but the catch-up's, once, at the current main |
| ReleaseHandoff.StartsExactly | scripts/release-handoff-state.ts:18-47 | for every list of runs, a run is started if and only if there is no draft, all runs have failed, and the latest was a first attempt; and when each other answer is given |
| ReleaseQueueRuns.DecisionInPhase | scripts/release-queue-state.ts:60-160 | each of the four phases of the queue has one answer to any round, however the reservations are listed |
| ReleaseQueueRuns.StepKeepsPhase | scripts/release-queue-state.ts:60-160 | no merge, round, publication, stop or failure leaves the four phases; which one follows |
| ReleaseQueueRuns.TagsNeverMove | scripts/release-queue-state.ts:54-160 | in no step does a tag go away or move to another commit |
| ReleaseQueueRuns.TagsStay | scripts/release-queue-state.ts:54-160 | over any run a tag stays at its commit from the moment it exists |
| ReleaseQueueRuns.ReleasesRise | scripts/release-queue-state.ts:54-160 | over any run releases follow the history under strictly rising versions, each tag at its merge |
| ReleaseQueueRuns.OldestFirst | scripts/release-queue-state.ts:67-160 | over any run, whatever fails, each release is the oldest merge that asked for one or the catch-up of its failure with the largest bump since, and no covered merge that asked for one is passed over |
| ReleaseQueueRuns.FailedIsNotRunning | changelog/669.md:7-10 | a tag that was declared failed is not being released, so it is never published |
| ReleaseQueueRuns.CatchUpHappensOnce | scripts/release-queue-state.ts:90-144 | publishing the catch-up covers every merge up to its own and leaves no active failure |
| ReleaseQueueRuns.RefusesExactly | scripts/release-queue-state.ts:60-160 | a round is refused exactly while a failed release has no later source, after the catch-up has failed too, or after a merge behind a reserved catch-up |
| ReleaseQueueRuns.GetsStuckExactly | scripts/publish-merged-release.ts:374-413 | exactly the steps after which the queue is stuck: a merge behind a reserved catch-up whose run is not under way, the stop of a catch-up's run behind a merge or on its second attempt, or the stop of any run that leaves a draft or no result |
| ReleaseQueueRuns.StuckForever | scripts/publish-merged-release.ts:374-413 | a stuck queue stays stuck over any run: only merges and declared failures change the world, and no tag or release is added |
| ReleaseQueueRuns.StuckIsReached | scripts/publish-merged-release.ts:374-413 | runs from the start that end stuck: by a merge before a catch-up is started, by the second failure of a catch-up's run, by a draft left behind |
| ReleaseQueueRuns.StepsTowardsTheEnd | scripts/release-queue-state.ts:54-160 | each publication brings the queue one release closer to its end, a merge takes it back by one at most, and nothing else takes it back |
| ReleaseQueueRuns.QueueDrains | scripts/release-queue-state.ts:54-160 | unless it is stuck, lacks a source or waits for a failure, the queue can get to a deployment alone, after exactly as many publications as remain, through a catch-up too, and without a third attempt |
| ReleaseQueueRuns.DrainsExactly | scripts/release-queue-state.ts:54-160 | and if it is stuck, lacks a source or waits for a failure, it cannot |
| ReleaseQueueRuns.SourceEndsTheWait | scripts/release-queue-state.ts:103-112 | a queue that lacks a source gets to a deployment once a merge that asks for a release has come in |
| ReleaseQueueRuns.FailureEndsTheWait | scripts/release-tombstone.ts:107-126 | a due release whose two attempts have failed can be declared failed, and then the queue can get to a deployment exactly if a later merge asks for a release |
| CodexRpc.AppServerClient.NextMessage | server/local-codex-app-server-client.ts:420-447 | takes exactly the first message of the stream, or nothing |
| CodexRpc.AppServerClient.Call | server/local-codex-app-server-client.ts:391-414 | afterwards the stream is the old one less exactly the response, in order, on success and on error; or the whole stream; the result or the error's text are those of the response |
| CodexRpc.AppServerClient.RunTurn | server/local-codex-app-server-client.ts:353-389 | by the properties of the messages alone: the response's error or missing turn id is thrown; else the first message of the stream less the response that completes or fails the turn ends it, with the last completed answer or all deltas, trimmed, or the failure's text; if the turn is lost, the deltas sent are those of the messages taken, none of which ends it |
| CodexRpc.ResponsePlaceDoesNotMatter | server/local-codex-app-server-client.ts:353-389 | a turn is the same wherever its response fell among its notifications |
| CodexRpc.TurnMeans | server/local-codex-app-server-client.ts:142-215 | the messages up to the first that completes or fails the turn, by method, thread and turn, give the deltas and the text: the last answer, or if that is empty the deltas together, trimmed; empty text and failures are thrown |
| CodexRpc.TurnRan | server/local-codex-app-server-client.ts:353-414 | the same for a whole turn with its response, for every stream that holds its end |
| WorktreeProbes.ProbeTable.Subscribe | server/local-project-worktree-filesystem.ts:97-158 | reply and whole new state of a request |
| WorktreeProbes.ProbeTable.SettleProbe | server/local-project-worktree-filesystem.ts:116-128 | whole new state at the end of an operation |
| WorktreeProbes.ProbeTable.Abort | server/local-project-worktree-filesystem.ts:145-149 | whole new state after an abort |
| WorktreeProbes.RunKeepsInv | server/local-project-worktree-filesystem.ts:97-158 | over any interleaving: pending probes are the running operations, and everyone let in has been told once or still waits |
| WorktreeProbes.OneOperationPerKey | server/local-project-worktree-filesystem.ts:107-119 | at most one operation per key |
| WorktreeProbes.AtMostSixteen | server/local-project-worktree-filesystem.ts:109-113 | at most sixteen operations |
| WorktreeProbes.AbortSettlesOnlyItsOwn | server/local-project-worktree-filesystem.ts:145-149 | an abort settles those with its signal and nobody else, and stops no operation |
| WorktreeProbes.FinishSettlesTheRest | server/local-project-worktree-filesystem.ts:116-128 | the end of an operation settles all who still wait for it, with its result |
| WorktreeProbes.TurnedAwayExactly | server/local-project-worktree-filesystem.ts:104-114 | turned away exactly if aborted before, or if it would be a seventeenth operation |
| WorktreeMap.ConcurrentMap.Look | server/local-project-worktree-filesystem.ts:196-200 | whole new state when a worker looks for work |
| WorktreeMap.ConcurrentMap.Receive | server/local-project-worktree-filesystem.ts:201 | whole new state when a result comes in |
| WorktreeMap.EachIndexOnceInOrder | server/local-project-worktree-filesystem.ts:187-209 | under any interleaving each index is taken once, in order, and results stand where their values did |
| WorktreeMap.AllDoneIsComplete | server/local-project-worktree-filesystem.ts:205-208 | when all workers are done the results are complete if and only if there was a worker or nothing to do |
| AllowedHosts.PartsAgree | server/dev-server-validation.ts:68-80 | printing a part's number gives the part back exactly if the connector's check for leading zeros passes |
| AllowedHosts.GrammarsAgree | server/connector-dev-server-contract.ts:211-236 | both grammars accept the same texts |
| AllowedHosts.HostsExactly | server/dev-server-validation.ts:90-99 | the hosts are exactly the texts of two labels or more of small letters, digits and inner hyphens, up to 63 and 253 characters; addresses and excluded characters decide nothing |
| AllowedHosts.OutOfRangeIsAccepted | server/dev-server-validation.ts:68-99 | four numbers above 255 are no address, and accepted as a name |
| AllowedHosts.ServiceHostsExactly | server/dev-server-validation.ts:101-118 | which lists the service accepts, and that the result is their hosts, each once, in the order of text |
| AllowedHosts.ServiceListsPass | server/dev-server-validation.ts:101-118 | every list the service returns passes the connector's check |
| AllowedHosts.PassingIsNormalExactly | server/connector-dev-server-contract.ts:251-256 | the lists that pass are exactly those either normaliser leaves alone |
| AllowedHosts.NormalizingTwice | server/dev-server-validation.ts:101-118 | normalising again, on either side, changes nothing |
| AllowedHosts.NormalizersAgree | server/connector-dev-server-contract.ts:238-249 | the two normalisers agree, except that the connector's refuses blank entries |

## Left out

- Input and output: HTTP routes, GitHub clients, SQL text, processes, the filesystem and environment variables are parameters, events or absent.
- Cryptography: SHA-256, Ed25519 and CRC-32 are function parameters; inventory identifiers are their parts, which assumes that no two digests coincide. Inflating PNG data is a parameter that gives bytes and a count.
- Issue creation: request normalisation, fingerprints and markers in issue bodies; an operation is a user, a repository and an identifier instead of their joined text. The grace period for pending records is arbitrary. Expected failures of reads and writes are events. Liveness is claimed only as far as requests can end: a failed search before creation leaves the record pending by design.
- IssueOperationStore.LazyRunRefinesEager: excludes runs in which a transition writes an expired record, because there the two stores do differ.
- IssueOperationStore.MemoryOperationStore.Transition: records are values in a map, so sharing of record objects is not modelled.
- The Postgres store is the same abstract machine if its client has transactions; a completed row whose issue cannot be read is the event that makes it ambiguous. Transactions are optional (server/database/client.ts:11). Without them two reservations can both read a retryable row and both be answered as new, because the row count of the update is not looked at (server/github-issue-creation-operation-store.ts:205-230); that store is not part of this model.
- DevServerLocks.DeadlockFree: a request is a section with its plan of locks and slots; an inspection that forks and joins is several sections, because it holds nothing while it waits for them. External calls are taken to return.
- SlotQueues.SlotQueue.Acquire: the caller's identity stands for the promise that is resolved.
- Media types: detection from the first bytes, which comes before the scanners, is not modelled; the GIF version text is not looked at by its scanner.
- JpegStructure.ReadJpegDimensions: the part limit is checked when a segment is taken rather than when the loop starts its turn, which gives the same results.
- CanonicalJson.CanonicalJsonInjective: text is UTF-16 code units; encoding as UTF-8 bytes and the checks of a manifest's shape are not modelled. Fractions and other refused values are one value.
- CommandReplay.VerifyRequest: timestamp syntax, digest and signature syntax, and the shape and signature of releases are one parameter each.
- BranchComparison.BuildSlice: commits have a hash, parents and a subject; authors, dates and references only pass through.
- BranchComparison.FlagsExactly: gives `truncated` exactly only for histories without merges that have nothing in common above the base; with merges a path may lead around a missing commit, and `BuildSlice` states the flag in terms of such paths.
- ComputeInventory.ComputeInventoryFromConnectors: lists of platforms, hosts, definitions and environments are sets and maps, so their order is not modelled; names of hosts, and the host of a parent that never reports itself, do depend on the order of connectors. `validateComputeInventory` is not part of this model.
- ComputeInventory.ResourcesDoNotDependOnOrder: resources are their JSON text, which has no raw NUL.
- ReleaseQueue: versions and tags are triples of numbers; safe-integer limits, tag names as text and the evidence behind a failed release are left out. Commits of the main branch differ from each other, and each merge is a valid queue item. How a release run ends is an event. Release runs that somebody starts by hand, among them the one that the evidence of a failed release cites as verification, and drafts that somebody removes are not part of this model, so "stuck" means stuck without them.
- CodexRpc.AppServerClient.Call: an error message that is neither text nor absent is taken as absent. Writing requests, starting threads and reading the model catalogue are left out.
- WorktreeProbes.ProbeTable.SettleProbe: the subscriber sets of all probes are one list in order of subscription; listeners that are removed are not modelled apart from it.
- WorktreeMap: rejection of the whole map when a worker stops is left out; a stopped worker is the event.
- AllowedHosts.GrammarsAgree: trimming and lower-casing are a parameter that leaves text of small letters, digits, hyphens and dots alone.
- SemanticVersion.CompareSemanticVersions: characters are compared as such; the pattern admits only ASCII.
- Twins: the stop contract's replay table and the content-load slots repeat logic that is modelled here.
- The sort order of worktrees is not antisymmetric between non-ready states, so no ordering is claimed for it.
