# ambient-fs: a verified model of its stateful core

ambient-fs watches project directories, stores file events, streams them to subscribers and exchanges them between
machines. This project models the parts of it that keep state, and proves what they promise over every input and every
run. Each operation of the Rust and TypeScript code is a function, a step of a state machine, or a method that changes
an object in place; each such method is proved equal to a function, and the theorems are about that function.

| module | component |
|---|---|
| `Text`, `Paths`, `FileTree`, `TreeMap`, `TreeInvariants`, `TreeOrder` | the sorted file tree as a value, the path map it represents, its invariants, independence of insertion order |
| `TreeHeap`, `TreeSort`, `ProjectTree`, `PathFilter`, `DirectoryScan` | the tree changed in place, patches and their replay, ignore patterns, the capped directory scan |
| `Timestamps`, `Calendar`, `Events`, `EventStore` | RFC 3339 text and its order, seconds since 1970, the event table, queries and pruning |
| `Grpc`, `Sync`, `SyncStream`, `SyncProtocol` | messages between machines, one sync, the stream it reads, runs of syncs |
| `RpcClient`, `Transport` | the two JSON-RPC clients as state machines |
| `Subscriptions`, `Forwarding` | the subscription manager under its two locks, and what one connection receives |
| `Agents` | the agent tracker |
| `Analyzer`, `AnalysisCache`, `Pipeline` | the TODO scanner, the analysis table, throttled concurrent analysis |
| `Gateway` | the relay between daemons |

`dafny verify dfyconfig.toml` checks everything.

Conventions. A run is a list of steps; a step of a concurrent component is one section of code between two awaits or
under one lock, so an arbitrary list is an arbitrary interleaving. Clock readings, file contents, replies and failures
are parameters, so the theorems hold for all of them. Fields that exist only for the proofs (histories, what has been
offered or settled) are named as such where they are declared.

Where a promise does not hold as made, the code is kept as it is and the exact condition is proved:

- A rename whose destination is occupied removes the old node, adds nothing and emits no patch. Replaying patches
  follows the server exactly when no such rename occurs (`ProjectTree.ReplayFollowsServer`; one such rename:
  `ProjectTree.RenameOntoAnother`).
- Insertion order matters exactly when a file lies above another path, one path has two kinds, or two siblings of one
  kind differ only in case (`TreeOrder.OrderIndependence`; one such pair: `TreeOrder.CaseTieShows`).
- A path spelled with extra slashes is recorded as written (`TreeInvariants.AddKeepsPathsIff`; the path `/a`:
  `TreeInvariants.SlashedPathStays`).
- Times outside years 0 to 9999 print with a sign and cannot be read back (`Timestamps.ParseUndoesFormat`), and a year
  after 9999 sorts before every four-digit year (`Timestamps.TextOrderIsTimeOrder`; year 10000:
  `Timestamps.YearTenThousand`), so as a `since` it excludes nothing (`Timestamps.TextReaches`). A prune then can change
  the answer to a query with such a `since`, although its cutoff is earlier: exactly when it does not leave enough
  (`EventStore.PruneKeepsRecentQueries`; one such query: `EventStore.LateSinceMissesPruned`).
- Two whole-history syncs are in general not enough for two machines to settle: a third brings back truncated copies of
  a machine's own events, exactly when one of them has no whole-second twin (`SyncProtocol.ThirdSyncInsertsIff`; a
  single event is enough: `SyncProtocol.OwnEventComesBack`). After it nothing more is inserted
  (`SyncProtocol.TwoMachinesSettle`).
- `sync_events` puts the history into a channel of 32 places before it hands out the reading end, so a longer history
  is never answered (`SyncStream.SyncEvents`; 33 events: `SyncStream.ThirtyThreeAreTooMany`). A sync acts on a stream
  only at its end, and that comes exactly when the peer's project channel was torn down or the stream has fallen too far
  behind (`SyncStream.StreamCanEndIff`). The theorems on runs of syncs are about streams that ended with nothing but the
  history in them.
- A client that keeps its receiver and keeps up gets every broadcast made since it subscribed exactly when each was made
  while its receiver was on the project's channel (`Forwarding.NothingMissedIff`). Any connection's `unsubscribe` lowers
  the shared count without asking who is subscribed, so it can tear that channel down; what is broadcast after that and
  before the next subscribe never arrives (`Forwarding.BroadcastWhileDetachedIsLost`; three requests are enough:
  `Forwarding.TornDownChannelLosesBroadcast`).
- A prune of stale agents keeps the count of a survivor's file exactly when some holder of the file was fresh in its
  first pass (`Agents.SurvivorKeepsCountIff`). A count is lost only if the clock ran backwards between the two passes,
  which by itself does not lose it (`Agents.LostCountMeansClockWentBack`, `Agents.ClockBackLosesCount`). Whatever the
  clock, an activity that comes between the prune's two locks can leave a held file without a count
  (`Agents.HeldFilesAreCounted`, `Agents.PruneTakesCountIff`; one such run: `Agents.HeldFileLosesCount`).
- A file that changes between its event and its analysis is cached under the old hash with the new counts
  (`Pipeline.FiledUnderEventHash`, `Pipeline.WrongRowMeansMismatch`; a file that grew to one line:
  `Pipeline.ChangedFileIsMisfiled`).
- The gateway's `register` call drops the receiving end of the channel it registers as it returns, so that channel
  stays in the routing table and refuses every event (`Gateway.RegisterCallReceivesNothing`).

## Model

| member | source | states |
|---|---|---|
| `Paths.ComponentsMeaning` | crates/ambient-fs-core/src/tree.rs:66 | A path has no components if empty, itself as the only one if it has no slash, and otherwise the components on both sides of each slash, so extra slashes do not count. |
| `TreeMap.PrefixClosed` | crates/ambient-fs-core/src/tree.rs:160-182 | The paths a tree records are closed under taking a prefix: whatever lies above a recorded path is recorded. |
| `TreeMap.AddRefines` | crates/ambient-fs-core/src/tree.rs:65-113 | On the map of paths to kinds, adding records the path and its missing prefixes as directories and nothing else; it reports false, and changes nothing, exactly when the path is empty or already recorded; sibling names stay distinct. |
| `TreeMap.RemoveRefines` | crates/ambient-fs-core/src/tree.rs:118-145 | Removing deletes exactly the path and everything below it, and reports whether it was there; the root cannot be removed. |
| `TreeMap.RenameRefines` | crates/ambient-fs-core/src/tree.rs:151-157 | A rename succeeds exactly when the old path is there and the new one is not still present after the removal; it replaces a whole subtree by one childless node; when it fails on an occupied destination the old path is gone all the same. |
| `FileTree.LowerAt` | crates/ambient-fs-core/src/tree.rs:33-35 | Lower case changes the letters A to Z to a to z, character by character, and nothing else. |
| `FileTree.SortedIsListed` | crates/ambient-fs-core/src/tree.rs:33-35 | Being in sort-key order at every node is exactly this: directories stand before files, and names of one kind in the order of their lower-case spelling. |
| `FileTree.InsertKeepsListed` | crates/ambient-fs-core/src/tree.rs:185-190 | Binary-search insertion into children so listed adds the one node and leaves them so listed. |
| `TreeInvariants.AddPartsKeepsSorted` | crates/ambient-fs-core/src/tree.rs:73-113 | Binary-search insertion keeps every sibling list of the tree in sort-key order, for any part of a path below any node. |
| `TreeInvariants.RemovePartsKeepsSorted` | crates/ambient-fs-core/src/tree.rs:126-145 | Removal keeps every sibling list in sort-key order. |
| `TreeInvariants.AddKeepsListed` | crates/ambient-fs-core/src/tree.rs:65-113 | In a tree that lists directories first and lower-case names in order, adding any path keeps every sibling list so. |
| `TreeInvariants.RemoveKeepsListed` | crates/ambient-fs-core/src/tree.rs:118-145 | In such a tree, removing any path keeps every sibling list so. |
| `TreeInvariants.StableSortStable` | crates/ambient-fs-core/src/tree.rs:38-39 | The sibling sort is stable: nodes with equal sort keys keep their order. |
| `TreeInvariants.SortRecursiveSorts` | crates/ambient-fs-core/src/tree.rs:38-43 | `sort_recursive` puts every sibling list of the tree in order. |
| `TreeInvariants.SortRecursiveLists` | crates/ambient-fs-core/src/tree.rs:38-43 | After it every sibling list of any tree has directories first, and within a kind lower-case names in order. |
| `TreeInvariants.SortRecursiveKeepsMap` | crates/ambient-fs-core/src/tree.rs:38-43 | It moves nodes among their siblings only: every path keeps its kind. |
| `TreeInvariants.SortRecursiveFixes` | crates/ambient-fs-core/src/tree.rs:38-43 | `sort_recursive` is the identity on a tree exactly when the tree was already in order. |
| `TreeInvariants.FoundPath` | crates/ambient-fs-core/src/tree.rs:160-182 | In a correctly labelled tree, the node found under a list of names records the join of those names as its path. |
| `TreeInvariants.AddKeepsPathsIff` | crates/ambient-fs-core/src/tree.rs:65-113 | Adding keeps every recorded path correct exactly when the given path is spelled canonically or nothing was added. |
| `TreeInvariants.SlashedPathStays` | crates/ambient-fs-core/src/tree.rs:65-113 | Added as `/a` to an empty tree, the file `a` is found under its name and records another path. |
| `TreeInvariants.RemovePartsKeepsPaths` | crates/ambient-fs-core/src/tree.rs:126-145 | Removal keeps every recorded path correct. |
| `TreeInvariants.MapDeterminesTree` | crates/ambient-fs-core/src/tree.rs:46-56 | A sorted, correctly labelled tree without case ties is determined by the path map it represents. |
| `TreeOrder.AddAllKind` | crates/ambient-fs-core/src/tree.rs:65-113 | After any list of additions, a path has the kind it had before, or else the kind given by the first item that touches it. |
| `TreeOrder.OrderDoesNotMatter` | crates/ambient-fs-core/src/tree.rs:65-113 | Canonical paths, no file above another and no case ties, build the same tree in every order, repetitions included. |
| `TreeOrder.ClashShows` | crates/ambient-fs-core/src/tree.rs:87-93 | Two items that disagree about the kind of a path give different trees in their two orders, whatever follows. |
| `TreeOrder.TieShows` | crates/ambient-fs-core/src/tree.rs:185-190 | Two siblings of one kind whose names differ only in case give different trees in their two orders, whatever follows. |
| `TreeOrder.OrderIndependence` | crates/ambient-fs-core/src/tree.rs:65-113 | The permutations of a list of canonical items, repetitions kept, all build one tree if and only if the list has no such clash and no such tie. |
| `TreeOrder.OrderMatters` | crates/ambient-fs-core/src/tree.rs:65-113 | For a list with a clash or a tie, two permutations of that very list are given that build different trees. |
| `TreeOrder.CaseTieShows` | crates/ambient-fs-core/src/tree.rs:185-190 | The files `A` and `a` in one directory give different trees in their two orders. |
| `TreeOrder.BuiltTreeNeedsNoSort` | crates/ambient-fs-core/src/tree.rs:38-43 | `sort_recursive` changes no tree built by additions. |
| `TreeOrder.BuiltTreeIsListed` | crates/ambient-fs-core/src/tree.rs:65-113 | Every sibling list of a tree built by additions has directories first, and within a kind lower-case names in order. |
| `TreeHeap.TreeNode.FindPosition` | crates/ambient-fs-core/src/tree.rs:185-188 | The bisection loop over the children finds the position that the specification's bisection of their keys gives. |
| `TreeHeap.TreeNode.InsertSorted` | crates/ambient-fs-core/src/tree.rs:185-190 | In place: the child list becomes the old one with the node at its sorted position, ownership grows by that node only, and children listed directories first and by lower-case name stay so listed. |
| `TreeHeap.TreeNode.AddRecursive` | crates/ambient-fs-core/src/tree.rs:73-113 | In place: result and tree are those of the value-level addition, all nodes stay separately owned, and only fresh nodes are added. |
| `TreeHeap.TreeNode.RemoveRecursive` | crates/ambient-fs-core/src/tree.rs:126-145 | In place: result and tree are those of the value-level removal. |
| `TreeHeap.TreeNode.RetainOthers` | crates/ambient-fs-core/src/tree.rs:134-137 | In place: exactly the children of other names are kept, in order. |
| `TreeHeap.TreeNode.FindRecursive` | crates/ambient-fs-core/src/tree.rs:165-182 | Returns a node of the tree holding the subtree that the specification finds, or null exactly when it finds none. |
| `TreeHeap.AddNode` | crates/ambient-fs-core/src/tree.rs:65-71 | `add_node` on the node structure equals the specified addition for every path string. |
| `TreeHeap.RemoveNode` | crates/ambient-fs-core/src/tree.rs:118-124 | `remove_node` on the node structure equals the specified removal for every path string. |
| `TreeHeap.RenameNode` | crates/ambient-fs-core/src/tree.rs:151-157 | `rename_node` on the node structure equals the specified rename: remove first, then add. |
| `TreeHeap.FindNode` | crates/ambient-fs-core/src/tree.rs:160-163 | `find_node` returns the specified subtree, or null exactly when there is none. |
| `TreeSort.SortNodes` | crates/ambient-fs-core/src/tree.rs:39 | The node list is rearranged, each node once, exactly as the stable sort rearranges the trees the nodes hold. |
| `TreeSort.SortRecursive` | crates/ambient-fs-core/src/tree.rs:38-43 | In place: the nodes hold the recursively sorted tree, over the same set of nodes, with directories first and lower-case names in order at every node. |
| `ProjectTree.EventMeaning` | crates/ambient-fs-server/src/tree_state.rs:147-198 | On the map of paths to kinds: created records the path as a file and its missing prefixes as directories, deleted takes away the path and all below it, renamed takes the old path away and records the new one as a file unless that is still there, modified and a rename without an old path change nothing; the patch names the event's own paths and is there exactly when the path was absent, was present, or the rename succeeded. |
| `ProjectTree.PatchIsFaithfulIff` | crates/ambient-fs-server/src/tree_state.rs:147-198 | Replaying one event's patch (or nothing, if it has none) gives the server's tree if and only if the event is not a rename that loses its node. |
| `ProjectTree.ReplayFollowsServer` | crates/ambient-fs-server/src/tree_state.rs:147-198 | Over any run of events, a copy fed the patches agrees with the server after every event if and only if no event of the run is such a rename. |
| `ProjectTree.RenameOntoAnother` | crates/ambient-fs-server/src/tree_state.rs:187-198 | With files `a` and `b`, renaming `a` onto `b` loses `a`, keeps `b` and emits no patch. |
| `ProjectTree.ProjectTree.ApplyEvent` | crates/ambient-fs-server/src/tree_state.rs:147-182 | In place: on the map of paths, what each event type does, what it leaves, and exactly when it emits which patch; names stay distinct. |
| `ProjectTree.ProjectTree.ApplyRename` | crates/ambient-fs-server/src/tree_state.rs:187-198 | In place: new tree, and a patch exactly when the rename reports success. |
| `ProjectTree.ProjectTree.ScanDirectory` | crates/ambient-fs-server/src/tree_state.rs:65-139 | The loop with its shared counter adds exactly the first entries of the uncapped walk that the limit leaves room for, and counts them; it terminates. |
| `ProjectTree.FromDirectory` | crates/ambient-fs-server/src/tree_state.rs:52-62 | A scanned project is the empty tree after the first 10000 items of the walk. |
| `PathFilter.IgnoringExtends` | crates/ambient-fs-core/src/filter.rs:28-39 | Ignoring is closed under extending a path: what is ignored stays ignored however it continues. |
| `PathFilter.PatternMeaning` | crates/ambient-fs-core/src/filter.rs:58-75 | A pattern that is a star and text matches what ends with the text, text and a star what begins with it, and any other only itself, a lone star included. |
| `PathFilter.SlashesDoNotMatter` | crates/ambient-fs-core/src/filter.rs:59 | Trailing slashes of a pattern change nothing. |
| `PathFilter.IgnoreNames` | crates/ambient-fs-core/src/filter.rs:28-73 | A path of ordinary names is ignored if and only if one of the names matches one of the patterns. |
| `DirectoryScan.ScanRespectsCaps` | crates/ambient-fs-server/src/tree_state.rs:73-130 | A scanned tree records exactly the paths added: at most 10000, none deeper than 20 components, none with an ignored component. |
| `DirectoryScan.ScanIsExact` | crates/ambient-fs-server/src/tree_state.rs:88-136 | If at most 10000 entries qualify, the tree records, for paths of at most 20 names none of which matches a pattern, exactly the reachable entries with their kinds, and nothing else. |
| `DirectoryScan.KindMeaning` | crates/ambient-fs-server/src/tree_state.rs:88-130 | An entry is reachable with a kind exactly if a chain of files and directories with the names of the path leads to it, each in the one before, with no symbolic link, entry of unknown type or unreadable directory on the way. |
| `Timestamps.FracOrder` | crates/ambient-fs-store/src/store.rs:125 | Fractions printed with 0, 3, 6 or 9 digits and followed by the offset sort as the numbers they stand for. |
| `Timestamps.TextOrderIsTimeOrder` | crates/ambient-fs-store/src/store.rs:191-201 | Against any time of years 0 to 9999, text order is time order in both directions and equal texts are equal times, for every time except one after year 9999, whose text always sorts first. |
| `Timestamps.TextReaches` | crates/ambient-fs-store/src/store.rs:191-194 | For a time of years 0 to 9999, `timestamp >= since` over text means not before `since`, except that a `since` after year 9999 excludes nothing. |
| `Timestamps.ParseUndoesFormat` | crates/ambient-fs-store/src/store.rs:219-221 | Reading a printed time gives it back if and only if its year has four digits; other texts are refused. |
| `Timestamps.ParsedIsFourDigit` | crates/ambient-fs-store/src/store.rs:219-221 | Whatever text is accepted names a valid time with a four-digit year. |
| `Timestamps.FormatMeaning` | crates/ambient-fs-store/src/store.rs:125 | A printed time of years 0 to 9999 has year, month, day, hour, minute and second at the places of RFC 3339, each with its number, 60 in a leap second, and the fraction in the fewest of 0, 3, 6 and 9 digits. |
| `Timestamps.DecimalDigits` | crates/ambient-fs-store/src/store.rs:125 | Fields are decimal and filled up with zeros: 2024 is `2024`, 7 is `07`. |
| `Timestamps.YearTenThousand` | crates/ambient-fs-store/src/store.rs:191-221 | The first moment of year 10000 is later than that of 2020, sorts before it as text and cannot be read back. |
| `Calendar.EpochMeaning` | crates/ambient-fs-server/src/grpc.rs:90 | 1 January 1970 begins at second 0, the calendar day after any day 86400 seconds later, and the time of day is added. |
| `Calendar.MonthLengths` | crates/ambient-fs-server/src/grpc.rs:90 | Months have 31 or 30 days, February 28 or, every fourth year but three of four centuries, 29. |
| `Calendar.EpochRange` | crates/ambient-fs-server/src/grpc.rs:115 | A second has a date exactly from the first second of year -262143 to the last of year 262142. |
| `Calendar.EpochRoundTrip` | crates/ambient-fs-server/src/grpc.rs:90-115 | Going to whole seconds since 1970 and back keeps every supported time but its fraction. |
| `Calendar.EpochOrder` | crates/ambient-fs-server/src/grpc.rs:90 | Fewer seconds since 1970 is an earlier time. |
| `Calendar.FromEpoch` | crates/ambient-fs-server/src/grpc.rs:115 | A conversion that succeeds gives the valid whole-second time with exactly that number of seconds. |
| `Calendar.MinusSecond` | crates/ambient-fs-server/src/sync.rs:161 | Exactly one second earlier, a valid and strictly earlier time, when there is one. |
| `Calendar.MinusDays` | crates/ambient-fs-store/src/prune.rs:393-395 | A retention cutoff is the clock's time of day a whole number of days earlier. |
| `Events.EventTypeNames` | crates/ambient-fs-core/src/event.rs:15-42 | The four names of event types, each read as its own type, and every other text refused. |
| `Events.SourceNames` | crates/ambient-fs-core/src/event.rs:57-86 | The five names of sources, each read as its own source, and every other text refused. |
| `Events.EventTypeRoundTrip` | crates/ambient-fs-core/src/event.rs:15-42 | Every event type's name parses back to it. |
| `Events.SourceRoundTrip` | crates/ambient-fs-core/src/event.rs:57-86 | Every source's name parses back to it. |
| `EventStore.RowRoundTrip` | crates/ambient-fs-store/src/store.rs:120-236 | A row has every field of its event in its column, and reads back as the event if and only if the event's year has four digits; otherwise it fails on the timestamp. |
| `EventStore.FilterMeansTime` | crates/ambient-fs-store/src/store.rs:173-199 | The WHERE clause over text selects exactly the events the filter means, `since` included. |
| `EventStore.AnswerMeaning` | crates/ambient-fs-store/src/store.rs:173-205 | An answer has only rows of the project, path and source asked for and not below the text of `since`, latest text first; all of them, each as often as the table has it, if there is no limit or fewer than it; never more than the limit. |
| `EventStore.OneBadRowFails` | crates/ambient-fs-store/src/store.rs:211-238 | Reading an answer succeeds if and only if every one of its rows can be read. |
| `EventStore.AnswersAgree` | crates/ambient-fs-store/src/store.rs:201-205 | Any two answers the database may give to one query have the same length and the same timestamps throughout, so they differ only in events of equal time. |
| `EventStore.QueryMeansTime` | crates/ambient-fs-store/src/store.rs:167-239 | A query over stored events reads back without error, returns only matching events, latest first, and all of them when unlimited. |
| `EventStore.PruneKeepsRecentQueries` | crates/ambient-fs-store/src/prune.rs:417-424 | Pruning at a cutoff changes no query, limited or not, whose `since` is at or after the cutoff and not after year 9999; for a later `since`, the answers stay the same if and only if the prune leaves enough of what the rest of the filter selects. A `since` outside years 0 to 9999 is taken over rows that can be read back. |
| `EventStore.PruneKeepsAnswersIff` | crates/ambient-fs-store/src/prune.rs:417-424 | For every table, query and cutoff: the possible answers before and after the prune are the same if and only if it removes no matching row, or leaves at least as many matching rows as the limit. |
| `EventStore.LateSinceMissesPruned` | crates/ambient-fs-store/src/prune.rs:417-424 | An event of 2020, a prune at 2021 and a query since year 10000: the event is the answer before the prune and not after it. |
| `EventStore.PruneKeepsEnough` | crates/ambient-fs-store/src/prune.rs:417-424 | A limited query has the same answers before and after a prune that leaves at least that many matching rows. |
| `EventStore.PruneAndLatest` | crates/ambient-fs-store/src/prune.rs:417-424 | Pruning leaves a file's latest event as it was if that is not older than the cutoff, and leaves nothing of the file otherwise. |
| `EventStore.LatestMeaning` | crates/ambient-fs-store/src/store.rs:241-248 | Every answer to the query for the latest event of a file is one row of that project and path, none of which has a later timestamp, or nothing exactly when there is no such row. |
| `EventStore.LatestIsLatest` | crates/ambient-fs-store/src/store.rs:241-279 | For readable rows that row is an event no event of the file is later than, and any query of that project and path limited to one yields an event of the same time. |
| `EventStore.RetentionKeepsRecent` | crates/ambient-fs-store/src/prune.rs:393-424 | Pruning by retention keeps an event exactly when its text reaches the cutoff's: every event of the last days and none from a second or more before them, unless the cutoff lies after year 9999, when nothing goes. |
| `EventStore.EventStore.Insert` | crates/ambient-fs-store/src/store.rs:120-138 | Appends the event's row under the next id and returns that id. |
| `EventStore.EventStore.InsertBatch` | crates/ambient-fs-store/src/store.rs:140-165 | Appends the rows of all events in order under consecutive ids, as one change. |
| `EventStore.EventStore.Query` | crates/ambient-fs-store/src/store.rs:167-239 | Returns what reading some permitted answer row by row yields, stopping at the first unreadable row. |
| `EventStore.EventStore.ReadBack` | crates/ambient-fs-store/src/store.rs:211-238 | The reading loop equals the recursive definition, the first failing row deciding the error. |
| `EventStore.EventStore.GetLatest` | crates/ambient-fs-store/src/store.rs:241-279 | Answers with an event read from a row of that project and path that no such row is later than, or with that row's error; with nothing exactly when there is no such row; for readable rows no event of the file is later. |
| `EventStore.EventStore.PruneEventsBefore` | crates/ambient-fs-store/src/prune.rs:417-424 | In place: a row keeps its number of occurrences if its text is not below the cutoff's and has none left otherwise, order kept; the rows removed are counted; among readable rows, what is left is what is not before the cutoff, except that a cutoff after year 9999 removes nothing. |
| `EventStore.BatchKeepsWritten` | crates/ambient-fs-store/src/store.rs:140-165 | Appending a batch to readable rows leaves all rows readable if and only if every event of the batch is of years 0 to 9999. |
| `Grpc.MessageFields` | crates/ambient-fs-server/src/grpc.rs:104-129 | A message becomes an event exactly when its second has a date and its type and source are known, with the message's second and fields and the receiver's machine id. |
| `Grpc.MessageRoundTrip` | crates/ambient-fs-server/src/grpc.rs:88-129 | An event sent as a message arrives as itself with its fraction dropped and the receiver's machine id in place of the sender's. |
| `Sync.FoundIsHas` | crates/ambient-fs-server/src/sync.rs:150-172 | When every row can be read, querying from one second earlier and comparing time, path and machine finds an event if and only if the store has it. |
| `Sync.NewRowsAreNewEvents` | crates/ambient-fs-server/src/sync.rs:109-133 | Then what a sync adds, decided by queries over rows, is what the stored events call for. |
| `Sync.ExamineMeaning` | crates/ambient-fs-server/src/sync.rs:111-132 | A machine's own messages are passed over; others without a date, known type or known source cannot be converted; the rest are new exactly when the store has no event of this machine with their project, path and second. |
| `Sync.SyncFailsIff` | crates/ambient-fs-server/src/sync.rs:117-119 | A sync fails exactly when some message of another machine has no date, no known type or no known source. |
| `Sync.AddsOne` | crates/ambient-fs-server/src/sync.rs:107-133 | A stream of one message adds the event it is new as, or nothing, or fails. |
| `Sync.AddsInOrder` | crates/ambient-fs-server/src/sync.rs:107-139 | What a sync adds comes in the order of the stream. |
| `Sync.SyncManager.EventExists` | crates/ambient-fs-server/src/sync.rs:150-172 | For any store: true exactly when the query one second back can be read throughout and selects an event of this time, path and machine, so a query that fails counts as absent; for readable rows, true exactly when the store holds such an event. |
| `Sync.SyncManager.ExamineMessage` | crates/ambient-fs-server/src/sync.rs:116-132 | For any store: classifies a message as the machine's own or found, unconvertible, or new; unconvertible exactly if it is another machine's and has no date, known type or known source. |
| `Sync.SyncManager.SyncPeer` | crates/ambient-fs-server/src/sync.rs:79-147 | For any store: appends exactly the new events of the stream in order and moves the peer's clock; if any message of another machine has no date, known type or known source, nothing is inserted, the clock stays and the first such message is named. Readable rows stay readable if and only if all that is added is of years 0 to 9999. |
| `SyncStream.SyncEvents` | crates/ambient-fs-server/src/grpc.rs:424-489 | For any store: refused for an invalid second; failing if a row the query selects cannot be read; never returning if more than 32 rows are selected; and otherwise opening a stream with exactly the messages of those rows, which for readable rows are those of the project's events from that second on. |
| `SyncStream.SentMeaning` | crates/ambient-fs-server/src/grpc.rs:434-442 | The history from a second on is the project's events not before that second, all of them if it lies after year 9999. |
| `SyncStream.ThirtyThreeAreTooMany` | crates/ambient-fs-server/src/grpc.rs:457-465 | A history of 33 events is over that bound. |
| `SyncStream.StreamIsHistoryThenLive` | crates/ambient-fs-server/src/grpc.rs:457-488 | In every run of an open stream, what the client has read, what is on its way and what the task has not taken are the history and then all events published since, in order; at the end of the stream the client has read all of it, unless the task fell behind by more than 256. |
| `SyncStream.StreamCanEndIff` | crates/ambient-fs-server/src/grpc.rs:475-486 | In every reachable state, the end of the stream can come with nothing further published if and only if the project's channel was torn down or the task is behind by more than 256. |
| `SyncProtocol.SyncEffect` | crates/ambient-fs-server/src/sync.rs:109-139 | A sync brings no new project, path and second into the world, settles every sent event of another machine, and inserts something if and only if one of those was not settled. |
| `SyncProtocol.EchoesDieOut` | crates/ambient-fs-server/src/sync.rs:64-147 | For any number of machines, any schedule and any windows, the syncs that insert anything number at most machines times distinct keys. |
| `SyncProtocol.TwoMachinesSettle` | crates/ambient-fs-server/src/sync.rs:79-172 | Two machines that start with their own events only and read each other's whole history in turn insert nothing in either direction after three syncs. |
| `SyncProtocol.ThirdSyncInsertsIff` | crates/ambient-fs-server/src/sync.rs:109-133 | The third of those syncs inserts nothing if and only if every event the first machine sends had a whole-second twin of its own or an event of the peer with its key. |
| `SyncProtocol.OwnEventComesBack` | crates/ambient-fs-server/src/sync.rs:109-133 | With an empty peer and one event off the whole second, the first two syncs are quiet and faithful and the third inserts a truncated copy of the machine's own event. |
| `RpcClient.IdsAreUnique` | crates/ambient-fs-client/src/client.rs:491 | In every run, two calls never draw the same id. |
| `RpcClient.PendingIsExact` | crates/ambient-fs-client/src/client.rs:261-338 | In every run, a call's id is pending exactly when it was registered and has been neither answered nor failed nor drained, and then with that call's own channel. |
| `RpcClient.PendingWasDrawn` | crates/ambient-fs-client/src/client.rs:504-509 | Nothing else is pending: every pending id was drawn by some call. |
| `RpcClient.RepliesAreRouted` | crates/ambient-fs-client/src/client.rs:275-292 | In every run, no channel is sent to twice; it holds the closing of the connection or the server's answer to that very call: its error with the message or `unknown error`, else its result, else that it is invalid; the caller gets that unless its own write failed. |
| `RpcClient.DrainFailsPendingOnce` | crates/ambient-fs-client/src/client.rs:333-338 | When the reader ends, every call then pending is failed exactly once, no other channel changes, and nothing stays pending. |
| `RpcClient.ReplyReachesItsCaller` | crates/ambient-fs-client/src/client.rs:275-292 | A response read is delivered to the one call whose id it carries, as that error, result or invalid answer, takes it out of pending, and changes no other channel. |
| `RpcClient.LinesAreReadInOrder` | crates/ambient-fs-client/src/client.rs:264-275 | In every run the reader takes the server's lines one after the other: those not yet read are the last ones written. |
| `RpcClient.AnswersAreTheServers` | crates/ambient-fs-client/src/client.rs:275-292 | The answer to an id is the one the server gave to it, and it gives one at most. |
| `RpcClient.OtherLinesReachNobody` | crates/ambient-fs-client/src/client.rs:293-330 | A line without a response id reaches no call, and stops the reader exactly if it is a notification that nobody listens for. |
| `Transport.ChunkingDoesNotMatter` | integrations/ambient-fs-node/src/transport.ts:107-110 | However a stream is cut into chunks, the same lines come out and the same rest stays buffered. |
| `Transport.FramingRoundTrip` | integrations/ambient-fs-node/src/transport.ts:96-110 | Messages without newlines, each followed by one, come back exactly as sent with nothing left over. |
| `Transport.ChunkingKeepsState` | integrations/ambient-fs-node/src/transport.ts:107-140 | The whole client, pending requests and notifications included, ends in one state for every cutting of the stream. |
| `Transport.EveryRunSettlesOnce` | integrations/ambient-fs-node/src/transport.ts:65-105 | In every order of responses, timeouts, write errors and closings, the unsettled requests are exactly the pending ones, each with an armed timer and an id below the counter, and what is settled never changes. |
| `Transport.FirstVerdictCounts` | integrations/ambient-fs-node/src/transport.ts:65-140 | Over every run, a request is pending exactly while no event has said anything about it, and settled with an outcome exactly if the first event to do so said it: a response the daemon's error or the result, a timer a timeout, a write error a failed write, closing not connected. |
| `Transport.ResponseMeaning` | integrations/ambient-fs-node/src/transport.ts:128-140 | A response settles the pending request of its id and no other, with the daemon's error if it carries one and its result if not; any other response changes nothing. |
| `Transport.NotificationMeaning` | integrations/ambient-fs-node/src/transport.ts:117-121 | A notification is passed on and settles nothing. |
| `Transport.RequestMeaning` | integrations/ambient-fs-node/src/transport.ts:80-94 | A request is pending with its timer under the next id, or refused without a socket. |
| `Transport.RunMeaning` | integrations/ambient-fs-node/src/transport.ts:31-121 | Over every run, the callback has had each notification once, in order, and there is a socket exactly when the last connect or close was a connect. |
| `Transport.LinesAreMessages` | integrations/ambient-fs-node/src/transport.ts:112-125 | Handling lines is receiving, in order, the messages of those that are not blank and can be read. |
| `Transport.CloseSettlesAll` | integrations/ambient-fs-node/src/transport.ts:65-74 | Closing settles every request ever made, the open ones as not connected, and leaves no timer. |
| `Transport.Transport.Request` | integrations/ambient-fs-node/src/transport.ts:80-105 | Draws the next id and makes it pending with a timer, or refuses when there is no socket. |
| `Transport.Transport.HandleData` | integrations/ambient-fs-node/src/transport.ts:107-126 | The splitting and dispatching loop equals the specified handling of one chunk. |
| `Transport.Transport.HandleResponse` | integrations/ambient-fs-node/src/transport.ts:128-140 | Settles the pending request of that id, and no other, with the daemon's error if there is one and with the result if not; ignores any other id. |
| `Transport.Transport.Close` | integrations/ambient-fs-node/src/transport.ts:65-74 | The loop over pending requests clears each timer and rejects each request. |
| `Subscriptions.MapsAgreeWhenFree` | crates/ambient-fs-server/src/subscriptions.rs:79-109 | Under every interleaving of lock steps, whenever `counts` is free the two maps have the same projects and every count is positive; at all times each count is the history of subscribes and unsubscribes in lock order, clipped at zero. |
| `Subscriptions.LocksExclude` | crates/ambient-fs-server/src/subscriptions.rs:79-109 | No two tasks are ever both inside a section that holds the same lock. |
| `Subscriptions.ChannelsAreOwn` | crates/ambient-fs-server/src/subscriptions.rs:79-109 | Under every interleaving no two projects share a channel, no step replaces a project's channel by another, and a channel that is gone never comes back. |
| `Subscriptions.BalanceIsDifference` | crates/ambient-fs-server/src/subscriptions.rs:79-109 | A count that would never have gone below zero is the number of subscribes less that of unsubscribes. |
| `Subscriptions.SoloSubscribe` | crates/ambient-fs-server/src/subscriptions.rs:79-91 | The lock steps of one undisturbed subscribe have exactly the effect of the method. |
| `Subscriptions.SoloUnsubscribe` | crates/ambient-fs-server/src/subscriptions.rs:97-109 | The lock steps of one undisturbed unsubscribe have exactly the effect of the method, and take `projects` only for the last subscriber. |
| `Subscriptions.SubscriptionManager.Subscribe` | crates/ambient-fs-server/src/subscriptions.rs:79-91 | Keeps the project's channel or opens an unused one, raises its count by one, leaves other projects alone, and returns the channel. |
| `Subscriptions.SubscriptionManager.Unsubscribe` | crates/ambient-fs-server/src/subscriptions.rs:97-109 | Lowers the count by one, drops both entries when it was at most one, does nothing without a count, and leaves other projects alone. |
| `Forwarding.ForwardedInOrder` | crates/ambient-fs-server/src/socket.rs:242-323 | After any run, what a client received for a project is ascending in broadcast order, so without repeats, only that project's, and only what was broadcast while it was subscribed. |
| `Forwarding.NothingSkipped` | crates/ambient-fs-server/src/socket.rs:242-323 | From a subscribe on, as long as the client keeps its receiver and never reads when more than 256 are unread, everything offered to the receiver has been received, in order, but for what is unread. |
| `Forwarding.NothingMissedIff` | crates/ambient-fs-server/src/socket.rs:242-323 | Under the same conditions, what was received since, followed by what is unread, is every broadcast of the project since, in order, if and only if each of them was made while the receiver was on the project's present channel. |
| `Forwarding.NothingMissedWhileInPlace` | crates/ambient-fs-server/src/socket.rs:242-323 | If at the end the receiver is still on the project's channel, that held throughout, and nothing broadcast since the subscribe is missing. |
| `Forwarding.BroadcastWhileDetachedIsLost` | crates/ambient-fs-server/src/socket.rs:534-572 | A broadcast made when the client's channel has been torn down or its receiver dropped, before it subscribes again, never arrives in any later run. |
| `Forwarding.TornDownChannelLosesBroadcast` | crates/ambient-fs-server/src/socket.rs:561-566 | Subscribe, an unsubscribe by any connection, a subscribe by another: the next broadcast never reaches the first client, which still holds its receiver. |
| `Forwarding.PollMeaning` | crates/ambient-fs-server/src/socket.rs:255-320 | One look at a receiver forwards its oldest unread entry, unless it has lagged; with nothing unread it is dropped if its channel is no longer the project's, and left as it is otherwise. |
| `Forwarding.ReceiverGoesIff` | crates/ambient-fs-server/src/socket.rs:311-323 | A client loses its receiver only by dropping it, or by looking at it with nothing unread once the channel was torn down. |
| `Forwarding.LagLosesOldest` | crates/ambient-fs-server/src/socket.rs:306-309 | A read loses entries exactly when more than 256 are unread, and then all but the newest 256. |
| `Forwarding.Connection.ForwardPass` | crates/ambient-fs-server/src/socket.rs:242-323 | One pass reads each receiver at most once and is a run of such reads; it reads all of them unless one is closed, which it removes. |
| `Agents.ActivityMeaning` | crates/ambient-fs-server/src/agents.rs:176-201 | An activity leaves every other agent as it was; the acting agent gets its time, intent, tool and session, keeps its other files, and is listed on the activity's file exactly if it is not done. |
| `Agents.KnownIff` | crates/ambient-fs-server/src/agents.rs:176-279 | After every run, an agent is known exactly when no prune has removed it since its last activity, and was last seen at that activity. |
| `Agents.OnFileIff` | crates/ambient-fs-server/src/agents.rs:176-279 | After every run, an agent is listed on a file exactly when its last activity on that file was not done and no prune has removed the agent since. |
| `Agents.LatestActivityWins` | crates/ambient-fs-server/src/agents.rs:176-240 | After an activity, an agent seen later than every other is its file's only active agent, and an agent done with the file is not an answer. |
| `Agents.PruneKeepsCounts` | crates/ambient-fs-server/src/agents.rs:255-294 | With clock readings that do not decrease, every file a surviving agent holds keeps its reference count. |
| `Agents.LostCountMeansClockWentBack` | crates/ambient-fs-server/src/agents.rs:255-294 | When a surviving holder's file loses its count, that holder was stale in the first pass and fresh in the second, at an earlier reading. |
| `Agents.SurvivorKeepsCountIff` | crates/ambient-fs-server/src/agents.rs:255-294 | A file held by a surviving agent keeps its count if and only if some holder of it was fresh in the first pass. |
| `Agents.ClockBackLosesCount` | crates/ambient-fs-server/src/agents.rs:255-294 | One agent seen at 0 with timeout 10: readings 11 then 10 lose its file's count; readings 5 then 4 do not. |
| `Agents.PruneKeepsAnswers` | crates/ambient-fs-server/src/agents.rs:213-294 | The active agent of every file and the list of agents are the same before and after a prune, at its clock or any later one. |
| `Agents.HeldFilesAreCounted` | crates/ambient-fs-server/src/agents.rs:176-294 | Under every interleaving of lock sections, a file an agent is listed on is listed once, and has a count unless that agent's own call has still to count it, or a prune that had collected it from stale agents only removed its count after the agent took it up; if prunes read the clock forwards, the agent took it up between that prune's two locks. |
| `Agents.CountsFollowLog` | crates/ambient-fs-server/src/agents.rs:176-294 | In every interleaving, a file has a count exactly when it was counted since a prune last removed it, and the count is how often, in 32 bits. |
| `Agents.CallsFinishOnce` | crates/ambient-fs-server/src/agents.rs:176-294 | In every interleaving each activity is counted once, for its own file, or has still to be counted, and each prune resets counts once or has still to. |
| `Agents.PruneTakesCountIff` | crates/ambient-fs-server/src/agents.rs:278-291 | The second section of a prune takes the count of a held file if and only if its first section collected the file from stale and from no fresh agent; with forward clocks, every agent then holding it took it up in between. |
| `Agents.SoloCalls` | crates/ambient-fs-server/src/agents.rs:176-294 | The two lock sections of one undisturbed activity or prune have exactly the effect of the method. |
| `Agents.ActivityDuringPrune` | crates/ambient-fs-server/src/agents.rs:176-294 | In the run of lock sections with a whole activity between a prune's two, the file has its count at the end if and only if the prune was not about to reset it. |
| `Agents.HeldFileLosesCount` | crates/ambient-fs-server/src/agents.rs:278-291 | A run from the empty tracker, with a clock that stands still, that leaves an agent on a file without a count. |
| `Agents.AgentTracker.UpdateFromActivity` | crates/ambient-fs-server/src/agents.rs:176-207 | Leaves other agents and counts alone, gives the acting agent the activity's fields, adds the file once or removes it when done, and raises the file's 32-bit count. |
| `Agents.AgentTracker.GetActiveAgent` | crates/ambient-fs-server/src/agents.rs:213-240 | Returns a holder of the file seen within the timeout that no such holder was seen after, or none exactly when there is none. |
| `Agents.AgentTracker.CollectFiles` | crates/ambient-fs-server/src/agents.rs:258-275 | The collecting loop yields exactly the files held by agents found stale and by agents found fresh. |
| `Agents.AgentTracker.PruneStale` | crates/ambient-fs-server/src/agents.rs:255-294 | Removes exactly the agents stale at the second reading, and the counts of files held by a stale and by no fresh agent at the first; returns how many went. |
| `Analyzer.FirstMarkerDecides` | crates/ambient-fs-analyzer/src/analyzer.rs:112-127 | Only the first comment marker of a line decides; nothing before it matters. |
| `Analyzer.CountsIff` | crates/ambient-fs-analyzer/src/analyzer.rs:108-178 | A line counts exactly when, after its first `#`, `//` or `--`, the first run of letters and colons, cut at 11 characters, has TODO, FIXME or HACK in it, in any case. |
| `Analyzer.TodosAdditive` | crates/ambient-fs-analyzer/src/analyzer.rs:108-178 | Counting is additive across a newline. |
| `Analyzer.TodosAtMostLines` | crates/ambient-fs-analyzer/src/analyzer.rs:100-130 | A text never has more counted comments than lines. |
| `Analyzer.LinesAreNewlines` | crates/ambient-fs-analyzer/src/analyzer.rs:100-106 | The line count is the number of newlines, plus one for text after the last of them. |
| `Analyzer.CountLines` | crates/ambient-fs-analyzer/src/analyzer.rs:100-106 | Returns the number of lines truncated to 32 bits. |
| `Analyzer.CollectWord` | crates/ambient-fs-analyzer/src/analyzer.rs:136-165 | The two collecting loops yield the first run of letters and colons of the comment, cut at 11 characters. |
| `Analyzer.ScanLineComment` | crates/ambient-fs-analyzer/src/analyzer.rs:132-178 | From just after a marker: counts one if the comment's first word holds a keyword, and stops at the start of the next line. |
| `Analyzer.CountTodos` | crates/ambient-fs-analyzer/src/analyzer.rs:108-130 | The one-pass scanner terminates and returns, in 32 bits, exactly the number of lines that count. |
| `AnalysisCache.UpsertIsUpdate` | crates/ambient-fs-store/src/cache.rs:142-174 | Storing an analysis changes the answer for its own key only, keeps keys unique and leaves every other row. |
| `AnalysisCache.DeleteIsRemoval` | crates/ambient-fs-store/src/cache.rs:177-183 | Invalidating empties the answer for its key only and leaves every other row. |
| `AnalysisCache.FileAnalysisCache.GetIfFresh` | crates/ambient-fs-store/src/cache.rs:88-121 | Returns a row of that project, path and hash, or none exactly when there is no such row. |
| `AnalysisCache.FileAnalysisCache.IsFresh` | crates/ambient-fs-store/src/cache.rs:125-139 | True exactly when the key has a row with that hash. |
| `AnalysisCache.FileAnalysisCache.Put` | crates/ambient-fs-store/src/cache.rs:142-174 | Search, then update in place or insert: afterwards the analysis is in the table and otherwise exactly the rows of other files. |
| `Pipeline.PermitsConserved` | crates/ambient-fs-server/src/pipeline.rs:90-158 | Under every interleaving, failures included, free permits and holders add up to `max_concurrent`, so no more tasks than that analyze at once. |
| `Pipeline.RowsComeFromReadings` | crates/ambient-fs-server/src/pipeline.rs:90-236 | Under every interleaving, each file has at most one row, and each row, overwritten by tier 2 or not, carries the tier-1 counts of a content read for that file under that hash. |
| `Pipeline.RowsMatchTheirHash` | crates/ambient-fs-server/src/pipeline.rs:90-236 | If each task reads the content its event hashed, every row's counts are the tier-1 analysis of the one content with that row's hash. |
| `Pipeline.FiledUnderEventHash` | crates/ambient-fs-server/src/pipeline.rs:128-154 | Whatever is read is filed as fresh under the event's hash; the row is right for the hashed content if and only if both contents have the same counts, and so whenever the content read has that hash. |
| `Pipeline.WrongRowMeansMismatch` | crates/ambient-fs-server/src/pipeline.rs:90-236 | In every run, a row whose counts are not those of the content with its hash was made from a reading of its file, under its hash, of a content that does not have that hash. |
| `Pipeline.ReachesHolding` | crates/ambient-fs-server/src/pipeline.rs:90-126 | A run of one task to its permit, during which its file changes to one line. |
| `Pipeline.ChangedFileIsMisfiled` | crates/ambient-fs-server/src/pipeline.rs:128-154 | From there, that line is filed under the hash the event named, with other counts than the empty file's. |
| `Pipeline.FreshIsSkipped` | crates/ambient-fs-server/src/pipeline.rs:96-123 | A task ends at its cache check, changing nothing, if and only if the table has a row of its file with its hash. |
| `Pipeline.SoloTask` | crates/ambient-fs-server/src/pipeline.rs:90-158 | The steps of one undisturbed task have exactly the effect of the call and return its permit. |
| `Pipeline.SoloMerge` | crates/ambient-fs-server/src/pipeline.rs:178-236 | The steps that follow overwrite the row with the merged analysis, or end the task without storing anything more. |
| `Pipeline.EnhancedMeaning` | crates/ambient-fs-analyzer/src/llm_analyzer.rs:130-170 | Merging keeps file, hash and counts, takes imports, exports and hints from the model, and turns any severity but info and error into a warning. |
| `Pipeline.AnalysisPipeline.AnalyzeFile` | crates/ambient-fs-server/src/pipeline.rs:90-158 | Analyzes exactly created and modified files that have a hash, are readable and have no row with that hash; stores and returns line and TODO counts in 32 bits under the event's path, project and hash, other files' rows staying; stores nothing otherwise; the permit comes back on every path. |
| `Pipeline.AnalysisPipeline.DoAnalyze` | crates/ambient-fs-server/src/pipeline.rs:178-236 | Stores the analysis, then overwrites the row with the merged answer if there is one. |
| `Gateway.RegisterMeaning` | crates/ambient-fs-server/src/gateway.rs:85-91 | Registering puts a connection on an open, empty channel of its own and of the capacity asked for at the end of the project's list, and changes no other list. |
| `Gateway.RelayReaches` | crates/ambient-fs-server/src/gateway.rs:102-126 | A registered channel of another machine of the project takes a relayed event exactly if it is open and has fewer unread events than its capacity; no other channel takes it or is touched. |
| `Gateway.RelaySends` | crates/ambient-fs-server/src/gateway.rs:102-126 | A relayed event is offered to exactly the registered channels of its project on other machines, once each, and each takes it exactly when it has a receiver and room. |
| `Gateway.OfferMeaning` | crates/ambient-fs-server/src/gateway.rs:117-122 | An event offered to a channel is taken, as its newest unread one, exactly if the receiver is there and fewer events than the capacity are unread. |
| `Gateway.TouchMeaning` | crates/ambient-fs-server/src/gateway.rs:105-112 | Relaying marks the sender's connections as seen now, and leaves all others, and the order of the list, as they were. |
| `Gateway.BufferIsRecentHistory` | crates/ambient-fs-server/src/gateway.rs:129-135 | After any run, a project's buffer is the last 3000 events relayed for it, in order, or all of them if fewer. |
| `Gateway.InboxIsWhatWasAccepted` | crates/ambient-fs-server/src/gateway.rs:85-156 | After any run, a channel was offered exactly its project's events from other machines relayed during its registration; its inbox is a subsequence of those, and all of them if and only if it never refused. |
| `Gateway.ClosedTakesNothing` | crates/ambient-fs-server/src/gateway.rs:117-122 | From the moment its receiver is dropped, a channel takes nothing more in any run. |
| `Gateway.RegisterCallReceivesNothing` | crates/ambient-fs-server/src/gateway.rs:226-239 | The channel an undisturbed `register` call leaves is in the routing table and never takes an event in any run after it. |
| `Gateway.UnregisterIsLeave` | crates/ambient-fs-server/src/gateway.rs:94-99 | Unregistering one machine from one project changes no other project's list. |
| `Gateway.UnregisterMeaning` | crates/ambient-fs-server/src/gateway.rs:94-99 | Unregistering takes exactly one machine's connections off one project's list, in order, and touches no other list. |
| `Gateway.CleanupMeaning` | crates/ambient-fs-server/src/gateway.rs:145-156 | A cleanup takes off every list, in order, exactly the connections last seen more whole seconds ago than the timeout. |
| `Gateway.GatewayServer.RegisterDaemon` | crates/ambient-fs-server/src/gateway.rs:85-91 | Appends a connection on a channel of its own to the project's list. |
| `Gateway.GatewayServer.RegisterCall` | crates/ambient-fs-server/src/gateway.rs:210-240 | Refuses empty names; otherwise registers a channel of 32 places whose receiver is gone. |
| `Gateway.GatewayServer.UnregisterDaemon` | crates/ambient-fs-server/src/gateway.rs:94-99 | Removes exactly the machine's connections of that project. |
| `Gateway.GatewayServer.CleanupStaleConnections` | crates/ambient-fs-server/src/gateway.rs:145-156 | Removes exactly the connections idle for more whole seconds than the timeout, in every project. |
| `Gateway.GatewayServer.ForwardEvent` | crates/ambient-fs-server/src/gateway.rs:102-126 | Marks the sender as seen, offers the event to everyone else, and returns the number of channels that took it. |
| `Gateway.GatewayServer.BufferEvent` | crates/ambient-fs-server/src/gateway.rs:129-135 | Appends the event to its project's buffer, dropping the oldest when it is full. |
| `Gateway.GatewayServer.RelayStream` | crates/ambient-fs-server/src/gateway.rs:243-288 | A whole relay stream is the run of its events, followed by unregistering the daemon named by its first event. |

## Left out

- Sockets, tonic streams, the file watcher, forking, configuration files and calls to a language model: their answers are parameters.
- SQLite: the tables are lists of rows, a statement succeeds or is not made, and rows of equal timestamp may come in any order (`EventStore.Answer`). Locking, WAL and `migrations.rs` are not modelled, nor is `prune_analysis_before`, which compares an integer column with text.
- Unicode case folding and alphabetic classes: sort keys and keywords fold ASCII letters only, and the scanner takes ASCII letters for letters, so text with other letters is not covered.
- Rust's `binary_search_by` does not promise which of several equal keys it finds; `FileTree.Probe` probes the midpoint. Which of two tied siblings comes first therefore holds for that probing only.
- Timestamps.ParsedIsFourDigit: the reader models texts with the zero offset, the only ones the store writes; other offsets, a space or lower-case separators are not part of this model.
- SyncProtocol.TwoMachinesSettle: needs three syncs, not two, because after two a machine has not yet read back truncated copies of its own sub-second events; `ThirdSyncInsertsIff` says when two are enough.
- SyncStream.SyncEvents: events stored between its query and its subscription are in neither half of the stream; a client that drops the stream early is not modelled.
- Runs of syncs (`SyncProtocol.EchoesDieOut`, `SyncProtocol.TwoMachinesSettle`, `SyncProtocol.ThirdSyncInsertsIff`) over events outside years 0 to 9999: a peer's message dated later converts and is inserted, and its row then fails every query that selects it. One sync is stated for every store.
- Completeness of sync over moving `last_sync` windows, events that arrive live during a sync of a run, publishing of synced events to subscribers, and pruning between syncs.
- RpcClient.IdsAreUnique: for runs of fewer than 2^64 calls, after which the counter wraps.
- RpcClient: that every call completes; one registered after the reader has drained its map may never be answered.
- Transport.ChunkingKeepsState: works on characters, so a UTF-8 sequence split across chunks is not modelled; nor is a notification callback that calls back into the transport.
- Subscriptions.MapsAgreeWhenFree: safety only. The two calls take the locks in opposite order, so progress is not claimed; nor is agreement of counts with live receivers, since a dropped connection does not lower its count.
- Forwarding: a client that disconnects during a write, and the interleaving of client requests with a forwarding pass inside one `select!`; the steps themselves may interleave freely.
- Agents.AgentTracker.GetAllAgents: the order of the returned list, which follows a hash map. Parsing of activity lines is left out too, and `seen` stands for an activity's time after `timestamp()` has replaced an unrepresentable one.
- Pipeline.RowsMatchTheirHash: the hash is any injective function; the size limit, checked before the file is read, is one of the ways a reading may fail; JSON columns of the cache are stored as the values they encode; the notification at the end of a task is not modelled.
- Gateway: the buffered events of `register` are read and not sent by the code, so nothing is proved about them; the output stream of `relay` has no sender and stays empty.
- Daemon bookkeeping, the command line, the Python client and the Tauri plugin: they would add only easy members.
