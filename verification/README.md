# A verified model of the background services, the knowledge index and the translation scripts

This project models the parts of the desktop application that are algorithms or
protocols rather than plumbing, and proves what they promise for every input and
every run.

| file | models |
|---|---|
| `SyncLoops.dfy` | starting and stopping the CalDAV and mail loops: a transition system over every interleaving of start calls, stops and loop actions, and the service object whose methods are its steps |
| `FolderSync.dfy` | the folder loop of one mail sync pass, the checkpoint rows it writes, and when a folder is paused |
| `Chunker.dfy` | cutting a document into overlapping chunks |
| `Indexer.dfy` | chunk ids, and writing chunks to the vector index and the full-text index when any write may fail |
| `Fusion.dfy` | merging two ranked searches by reciprocal rank |
| `TranslationTree.dfy`, `TranslationClean.dfy` | what the sync and the clean script do to a translation tree |
| `TranslationObjects.dfy` | the same two scripts as they run: objects changed in place, proved against those trees |
| `ThreadCategories.dfy` | automatic thread categories against the user's own choice |
| `ContactFilter.dfy` | the contact query grown clause by clause, and what its rows mean |
| `AgentScope.dfy` | the stored tool and tier grants of an agent: reading, deciding, validating |
| `Strings.dfy` | trimming, splitting and joining, which several of them use |
| `Prelude.dfy` | optional values, sums, distinct elements |

Each imperative part is a method or a class proved against a function, and the
theorems are about that function: `SplitText` equals `Split`, `SetDeep` leaves the
objects that `Set` describes, a step of `CaldavSync` is `Step`, and so on.  The
network, the SQL engine, the vector store and the clock are parameters: a call
succeeds or fails as an arbitrary value says.

## What the proofs found

- A folder that keeps failing is never paused as long as its seeding write succeeds;
  it is paused exactly when more than three errors were recorded since its row was
  last written anew (`RunPausesIff`).
  Each failure first writes its row with a retry count of zero
  (`background/mod.rs:383-395`), so the count is one after any number of failures and
  the threshold of three is not passed (`ThresholdNeverReached`,
  `FailuresNeverAddUp`).  The comment above that branch says the folder is paused.
  The same write forgets the folder's checkpoint.
- When the lookup of the paused folders fails, paused folders are fetched like any
  other, and lose their flag when their row is written (`FailedLookupUnpauses`).
- The mail service loads its flag and stores it in two actions.  Any number of
  start calls between the two create as many loops (`CallsCanRace`); the CalDAV
  service, which swaps, creates one.
- Both services can have several loops at once after a stop and a start, because a
  loop that slept through both sees only the raised flag (`RestartsPileUp`);
  `OneLoopAtATimeIff` is the exact condition.
- A second sync of the translations changes nothing, but reports every entry whose
  value is empty or repeats the key's last segment (`SecondPassReports`).
- A clean run that counts no removal does not write the file, though it may have
  deleted empty objects in memory (`UncountedRemovals`).
- The clean script takes away what the sync script has placed at an extracted key
  exactly if the key has a leading dot and, without its leading dots, is neither
  extracted nor starts with a dynamic prefix (`ExtractedKeyLostIff`).
- A text found by both searches outranks every text found by one exactly up to a
  limit of 20, if no list repeats a text (`LimitThreshold`, and `OutputThreshold` for
  what is returned).  Where texts may repeat,
  it does so for no limit but zero (`RepeatsThreshold`).
- The tag filter of the contact query names a column `tag_id` that the migrations do
  not give `entity_pivots`, so it is always refused (`TagFilterNeedsColumn`).
- `scripts/verify/agent-scope-verify.rs` says its functions are copied verbatim.  Its
  array reader is not the one of `db/tables/ai/agents.rs:165-167`, which parses
  JSON: of the lists that file stores it reads back exactly those whose texts hold no
  comma, quote, backslash or control character (`RoundTripIff`).  All known tool and
  tier names are such texts, so validated scopes are not affected
  (`ValidatesWhatIsGranted`).
- The order of the extracted keys is irrelevant exactly if none is a dotted prefix
  of another (`OrderIrrelevantIff`).

## Model

| member | source | states |
|---|---|---|
| SyncLoops.RaisedFlagIsServed | src-tauri/src/background/caldav_sync.rs:56-113 | in every reachable state of every interleaving, of either service, a raised flag has a spawn pending or a loop that has not exited |
| SyncLoops.ActiveWhenRunning | src-tauri/src/background/mod.rs:55-124 | the same counted: pending spawns and living loops are at least one while the flag is up |
| SyncLoops.LoopLedger | src-tauri/src/background/caldav_sync.rs:59-113 | loops ever created are the stops that lowered the flag, plus one if it is up, plus the racing stores; a step that spawned twice or not at all breaks it |
| SyncLoops.SwapNeverStores | src-tauri/src/background/caldav_sync.rs:59-64 | with the swap no store races, so its ledger has no third term |
| SyncLoops.OneLoopBetweenStops | src-tauri/src/background/caldav_sync.rs:56-72 | any number of concurrent CalDAV starts between two stops create one loop if they raise the flag and none otherwise |
| SyncLoops.SerialisedNeverRaces | src-tauri/src/background/mod.rs:58-63 | if no two mail starts stand between load and store, no store finds the flag up |
| SyncLoops.LoadStoreRefinesSwap | src-tauri/src/background/mod.rs:58-72 | a mail history without racing stores maps to a history of the swap that ends in the same flag, interval, results, spawns and loops |
| SyncLoops.RacesCostStops | src-tauri/src/background/mod.rs:58-72 | every swap history that ends in the same state has one more lowering stop for each racing store |
| SyncLoops.RefinesSwapIff | src-tauri/src/background/mod.rs:58-72 | for every mail history: some swap history with as many lowering stops ends in the same state, as far as the swap can see, if and only if no store raced |
| SyncLoops.CallsCanRace | src-tauri/src/background/mod.rs:58-72 | for every n, a history without stops in which n mail starts create n loops |
| SyncLoops.OneLoopAtATimeIff | src-tauri/src/background/caldav_sync.rs:56-113 | a history never has two living loops if and only if each raise of the flag finds all earlier loops exited |
| SyncLoops.RestartsPileUp | src-tauri/src/background/caldav_sync.rs:74-113 | for either service, every n and every sync outcome, n stop/start rounds of calls that run alone, each loop syncing once in between, leave n + 1 sleeping loops |
| SyncLoops.QuietStep | src-tauri/src/background/caldav_sync.rs:74-113 | after a stop with no start in flight, every action of a call or a loop lowers the measure and keeps it so |
| SyncLoops.StopDrains | src-tauri/src/background/caldav_sync.rs:74-113 | over any history after such a stop the actions are bounded by the measure, and a loop completes at most one more sync, only if it was past its flag check |
| SyncLoops.DrainedIff | src-tauri/src/background/caldav_sync.rs:75-113 | then the measure is zero exactly when every loop has exited, and exactly when no call or loop can act |
| SyncLoops.StatusNeverTorn | src-tauri/src/background/caldav_sync.rs:85-125 | a status call that reads the counts and, any number of actions later, the last-sync time never reports counts without a time |
| SyncLoops.FieldsFollowHistory | src-tauri/src/background/caldav_sync.rs:56-98 | over every history of either service the last-sync time, the error, the counts and the interval are what was returned by the cycle, or asked for by the start call, that wrote them last |
| SyncLoops.SyncLeaves | src-tauri/src/background/caldav_sync.rs:84-89 | a cycle that succeeds leaves its time, no error and, in the CalDAV service, its counts in their order |
| SyncLoops.FailureLeaves | src-tauri/src/background/caldav_sync.rs:95-98 | a cycle that fails leaves its message and changes neither time nor counts |
| SyncLoops.CaldavSync.constructor | src-tauri/src/background/caldav_sync.rs:45-53 | a new service is the initial state with an interval of 30 |
| SyncLoops.CaldavSync.StepStart | src-tauri/src/background/caldav_sync.rs:57-74 | each atomic action of a start call on the fields is the machine's step |
| SyncLoops.CaldavSync.StepLoop | src-tauri/src/background/caldav_sync.rs:75-103 | each atomic action of a loop on the fields is the machine's step |
| SyncLoops.CaldavSync.Start | src-tauri/src/background/caldav_sync.rs:56-74 | a start that runs alone raises the flag, sets the interval and spawns a loop exactly if the flag was down; nothing else changes |
| SyncLoops.CaldavSync.StopLoop | src-tauri/src/background/caldav_sync.rs:110-113 | a stop lowers the flag and changes nothing else |
| SyncLoops.CaldavSync.Status | src-tauri/src/background/caldav_sync.rs:116-125 | a caller is told the time, the flag, the error and the two counts, synced ones first |
| FolderSync.Account.SyncFolder | src-tauri/src/background/mod.rs:329-411 | fetching one folder writes only that folder's row, as its fetch and the database calls turn out, and reports success and message count |
| FolderSync.Account.RecordFailure | src-tauri/src/background/mod.rs:383-407 | the failure branch: seeded row, recorded error, pause past the threshold, each write possibly failing |
| FolderSync.Account.SetSyncPhase | src-tauri/src/db/tables/core/folder_sync_state.rs:89-105 | sets the given phase on an existing row and does nothing without one |
| FolderSync.Account.Upsert | src-tauri/src/db/tables/core/folder_sync_state.rs:48-83 | replaces the folder's whole row |
| FolderSync.Account.RecordError | src-tauri/src/db/tables/core/folder_sync_state.rs:115-132 | sets the error and adds one retry on an existing row |
| FolderSync.Account.SyncAccount | src-tauri/src/background/mod.rs:260-412 | fetches, in order, the folders that are neither special nor paused, each with its own outcome even if a path repeats; both counters are the sums over them; the table is the folded result |
| FolderSync.CountersMean | src-tauri/src/background/mod.rs:296-345 | the counters are the number of places of the list fetched without an error and the sum of their messages |
| FolderSync.RowAfterFetch | src-tauri/src/background/mod.rs:329-408 | the row after one fetch, field by field: after a success the largest fetched uid, the fetch's validity and modseq, `done` and no error; after a seeded failure the error, one retry and `backfill`; without that write the old row with the phase, error, retry and pause that could be written |
| FolderSync.VisitedIff | src-tauri/src/background/mod.rs:299-320 | a path is fetched if and only if it is not paused and some folder with it is marked neither `\Junk`, `\Trash` nor `\Drafts` |
| FolderSync.VisitedInOrder | src-tauri/src/background/mod.rs:299-335 | folders are fetched in the order of the list |
| FolderSync.FoldersAreIsolated | src-tauri/src/background/mod.rs:299-412 | for any folder list, each row after a pass depends only on that row before and on the outcomes of that folder's own places in the list |
| FolderSync.FetchedOnce | src-tauri/src/background/mod.rs:299-412 | with distinct paths, the i-th folder's row is what its one fetch writes, or untouched if it is skipped |
| FolderSync.PausedAfterFetchIff | src-tauri/src/background/mod.rs:335-411 | a fetched folder ends paused if and only if its row write failed and it was paused or over the threshold before |
| FolderSync.PausedStaysPaused | src-tauri/src/background/mod.rs:260-320 | over any run with successful lookups, a paused folder is not fetched and its row does not change until the user writes it |
| FolderSync.FailedLookupUnpauses | src-tauri/src/background/mod.rs:260-266 | with a failed lookup a paused folder is fetched, and stays paused if and only if the write of its row fails |
| FolderSync.ThresholdNeverReached | src-tauri/src/background/mod.rs:379-408 | over any run whose seeding writes succeed, a folder that is not paused never becomes paused |
| FolderSync.RunPausesIff | src-tauri/src/background/mod.rs:260-411 | over any run of passes and user writes, a folder ends paused if and only if it was at the start, or the user paused it, or a failure found more than three errors recorded since the row was last written anew, and no later event wrote the row anew |
| FolderSync.RowFollowsHistory | src-tauri/src/background/mod.rs:299-412 | over any run, a folder's row is what its own fetches and the user's writes of it make of its first row |
| FolderSync.FailuresNeverAddUp | src-tauri/src/background/mod.rs:379-408 | over any run: after a failure that seeds and records, whatever came before, the folder has one retry, no pause and no checkpoint |
| Chunker.SplitText | src-tauri/src/ai/indexer.rs:774-827 | the unit-by-unit loop computes the chunk-by-chunk definition |
| Chunker.UnitsAreUnits | src-tauri/src/ai/indexer.rs:779-791 | for every splitter the units are non-empty and trimmed |
| Chunker.UnitsHoldNoMark | src-tauri/src/ai/indexer.rs:779-791 | no sentence holds `.`, `!`, `?` or a line feed, no token white space, no paragraph two line feeds in a row |
| Chunker.UncutText | src-tauri/src/ai/indexer.rs:779-791 | a text without such a mark is the one unit it trims to, or none |
| Chunker.UnitsCutAtMark | src-tauri/src/ai/indexer.rs:780-785 | at any mark the units are those before it followed by those after it |
| Chunker.UnitsCutAtBlankLine | src-tauri/src/ai/indexer.rs:786-790 | at the first blank line the paragraphs are those before it followed by those after it |
| Chunker.SplitIsLossless | src-tauri/src/ai/indexer.rs:793-826 | dropping each later chunk's repeated prefix (or, without overlap, joining by spaces) gives back the units joined by single spaces; there is always a chunk |
| Chunker.UnsplitText | src-tauri/src/ai/indexer.rs:775-777 | with size zero, or without units, the document is its only chunk |
| Chunker.NoCharacterLost | src-tauri/src/ai/indexer.rs:774-827 | from document to chunks: every character that is not white space or a sentence mark is kept once and in order |
| Chunker.SplitShape | src-tauri/src/ai/indexer.rs:793-821 | the chunks' own units are consecutive and make up all units; all but the last chunk reach the size, with their last unit at the earliest; only the last can hold nothing but overlap, exactly when the final unit filled the one before |
| Chunker.SplitOverlaps | src-tauri/src/ai/indexer.rs:802-816 | every later chunk starts with exactly the last min(overlap, length) characters of the one before |
| Chunker.SplitBounds | src-tauri/src/ai/indexer.rs:793-818 | a chunk with units has at most max(size - 1, overlap) + 1 + longest unit characters; with overlap below size it is short without its last unit |
| Indexing.ChunkIdInjective | src-tauri/src/ai/indexer.rs:449-454 | numbered ids determine document and number, whatever the document ids hold |
| Indexing.DecimalMeans | src-tauri/src/ai/indexer.rs:449-454 | chunk numbers print as digits of their value without leading zeros |
| Indexing.RowsIff | src-tauri/src/ai/indexer.rs:444-458 | the rows of documents are exactly the chunks of those that are not blank, each under the document's id if alone and otherwise under `#chunk` and its number from zero |
| Indexing.ChunkIdsDistinctIff | src-tauri/src/ai/indexer.rs:541-610 | for distinct document ids: the chunk ids are pairwise distinct for all chunk counts if and only if no document id is a numbered id of another |
| Indexing.HashFreeIdsNeverClash | src-tauri/src/ai/indexer.rs:541-610 | ids without '#' meet that condition |
| Indexing.CollectChunks | src-tauri/src/ai/indexer.rs:545-566 | the nested loops collect the rows of every document that is not blank |
| Indexing.CollectedIdsDistinct | src-tauri/src/ai/indexer.rs:541-610 | so the collected rows have pairwise distinct ids |
| Indexing.Indexer.IndexText | src-tauri/src/ai/indexer.rs:460-500 | one chunk: both rows, none, or only the vector row, as the first failing call decides |
| Indexing.Indexer.IndexDocument | src-tauri/src/ai/indexer.rs:444-458 | the chunks of a document in order with their ids, up to the first failure |
| Indexing.Indexer.IndexSource | src-tauri/src/ai/indexer.rs:271-283 | the documents of a source in order, blank ones skipped, up to the first failure |
| Indexing.Indexer.IndexAll | src-tauri/src/ai/indexer.rs:138-215 | a failure ends its own source only; the next source goes on |
| Indexing.OneRow | src-tauri/src/ai/indexer.rs:460-500 | one chunk leaves both rows, none, or the vector row only |
| Indexing.SourceIsIndexed | src-tauri/src/ai/indexer.rs:148-211 | a source indexed without an error is wholly in both indexes, whatever failed before or after it |
| Indexing.AfterRowsAppend | src-tauri/src/ai/indexer.rs:449-456 | trying rows in two goes is trying them in one unless the first fails, and then the second does nothing |
| Indexing.IndexesStayPaired | src-tauri/src/ai/indexer.rs:138-500 | over any runs, each with its own chunk configuration, and any failures: the full-text rows are a subsequence of the vector rows with equal ids and texts, and exactly one is missing for each source pass whose first failure fell between the two writes |
| Indexing.NoFailureNothingMissing | src-tauri/src/ai/indexer.rs:138-500 | over any such runs without a failure both indexes hold exactly the rows of every source of every run |
| Fusion.Fuse | src-tauri/src/ai/rag.rs:153-172 | returns min(limit, distinct texts) distinct texts of the full-text rows and the vector search, by score descending, none left out that scores more |
| Fusion.PoolIff | src-tauri/src/ai/rag.rs:157-166 | the pool holds exactly the texts (not the ids) of the full-text rows and those of the vector search |
| Fusion.ScoreOfRows | src-tauri/src/ai/rag.rs:157-166 | a text scores the sum of 1 / (61 + rank) over its ranks in the two searches |
| Fusion.SortDescending | src-tauri/src/ai/rag.rs:169-170 | sorts in place: a permutation in descending score |
| Fusion.FusedScores | src-tauri/src/ai/rag.rs:154-166 | the map holds exactly the texts found, each with the sum of what its ranks earn, whichever list is folded first |
| Fusion.ScoresConserved | src-tauri/src/ai/rag.rs:154-166 | the scores add up to what the ranks of both lists are worth, however texts repeat or coincide |
| Fusion.BothBeatsOneIff | src-tauri/src/ai/rag.rs:119-166 | a text found by both searches always outscores one found by one, for lists of at most n distinct texts, if and only if n <= 61 |
| Fusion.LimitThreshold | src-tauri/src/ai/rag.rs:118-139 | with three times the limit asked of each search, if and only if the limit is at most 20 |
| Fusion.BothComeFirst | src-tauri/src/ai/rag.rs:153-172 | in what is returned, double hits come before single hits, and no single hit is returned while a double hit is left out |
| Fusion.OutputThreshold | src-tauri/src/ai/rag.rs:118-172 | every answer to every two lists without repeats has double hits first and none left out for a single hit, if and only if the limit is at most 20 |
| Fusion.SomeTopK | src-tauri/src/ai/rag.rs:169-172 | for all lists and limits there is an answer that meets what `Fuse` promises |
| Fusion.RepeatsThreshold | src-tauri/src/ai/rag.rs:118-166 | where lists may repeat a text, a double hit always outscores a single hit if and only if the lists hold at most two texts, so for no limit but zero |
| Strings.JoinSplit | scripts/sync-translations.js:38 | joining by a separator undoes splitting at it, so keys and paths correspond |
| Strings.SplitJoin | scripts/verify/agent-scope-verify.rs:56 | splitting undoes joining pieces that do not hold the separator |
| Strings.TrimTakesSpaces | src-tauri/src/ai/indexer.rs:782 | trimming takes white space away, at both ends, and all of it there |
| TranslationTree.SetAllOrNothing | scripts/sync-translations.js:37-63 | when setDeep returns false the whole tree is unchanged |
| TranslationTree.SetsIff | scripts/sync-translations.js:42-57 | it returns true if and only if no proper prefix holds a string and the target is absent, empty or its own last segment |
| TranslationTree.SetGet | scripts/sync-translations.js:42-59 | then the target holds the value, proper prefixes are objects, and every other path reads as before |
| TranslationTree.SetKeepsTexts | scripts/sync-translations.js:37-63 | every other string leaf survives |
| TranslationTree.PassIdempotent | scripts/sync-translations.js:81-88 | a second pass changes nothing, even when one key is a dotted prefix of another |
| TranslationTree.SecondPassReports | scripts/sync-translations.js:81-96 | what the second pass counts as added |
| TranslationTree.NothingAddedNothingChanged | scripts/sync-translations.js:90-96 | a pass that counts nothing, and so does not write the file, changed nothing |
| TranslationTree.SetsCommute | scripts/sync-translations.js:37-63 | setting two keys of which neither is a prefix of the other commutes, on every tree |
| TranslationTree.PassOrderIrrelevant | scripts/sync-translations.js:81-88 | on every tree, without prefix-related keys the final tree is the same for every order of the keys |
| TranslationTree.PrefixOrderMatters | scripts/sync-translations.js:44-47 | for every set of distinct keys and every two of them of which one is a dotted prefix of the other, two orders of the set leave different trees |
| TranslationTree.OrderIrrelevantIff | scripts/sync-translations.js:81-88 | for distinct keys: the final tree is independent of the order, on every tree, if and only if no key is a dotted prefix of another |
| TranslationObjects.SetDeep | scripts/sync-translations.js:37-63 | the cursor loop on shared objects leaves the objects holding `Set`, returns `Sets`, and on false neither creates nor changes an object |
| TranslationObjects.Enter | scripts/sync-translations.js:43-51 | one turn of the cursor: down one level, through a new object where there is none, without changing what the rest of the path will do |
| TranslationObjects.CreateIn | scripts/sync-translations.js:48-50 | a new empty object under a property changes the tree at that path only |
| TranslationObjects.WriteText | scripts/sync-translations.js:57-58 | a string written through the cursor changes the tree at that path only |
| TranslationObjects.SyncLanguage | scripts/sync-translations.js:78-88 | the loop over the extracted keys leaves the objects holding `Pass` and counts `Added` |
| TranslationObjects.FirstSync | scripts/sync-translations.js:78-88 | on an empty tree and keys without dotted prefixes every key then holds its default text, with `[TODO] ` before it in every language but English |
| TranslationClean.IsKeyUsed | scripts/clean-unused-translations.js:64-72 | a name is used if extracted or if it starts with a dynamic prefix |
| TranslationClean.CleanLeaves | scripts/clean-unused-translations.js:75-94 | at every path of any tree: a leaf remains, with its value, if and only if its name is used |
| TranslationClean.CleanSolid | scripts/clean-unused-translations.js:82-85 | no empty object remains inside |
| TranslationClean.CleanIdempotent | scripts/clean-unused-translations.js:75-94 | a second run changes nothing |
| TranslationClean.LeavesAreLeaves | scripts/clean-unused-translations.js:80-91 | the paths that are counted are those of the leaves |
| TranslationClean.CleanKeepsAllIff | scripts/clean-unused-translations.js:87-94 | the count is zero if and only if every leaf is used, and never negative |
| TranslationClean.UncountedRemovals | scripts/clean-unused-translations.js:105-111 | when the count is zero, and the file is not written, the tree is unchanged if and only if it had no empty object inside |
| TranslationClean.NameOfKey | scripts/clean-unused-translations.js:78 | the name the clean script gives to the path of any key is the key without its leading dots |
| TranslationClean.KeyNamesAgreeIff | scripts/clean-unused-translations.js:78 | the name the clean script gives to the path of a key is the key if and only if it has no leading dot |
| TranslationClean.CleanAfterSync | scripts/clean-unused-translations.js:64-94 | for every tree, sync, extracted set, prefixes and key: the clean keeps the synced leaf at the key if the key without its leading dots is used, and none otherwise |
| TranslationClean.ExtractedKeyLostIff | scripts/clean-unused-translations.js:64-94 | an extracted key placed by the sync is lost in the clean if and only if it has a leading dot and its undotted form is neither extracted nor starts with a dynamic prefix |
| TranslationClean.LeadingDotIsCleaned | scripts/clean-unused-translations.js:35-62 | with the script's own prefixes: `.b` is lost and `.app.b` is kept |
| TranslationObjects.CleanObject | scripts/clean-unused-translations.js:75-94 | the recursive in-place loop leaves the objects holding `Clean` and returns the leaves before minus the leaves after |
| TranslationObjects.CleanKey | scripts/clean-unused-translations.js:78-91 | one turn of it, on one property, leaving the other properties where they were |
| TranslationObjects.DeleteIn | scripts/clean-unused-translations.js:84-88 | deleting a property removes its subtree only |
| ThreadCategories.ThreadCategoryTable.SetBatch | src-tauri/src/commands/comms.rs:1384-1401 | a batch writes its entries in order up to the first failing statement and keeps those written |
| ThreadCategories.ThreadCategoryTable.UpsertCategory | src-tauri/src/commands/comms.rs:1462-1488 | an upsert replaces category and both flags if the transaction commits |
| ThreadCategories.UserChoiceWins | src-tauri/src/commands/comms.rs:1388-1399 | over any history the flags are those of the last upsert, and if one is set its category stays |
| ThreadCategories.LastWriteWins | src-tauri/src/commands/comms.rs:1384-1488 | otherwise the last batch entry or upsert decides |
| ThreadCategories.DerivedFillsGap | src-tauri/src/db/tables/core/threads.rs:422-431 | a category derived from the sender is kept only where nothing was written |
| ThreadCategories.HistoryDecides | src-tauri/src/commands/comms.rs:1384-1488 | for any history the whole stored row, category and both flags, is the one that a function of the history alone names, or none |
| ContactFilter.BuildFilter | src-tauri/src/commands/contacts.rs:406-444 | the query built has, in every database, each contact as often as its memberships multiply to, its values bound to the right joins, limit and offset last; no query if and only if the segment is empty |
| ContactFilter.JoinedCount | src-tauri/src/commands/contacts.rs:410-423 | an inner join multiplies a row by its partners |
| ContactFilter.MultiplicityIsMembership | src-tauri/src/commands/contacts.rs:410-423 | a contact is returned at all if and only if it has every membership asked for |
| ContactFilter.NoContactTwice | src-tauri/src/commands/contacts.rs:410-423 | assuming no repeated rows in the joined tables and the segment, once at most |
| ContactFilter.FilterIsConjunction | src-tauri/src/commands/contacts.rs:385-448 | the rows are the window of a list ordered by email that holds exactly the contacts with every membership, without repeats if and only if no contact's rows multiply to more than one |
| ContactFilter.LeqIff | src-tauri/src/commands/contacts.rs:424 | the order by email is text order: a prefix first, otherwise the first differing character; with `LeqTotal` and `LeqTransitive`, a total order |
| ContactFilter.WindowMeans | src-tauri/src/commands/contacts.rs:424 | a page holds the rows from the offset on, at most the limit of them |
| ContactFilter.PagesPartition | src-tauri/src/commands/contacts.rs:424 | consecutive pages hold every row once and in order |
| ContactFilter.CountIs | src-tauri/src/commands/contacts.rs:410-423 | the partners a join finds are counted by their places in the table |
| ContactFilter.TagFilterNeedsColumn | src-tauri/src/db/migrations/003_contacts.sql:62-70 | corollary at one schema: with the columns the migrations give, the query is refused if and only if a tag is asked for |
| AgentScope.FromJsonArray | scripts/verify/agent-scope-verify.rs:45-65 | the loop with its early return computes `Parsed` |
| AgentScope.ReadsExactly | scripts/verify/agent-scope-verify.rs:45-65 | a non-empty list is read from a string if and only if the string writes that list, white space aside |
| AgentScope.RoundTripIff | scripts/verify/agent-scope-verify.rs:45-65 | reading back what the agents table stores (`to_json_array`, src-tauri/src/db/tables/ai/agents.rs:158-160) gives the list if and only if no text holds a comma, a quote, a backslash or a control character |
| AgentScope.EscapedReads | src-tauri/src/db/tables/ai/agents.rs:158-160 | what is stored for a text is read back as that text by JSON's own escapes |
| AgentScope.ReadsEscapes | scripts/verify/agent-scope-verify.rs:56-64 | of a stored list without commas the reader returns the texts as escaped |
| AgentScope.GrantsFailClosed | scripts/verify/agent-scope-verify.rs:73-106 | a tool or tier is granted if and only if it is known, is not T3, and a well-formed stored list names it; any other string grants nothing |
| AgentScope.DenialsSay | scripts/verify/agent-scope-verify.rs:73-106 | what each denial says |
| AgentScope.ValidateScope | scripts/verify/agent-scope-verify.rs:108-128 | the three loops report the first fault, tiers before tools before channels |
| AgentScope.FaultsSay | scripts/verify/agent-scope-verify.rs:108-128 | which fault is reported, and with which words: the first of the earliest list with one |
| AgentScope.ValidatesWhatIsGranted | scripts/verify/agent-scope-verify.rs:73-128 | a scope validates if and only if the agent that stores it is granted all it lists, on known channels |
| AgentScope.GrantsExactlyTheList | scripts/verify/agent-scope-verify.rs:73-128 | a validated scope grants its members and nothing else, never T3 |

## Left out

- The network, IMAP and CalDAV transport, the SQL engine, the vector store, embeddings, the clock, application events and logging: calls that succeed or fail, and tables as sequences and maps.
- `Fusion`: floating-point rounding; scores are exact reals. The order of texts with equal scores is left open, as iterating a hash map leaves it; the sort is an insertion sort, where the source calls the library's.
- `FolderSync`: the time of the last sync, the job rows of the resume timeline, 32-bit wrap-around of the two counters, and several accounts in one pass.
- `SyncLoops`: the length of a sleep; a loop may wake at any time. The actions of the mail loop's own sync and its events are one action.
- `SyncLoops.CaldavSync`: the mail service has no object of its own, only the transition system, because its methods would be the same but for the load and the store.
- `Indexing`: resetting the vector store (which leaves the full-text table alone), the batch written by an external embedder, and the freshness timestamps, which are saved even after an error.
- `Indexing.CollectChunks`: the three sources of the collecting function are one list of documents; files that cannot be read are not in it. The contact and deal lists have unnumbered ids and are not modelled.
- `Indexing.Indexer.IndexSource`: how each source builds or parses the text of its documents.
- `TranslationTree`: arrays, properties inherited from a prototype (a segment such as `constructor` finds a function there), and the order of properties in the file.
- The scanning of source files for keys; the sync script keeps the first value of a key, so its keys are distinct.
- `ThreadCategories`: the time of an upsert, and threads deleted with their categories.
- `ContactFilter.NoContactTwice`: neither the schema nor a stored segment query promises what it assumes; without it, `FilterIsConjunction` says how often a contact occurs.
- `ContactFilter.BuildFilter`: the other columns of a contact, errors of the segment's own query, and the JSON text of the id list, which is the list.
- `AgentScope`: the agent rows themselves and the reader of `db/tables/ai/agents.rs`, which parses JSON.
- `TranslationObjects.SyncLanguage`: reading and writing the file.
- The provider fallback chain, ops snapshot, automation counters, crash tracker, feature flags, configuration merge, user interface and command wrappers.
