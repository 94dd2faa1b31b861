# A model of folder-scoped Drive retrieval

`gdrive_scoped` lets an agent search, list and read one Google Drive folder subtree and
nothing outside it. This project models the parts of it that are hard to get right and
proves, for all inputs and all runs, what they promise.

| file | what it models |
|---|---|
| `MapProtocol.dfy` | the folder-map cache as a protocol of concurrent calls: lock, generation, time to live |
| `AuthorizationRuns.dfy` | authorization requests over that protocol, while Drive changes between steps |
| `RootReads.dfy` | when such a request rests on a root that was read before it |
| `Verdicts.dfy` | what a decision means for a Drive that stands still |
| `FolderWalk.dfy` | the breadth-first walk over an arbitrary parent graph |
| `Scope.dfy` | `ScopedDrive` as one task sees it, with its fields, and the gateway and clock it uses |
| `ProofSteps.dfy`, `ProofRuns.dfy` | proof objects across several scopes, and reads over a shared cache |
| `Search.dfy`, `Merge.dfy` | batched search and the merge by rank |
| `Recall.dfy` | what searches and listings never miss, of a Drive that answers queries as they read |
| `Listing.dfy`, `FirstSeen.dfy`, `Query.dfy` | the pager, its deduplication, and the query printer with a parser of its own |
| `DocumentService.dfy`, `Lru.dfy` | reads through the cache of parsed documents, and folder pages |
| `Paging.dfy`, `Utf8.dfy` | bounded chunks of a document, and the size of their encoding |
| `Cursor.dfy`, `Base64.dfy` | the cursors between them |
| `Markup.dfy`, `Whitespace.dfy` | HTML to text |
| `Latency.dfy` | the percentiles of the benchmark, over the reals |
| `DriveItems.dfy`, `Outcomes.dfy` | metadata, the measured location, results and errors |

Code that changes state is written that way: the scope, the gateway, the document service
and the text collector are classes, the loops are loops, and each method is proved against
a specification whose own properties are the lemmas below. Interleavings are state machines:
a step is at most one stretch between two suspension points of a task.

## Assumptions

- The clock is monotone. Time is a real number; a step may take any non-negative amount.
- `get_item(i)` answers with an item whose ID is `i`, where a statement needs it
  (`Verdicts.KeyedById`). The root check for another ID is modelled all the same.
- A listing that passes `_require_complete` shows every folder that stood unchanged from its
  start to its end (`AuthorizationRuns.Complete`); within `Scope`, listings answer with the
  metadata `get_item` gives (`Scope.Honest`). That a listing has each ID once is not assumed:
  the pager guarantees it.
- "For a current map", below, means that the stored map, if any, is the map of the folders
  now in Drive and that an enumeration would succeed (`Scope.ScopedDrive.Current` and
  `CanEnumerate`); what decisions rest on when Drive moves is in `AuthorizationRuns`.
- `max_bytes >= 4` where a page is to stay under it: one character is always let through.
  `cache_size >= 0`.
- Every item Drive ranks for a batch has a parent in that batch, and one ID is one item, where
  a statement needs it (`Search.AnswersTheQuery`).
- In `Recall` a query that is paged to its end, unflagged, was answered with exactly the items
  that meet what it says (`Recall.Faithful`; `Recall.OnOnePageIsFaithful` shows such a Drive,
  whatever it holds); what "mentions" means is left to Drive.
- The bytes of a document depend only on its ID, modification time, MIME type and export type
  (`DocumentService.Service.Versioned`).
- A parser is any function from bytes to a document or to a failure.
- A character is a Unicode scalar value; it encodes to one to four bytes (section 3 of RFC 3629).

## Where the code and its documentation differ

The model follows the code.

- `docs/architecture.md:43` says that the root is re-read on every request. It is re-read on
  requests for the root and on enumerations; a warm map answers without it
  (`Scope.ScopedDrive.Authorize`). In `RootReads.TrashedRootStillAllows` the root is trashed and
  an item in it allowed; `RootReads.AllowRootReadExactly` says exactly when an allow rests on a
  root read before the request.
- A forced refresh that coalesces with another returns a map whose enumeration may have
  started before the refresh was asked for; only its completion is later
  (`MapProtocol.RefreshMayPredateTheCall`). It does so exactly when that enumeration was under
  way as the call began (`MapProtocol.OlderThanTheCallExactly`).
- A folder named "." directly under the root is given the root's own path, so that its
  children's paths lose a component, and `list_folder` and `get_metadata` disagree about them.
  `FolderWalk.PathIsSlashJoin` and `Verdicts.ListedPathAgrees` say exactly when.
- A remainder that fits in one page is still cut at its last block boundary
  (`Paging.LastChunkExactly` says exactly when a page is the last).
- A search whose hits the safety filter drops can come back short, which
  `docs/adr/0008-search-pages-sized-to-the-request.md:56-60` accepts, and can then report
  `truncated` where no more than `limit` items match: `Search.DroppedHitsLeaveAHole` is one such
  search. `Search.SearchIsExactly` and `Search.TruncatedExactly` say exactly when each happens;
  `Search.SearchIsExact` and `Search.TruncatedIsExact` give numbers of hits left that are enough.
- `meta` and `link` count as silent elements that open and close, but HTML never closes them.
  Written without a slash, one of them silences all text after it until such a tag is closed
  (`Markup.UnclosedSilences`, `Markup.SilentUntilClosed`); `Markup.TextIsVisible` says exactly
  when nothing is lost.

## Model

| member | source | states |
|---|---|---|
| `MapProtocol.StepKeepsInv` | `src/gdrive_scoped/scope.py:326-352` | Every step of every interleaving of `_folder_map` calls, failures, cancellations and clock ticks keeps the protocol invariant: one holder of the lock, the fields belong to the latest completed enumeration, enumerations in sequence, every returned map justified |
| `MapProtocol.RunKeepsInv` | `src/gdrive_scoped/scope.py:326-352` | The invariant holds in every state of every run |
| `MapProtocol.EnumerationsNeverOverlap` | `src/gdrive_scoped/scope.py:335-348` | At most one enumeration is under way, and it started after every completed one had finished; completed ones follow one another |
| `MapProtocol.FieldsAreLatest` | `src/gdrive_scoped/scope.py:347-351` | In every reachable state the generation counts completed enumerations; with a positive time to live the stored map and its expiry are those of the latest one, otherwise nothing is stored |
| `MapProtocol.ReturnedMapsAreJustified` | `src/gdrive_scoped/scope.py:326-352` | A returned map is the latest enumeration at that moment and either the call's own or read with the clock below its start plus the time to live; past the first check it is never of the captured generation or older, nor finished before the call began; a zero time to live never reuses one |
| `MapProtocol.EnumeratesOnlyWhenNeeded` | `src/gdrive_scoped/scope.py:336-342` | Misses coalesce: while a call enumerates, no map newer than the one it rejected is usable |
| `MapProtocol.WarmCallsNeverWait` | `src/gdrive_scoped/scope.py:329-342` | A call that is not a refresh and finds the window open at every step since it began takes no lock and asks Drive nothing, whatever other calls do |
| `MapProtocol.RefreshMayPredateTheCall` | `src/gdrive_scoped/scope.py:334-342` | A run in which a forced refresh returns an enumeration that had started before the refresh was asked for: only its completion is later than the call |
| `MapProtocol.OlderThanTheCallExactly` | `src/gdrive_scoped/scope.py:334-352` | Past the first check a call returns an enumeration that had started before the call if and only if that enumeration was under way when the call began |
| `MapProtocol.CompletedWasEnumerating` | `src/gdrive_scoped/scope.py:346-348` | A completed enumeration was under way, under the same call, at every step from its start to its end |
| `MapProtocol.StepGrows` | `src/gdrive_scoped/scope.py:326-352` | No step undoes time, a completed enumeration, what a call was asked, or what it returned |
| `FolderWalk.EnumerateFolderPaths` | `src/gdrive_scoped/scope.py:366-388` | For any listing with one entry per ID, cyclic, multi-parent and foreign folders included, the walk ends with exactly the map of chains; each key is inserted, and so enqueued, once; and in full: every key but the root is a listed, untrashed folder of the measured location with one parent, that parent being a key, and its path is the parent's and its name; and every such folder below a key is a key |
| `FolderWalk.MapIsTree` | `src/gdrive_scoped/scope.py:367-388` | That full description, of any map of chains |
| `FolderWalk.ChildrenByParent` | `src/gdrive_scoped/scope.py:367-374` | The index of a parent holds, in listing order, exactly the listed folders that have it as their one parent, are in the measured location and not trashed |
| `FolderWalk.EnqueueChildren` | `src/gdrive_scoped/scope.py:381-387` | The inner loop adds exactly the children not yet known, each with its path, its place in the key order and its place in the queue |
| `FolderWalk.AddChildrenKeeps` | `src/gdrive_scoped/scope.py:381-387` | Adding children keeps the walk invariant: every key has a chain behind it, expanded keys come before pending ones, keys are distinct |
| `FolderWalk.ExpandedIsFolderMap` | `src/gdrive_scoped/scope.py:376-388` | When nothing is pending the keys are closed under chains, so the paths are the folder map |
| `FolderWalk.KeysAreBounded` | `src/gdrive_scoped/scope.py:378-387` | There are at most as many keys as listed folders and the root, which is why a walk over a cyclic graph ends |
| `FolderWalk.MapIsDetermined` | `src/gdrive_scoped/scope.py:366-388` | Two maps of the same set of folders are equal: the order in which Drive lists folders cannot change the result |
| `FolderWalk.ChainIsUnique` | `src/gdrive_scoped/scope.py:368-373` | A folder has at most one chain from the root |
| `FolderWalk.PathIsSlashJoin` | `src/gdrive_scoped/scope.py:384-386` | The path of a chain is the slash-join of its names if and only if the chain is a single folder or its top folder is not named "." |
| `FolderWalk.DottedPath` | `src/gdrive_scoped/scope.py:384-386` | A path equals the root marker "." if and only if every folder of the chain is named "." |
| `Verdicts.VerdictIsUnique` | `src/gdrive_scoped/scope.py:275-306` | For an unchanging Drive there is at most one decision about an item, path included |
| `Verdicts.MapGivesVerdict` | `src/gdrive_scoped/scope.py:288-306` | Deciding by any map of the folders now in Drive is deciding by chains |
| `Verdicts.ChildVerdict` | `src/gdrive_scoped/scope.py:170-185` | A safe child of an allowed folder is allowed, with the path the walk would give it; only the root, listed as a child, keeps its own decision |
| `Verdicts.ListedPathAgrees` | `src/gdrive_scoped/scope.py:181-183` | The path `list_folder` gives a child is the one `_authorize` gives it if and only if the folder is the root or its own path is not "."; for the root listed as a child, if and only if it is its own parent and named "." |
| `Verdicts.LiveRefusalsExactly` | `src/gdrive_scoped/scope.py:390-396` | Which of the three live checks refuses an item, each exactly when it is the first rule broken: wrong location, trashed, shortcut |
| `Verdicts.RootRefusalsExactly` | `src/gdrive_scoped/scope.py:308-319` | The same for the root: wrong ID, then the live checks, then not a folder |
| `AuthorizationRuns.EventKeepsInv` | `src/gdrive_scoped/scope.py:275-306` | Every event of every run in which Drive changes between steps keeps the invariant tying requests, readings, completed enumerations and the log of Drive states |
| `AuthorizationRuns.RunKeepsInv` | `src/gdrive_scoped/scope.py:275-306` | The invariant holds in every world of every run |
| `AuthorizationRuns.AllowIsGrounded` | `src/gdrive_scoped/scope.py:288-306` | Every non-root allow rests on metadata read inside the request that carries the measured Drive ID, is neither trashed nor a shortcut and has one parent, and on a chain from the root to that parent whose folders Drive really answered during one enumeration that was made inside the request or within its time to live; the path is that chain's |
| `AuthorizationRuns.OutsideIsGrounded` | `src/gdrive_scoped/scope.py:297-305` | Every "outside" refusal rests on an enumeration that finished after the item was read, and in which no chain reaches the parent; so no folders that all stood in Drive throughout it lead from the root to the parent |
| `AuthorizationRuns.RefusalsAreExact` | `src/gdrive_scoped/scope.py:288-305` | In any run every other refusal rests on metadata read inside the request, and each is given exactly when its rule is the first that this metadata breaks |
| `RootReads.AllowRootReadExactly` | `src/gdrive_scoped/scope.py:284-306` | A non-root allow rests on a root that was read before the request began if and only if, when it began, the enumeration it rests on had completed or was under way with its root already read |
| `RootReads.RootReadExactly` | `src/gdrive_scoped/scope.py:346-366` | The root behind a completed enumeration was read before a step if and only if at that step the enumeration was in the history or under way with its root in hand |
| `RootReads.TrashedRootStillAllows` | `src/gdrive_scoped/scope.py:284-306` | A run in which the root is trashed before a request begins and stays so, and the request for an item in it is allowed |
| `AuthorizationRuns.AnswerFinishedAfter` | `src/gdrive_scoped/scope.py:297-303` | A map that answers after a probe found nothing usable finished after the item was read, whichever line returned it |
| `AuthorizationRuns.StillListing` | `src/gdrive_scoped/scope.py:366-388` | An enumeration of an unchanging Drive sees exactly its folders |
| `AuthorizationRuns.StillDecisionsAreVerdicts` | `src/gdrive_scoped/scope.py:275-306` | While Drive stands still every decision is the verdict, whatever the time to live, the interleaving, the failures and the caching |
| `AuthorizationRuns.CachedDecidesLikeUncached` | `src/gdrive_scoped/scope.py:297-306` | While Drive stands still a caching scope and one with a zero time to live decide alike and report the same paths |
| `Merge.InterleaveByRank` | `src/gdrive_scoped/scope.py:433-444` | The two loops with their `seen` set compute the rank merge |
| `Merge.CellsAreInOrder` | `src/gdrive_scoped/scope.py:435-439` | The loops visit exactly the occupied (rank, batch) positions, in lexicographic order |
| `Merge.MergeOrder` | `src/gdrive_scoped/scope.py:423-444` | The merge is exactly the lexicographically first (rank, batch) sighting of every ID, in that order |
| `Merge.EveryIdSurvives` | `src/gdrive_scoped/scope.py:440-443` | No ranked ID is lost |
| `Merge.MergedIsDistinct` | `src/gdrive_scoped/scope.py:440-443` | No ID is merged twice |
| `Merge.MergedAreHits` | `src/gdrive_scoped/scope.py:439-443` | Every merged hit is a hit of one of the batches |
| `Merge.LandingBounds` | `src/gdrive_scoped/scope.py:435-443` | An item first seen at rank r of batch b among k lands at r * k + b or earlier and, when no batch repeats an ID, at r or later |
| `Merge.TruncationKeepsTheTop` | `src/gdrive_scoped/scope.py:214-216` | Cutting every batch to n hits or more leaves the first n merged items, and whether there are n of them, unchanged |
| `Merge.OneMoreThanTheLimit` | `src/gdrive_scoped/scope.py:214-216` | Batches cut to `limit + 1` or more tell the first `limit` items of the complete merge and whether there are more |
| `Merge.TopIsExactly` | `src/gdrive_scoped/scope.py:433-444` | Where no ID is ranked twice, prefixes of all rankings merge to the first n items of the complete merge if and only if they hold all of its first n positions |
| `Merge.NoMoreThanComplete` | `src/gdrive_scoped/scope.py:433-444` | Prefixes of all rankings never merge to more items than the whole |
| `Merge.OneBatchIsUntouched` | `src/gdrive_scoped/scope.py:428` | With one batch the merge is the identity |
| `Search.SearchIsExactly` | `src/gdrive_scoped/scope.py:219-246` | For any folder map and any paging of Drive, page budgets included: the answer is the first `limit` items of the merge of the complete rankings if and only if every one of its first `limit` positions was fetched |
| `Search.SafeHitsAreRankedOnce` | `src/gdrive_scoped/scope.py:413-420` | A safe hit has one parent, hence one batch: no safe ID is ranked twice |
| `Search.TruncatedExactly` | `src/gdrive_scoped/scope.py:244` | `truncated` holds exactly when more than `limit` distinct items match or some batch had more: never missing, and a false alarm only where a batch had more and no more than `limit` match |
| `Search.SearchIsExact` | `src/gdrive_scoped/scope.py:219-246` | Enough for the first: the safety filter left `limit` hits of every batch that had more |
| `Search.TruncatedIsExact` | `src/gdrive_scoped/scope.py:244` | Enough for no false alarm: it left `limit + 1` of every batch that had more |
| `Search.NothingDroppedIsExact` | `src/gdrive_scoped/scope.py:214-246` | Both hold in particular when every ranked hit passes the safety filter |
| `Search.DroppedHitsLeaveAHole` | `src/gdrive_scoped/scope.py:231-246` | A Drive for which neither is exact: two dropped hits above a safe one make the answer empty, although one item matches, and `truncated` is set, although no more than `limit` match |
| `Search.NotTruncatedIsComplete` | `src/gdrive_scoped/scope.py:239-246` | An answer that is not `truncated` is the whole merge of the complete rankings, whatever the filter dropped |
| `Search.MatchesAreCounted` | `src/gdrive_scoped/scope.py:239-244` | The complete merge holds exactly one hit for every ID that any batch ranks, so its length counts distinct matches |
| `Search.BatchIsPrefix` | `src/gdrive_scoped/drive.py:272-336` | What one batch fetched is a prefix of its complete ranking, and all of it when no more was offered |
| `Search.BatchIsEnough` | `src/gdrive_scoped/drive.py:322-329` | With pages to spare it is more than `limit` items or everything |
| `Search.SafeHitsAreSafe` | `src/gdrive_scoped/scope.py:231-236` | The hits kept are exactly the items of the page that pass the filter, each with its parent's path |
| `Search.SafeHitsOfPrefix` | `src/gdrive_scoped/scope.py:231-236` | They keep the page's order: a shorter page keeps a prefix |
| `Search.CollectSafeHits` | `src/gdrive_scoped/scope.py:230-236` | The inner loop of `search` keeps exactly those |
| `Search.OnePageMore` | `src/gdrive_scoped/scope.py:228-237` | One more page is one more batch, and `incomplete` and `has_more` stick |
| `Search.AnsweredAsksForAll` | `src/gdrive_scoped/scope.py:220-227` | There is one query for each page answered; each reads back as the keywords and 400 folders, the last as at most so many; together they name every folder of the map, in order; and each was paged for `limit + 1` hits |
| `Listing.ListItems` | `src/gdrive_scoped/drive.py:272-336` | The pager, for every Drive, as an exchange: all requests carry the query, the order and the page size, the first no token and each other the token of the answer before it; the items are the first occurrences of each ID over the answers, the walk stops at the first answer that may stop it or at the budget, and each flag holds exactly when it should |
| `Listing.PagesAreListed` | `src/gdrive_scoped/drive.py:275-329` | Of a Drive that knows its pages by their tokens alone, a listing within the budget is the first occurrence of each ID over all the pages, in order, unflagged |
| `Listing.AnswersAreExchanged` | `src/gdrive_scoped/drive.py:272-336` | Every answer of the pager is what such an exchange comes to |
| `Listing.AddFiles` | `src/gdrive_scoped/drive.py:313-315` | `setdefault` per file keeps exactly the first occurrence of each ID |
| `Listing.KeptIds` | `src/gdrive_scoped/drive.py:313-315` | Deduplication loses no ID and repeats none |
| `Listing.CompleteIsWhole` | `src/gdrive_scoped/drive.py:420-440` | A listing that passes `_require_complete` is the first occurrence of each ID across all pages, with no page flagged and the token exhausted |
| `Listing.WholeIsComplete` | `src/gdrive_scoped/drive.py:420-440` | Conversely, whenever the pages end unflagged within the budget that listing is let through |
| `Listing.BudgetExceededExactly` | `src/gdrive_scoped/drive.py:428-432` | The budget is blamed exactly when every page it allowed offered another |
| `Listing.WantedStopsFirst` | `src/gdrive_scoped/drive.py:322-329` | With `wanted`, and pages to spare, paging stops at the first page where that many distinct items are held or the token is gone |
| `Listing.GatheredPrefix` | `src/gdrive_scoped/drive.py:276-315` | What was fetched, and what was kept of it, is a prefix of what any longer walk gives |
| `FirstSeen.KeepIsFirsts` | `src/gdrive_scoped/drive.py:313-315` | Keeping first occurrences keeps exactly the first positions, in order |
| `FirstSeen.FirstsMeaning` | `src/gdrive_scoped/drive.py:313-315` | A position is kept exactly when its key has not occurred before it |
| `Query.EscapeIsPerCharacter` | `src/gdrive_scoped/drive.py:481-482` | The two chained replaces equal one escape per character |
| `Query.QuotedParses` | `src/gdrive_scoped/drive.py:481-482` | A quoted literal ends at its own closing quote and nowhere else, whatever it holds and whatever follows |
| `Query.FoldersQueryReads` | `src/gdrive_scoped/drive.py:190` | An independent parser reads the folder query as exactly: is a folder, is not trashed |
| `Query.ChildrenQueryReads` | `src/gdrive_scoped/drive.py:178-182` | For any folder ID, quotes and backslashes included, it reads the children query as exactly: has that parent, is not trashed, is no shortcut |
| `Query.SearchQueryReads` | `src/gdrive_scoped/drive.py:217-223` | For any parents and keywords it reads a search query as exactly: has one of those parents, is not trashed, is no folder, is no shortcut, mentions those keywords |
| `Query.ParentsClauseRoundTrip` | `src/gdrive_scoped/drive.py:443-448` | The clause is refused exactly for 0 or more than 400 IDs, and otherwise reads back as exactly the list it was printed from |
| `Query.SearchQueryRoundTrip` | `src/gdrive_scoped/drive.py:217-223` | A whole search query reads back as the parents and keywords it was printed from |
| `Query.SearchQueryInjective` | `src/gdrive_scoped/drive.py:217-223` | Different requests print different queries |
| `Paging.ReadChunk` | `src/gdrive_scoped/documents.py:251-270` | The content is the text from the offset to the end below; the cursor is absent exactly at the end of the text and otherwise decodes to that end; the locations are, in document order, those of exactly the blocks with a character on the page, or empty and strictly inside it; only an offset outside the text is refused |
| `Paging.StopAt` | `src/gdrive_scoped/documents.py:256-262` | The shrinking loop ends exactly where the one-shot rule says: at the largest block boundary within the longest prefix that meets both ceilings, or at that prefix; it terminates |
| `Paging.PageLocations` | `src/gdrive_scoped/documents.py:306-314` | The locations of a page, in terms of characters: each block on it once, in order |
| `Utf8.EncodedReadsBack` | `src/gdrive_scoped/documents.py:257-261` | A reader of UTF-8 (section 3 of RFC 3629) reads every encoded character back |
| `Utf8.LengthIsCounted` | `src/gdrive_scoped/documents.py:257-261` | The byte count of a text is the length of that encoding |
| `Paging.ChunkEndMeaning` | `src/gdrive_scoped/documents.py:256-262` | That end, in terms of characters, bytes and boundaries: within both ceilings (one character always allowed), past the start, and the cut of the longest fit |
| `Paging.DropKeepsTheFit` | `src/gdrive_scoped/documents.py:261-262` | Dropping `max(1, overshoot // 4)` characters never skips past the longest fit |
| `Paging.LongestFitExactly` | `src/gdrive_scoped/documents.py:256-262` | Exactly the ends up to the longest fit are within the byte ceiling |
| `Paging.BytesGrow` | `src/gdrive_scoped/documents.py:258-261` | A longer window encodes longer, by one to four bytes a character |
| `Paging.LastBoundaryIsCut` | `src/gdrive_scoped/documents.py:273-277` | The cut is the largest boundary inside the window, or its end when there is none; so a page that ends off a boundary has none inside it |
| `Paging.LastChunkExactly` | `src/gdrive_scoped/documents.py:273-277` | A chunk reaches the end of the text if and only if the rest fits and no block begins strictly inside it (or the last block is empty): a fitting remainder of several blocks is still cut |
| `Paging.BlockBoundaries` | `src/gdrive_scoped/documents.py:317-323` | The accumulating loop computes the starts of the second and later blocks |
| `Paging.BoundariesAreBlockStarts` | `src/gdrive_scoped/documents.py:317-323` | Each boundary is where the next block's text begins, right after a separator; they strictly increase |
| `Paging.BlocksInText` | `src/gdrive_scoped/extractors/models.py:18-20` | Every block stands in the joined text at its start, and every block but the first right after a separator |
| `Paging.LocationsForRange` | `src/gdrive_scoped/documents.py:306-314` | The loop lists the locations of exactly the blocks a range touches |
| `Paging.TouchedInOrder` | `src/gdrive_scoped/documents.py:306-314` | Those blocks, each once, in document order |
| `Paging.TouchesMeaning` | `src/gdrive_scoped/documents.py:311` | A block with text is listed exactly when one of its characters is in the range; an empty one exactly when it stands strictly inside it |
| `Paging.RunReadsTheText` | `src/gdrive_scoped/documents.py:251-270` | Following `next_cursor` from the start with any sizes: the pages concatenate to the whole text, none is empty and none is over a ceiling of four bytes or more |
| `Paging.RunExists` | `src/gdrive_scoped/documents.py:256-264` | Following `next_cursor` terminates, from any offset, with any sizes |
| `Paging.RunReadsPages` | `src/gdrive_scoped/documents.py:251-265` | A run by cursors reads exactly the pages by offsets |
| `Paging.RunIsShort` | `src/gdrive_scoped/documents.py:256-277` | With a fixed size M and 4 * M within the byte ceiling a document takes at most (blocks) + floor(length / M) pages |
| `Paging.PageUsesSomething` | `src/gdrive_scoped/documents.py:256-277` | Every page that does not end the text uses up a boundary or M characters |
| `Cursor.CursorRoundTrip` | `src/gdrive_scoped/documents.py:326-344` | Decoding undoes encoding for every non-negative offset |
| `Cursor.BytesRoundTrip` | `src/gdrive_scoped/documents.py:326-335` | Base64url without padding (section 5 of RFC 4648) is undone by restoring `-len % 4` padding, for any bytes |
| `Cursor.DecimalRoundTrip` | `src/gdrive_scoped/documents.py:327-336` | `int` undoes `str` for every non-negative number |
| `Cursor.NegativeIsRefused` | `src/gdrive_scoped/documents.py:330-344` | A cursor that reads as a negative number is refused, however it is encoded and the number spelled: leading and trailing space, leading zeros, underscores; minus zero is zero |
| `Cursor.NegativeCanBePrinted` | `src/gdrive_scoped/documents.py:340-343` | Every negative number has such a cursor |
| `Base64.EncodesInGroups` | `src/gdrive_scoped/documents.py:326-327` | The cursor of any bytes, as section 4 of RFC 4648 counts: six bits a letter, as many letters as the bytes need, letter k the one the alphabet of section 5 has for the k-th six bits |
| `Base64.LettersExactly` | `src/gdrive_scoped/documents.py:335` | The decoder reads exactly that alphabet, and `+` and `/` for the last two letters |
| `Base64.DecodesInGroups` | `src/gdrive_scoped/documents.py:334-335` | Any string of letters, unless one is left over, decodes to the whole bytes among their bits; bits left over are dropped, whatever they are |
| `Cursor.AlphabetDecodesExactly` | `src/gdrive_scoped/documents.py:333-339` | A string of letters decodes at all exactly unless its length is one more than a multiple of four |
| `Cursor.StrangersAreSkipped` | `src/gdrive_scoped/documents.py:335` | Characters outside the alphabet, padding apart, make no difference |
| `Cursor.IntReadsExactly` | `src/gdrive_scoped/documents.py:336` | `int` reads an ASCII text as a number exactly when the text is a numeral, with at most one sign before it, single underscores inside and space around, and then as its value |
| `Cursor.CursorIsReadExactly` | `src/gdrive_scoped/documents.py:330-344` | A cursor is read as an offset exactly when it decodes to ASCII text that spells it; every other is refused |
| `Scope.Gateway.ListWhole` | `src/gdrive_scoped/drive.py:177-196` | A listing succeeds exactly when its pages end unflagged within the budget, and is then complete and deduplicated; the error says which of the two failed |
| `Scope.Gateway.SearchItems` | `src/gdrive_scoped/drive.py:212-228` | Refused exactly for a limit below 1 or a bad parent list; otherwise one paged query |
| `Scope.ScopedDrive.constructor` | `src/gdrive_scoped/scope.py:115-130` | A scope starts unmeasured, with no map and no proofs |
| `Scope.ConfigurationExactly` | `src/gdrive_scoped/scope.py:115-130` | A configuration is refused exactly for the alias of a whole Drive and for a negative time to live |
| `Scope.ScopedDrive.Initialize` | `src/gdrive_scoped/scope.py:148-168` | Succeeds exactly for an untrashed folder that answers to its own ID and is in a nameable location; the measured location then contains exactly what carries the Drive ID of the root |
| `Scope.ScopedDrive.ValidatedRoot` | `src/gdrive_scoped/scope.py:308-319` | Succeeds exactly when the root passes every check; otherwise the refusal is the first check that failed |
| `Scope.ScopedDrive.CachedFolderMap` | `src/gdrive_scoped/scope.py:321-324` | The stored map exactly while the clock is below its expiry |
| `Scope.ScopedDrive.GetFolderMap` | `src/gdrive_scoped/scope.py:326-352` | Reuses the stored map only unforced and within its window, and then without re-reading the root; otherwise succeeds exactly when an enumeration can |
| `Scope.ScopedDrive.Enumerated` | `src/gdrive_scoped/scope.py:344-352` | A completed enumeration advances the generation and, with a positive time to live, is stored with an expiry counted from before its query; a failed one changes nothing |
| `Scope.ScopedDrive.EnumerateFolderPaths` | `src/gdrive_scoped/scope.py:354-388` | Succeeds exactly when the root is valid and the folder listing complete; the map is then that of the listing |
| `Scope.ScopedDrive.LookUpParent` | `src/gdrive_scoped/scope.py:297-303` | The parent's path in a map stored before the call and within its window then, or freshly listed after a re-read of the root; "none" is only ever said of a fresh one; a warm map that has the parent answers without an enumeration |
| `Scope.ScopedDrive.Authorize` | `src/gdrive_scoped/scope.py:275-306` | A non-root allow rests on live metadata with the measured Drive ID, untrashed, no shortcut, one parent, and on a map, within its window or freshly listed after a re-read of the root, that has the parent, whose path it extends; each live refusal is given whenever its rule is the first that is broken; an "outside" rests on a fresh map without the parent; a warm map answers whatever has become of the root; and for a current map the answer is the verdict, error cases included |
| `Scope.ScopedDrive.AuthorizeByMap` | `src/gdrive_scoped/scope.py:297-306` | The part after the live checks: the same, for an item that passed them |
| `Scope.ScopedDrive.GetMetadata` | `src/gdrive_scoped/scope.py:187-191` | The live metadata of the item, with the path of a decision that rests on a map as above; for a current map, exactly the items that are inside, with the verdict's path |
| `Scope.ScopedDrive.ListFolder` | `src/gdrive_scoped/scope.py:170-185` | The safe children, completely listed, in Drive's order, of a folder allowed as above; for a current map, succeeds exactly for a folder that is inside and completely listed, and each child is what `get_metadata` answers, path included, exactly when `Verdicts.PathAgrees` says |
| `Scope.ScopedDrive.ChildrenOf` | `src/gdrive_scoped/scope.py:177-185` | The filtered complete listing of one folder |
| `Scope.CollectSafeChildren` | `src/gdrive_scoped/scope.py:177-184` | The loop keeps exactly the safe children, in order, each with its path |
| `Scope.SafeChildrenMeaning` | `src/gdrive_scoped/scope.py:405-411` | An item is named exactly when it is listed, has the folder as its one parent, is in the measured location, not trashed and no shortcut |
| `Scope.SafeChildrenInOrder` | `src/gdrive_scoped/scope.py:177-185` | Entry i is the i-th safe child in Drive's order, each once, with the child's own metadata and the path below the folder |
| `Scope.ScopedDrive.AskBatches` | `src/gdrive_scoped/scope.py:220-237` | The batch loop leaves no folder out: the queries, one for each page answered, read back as the keywords and 400 folders each, the last as at most so many, which together are the map's keys in order; it collects the safe hits of those pages, a batch each, and their sticky flags |
| `Scope.ScopedDrive.SearchIn` | `src/gdrive_scoped/scope.py:221-246` | Over queries that leave no folder out, as above, the answer is the first `limit` items of the rank merge of their safe hits, with `truncated` and `incomplete` as those pages say |
| `Scope.ResultExactly` | `src/gdrive_scoped/scope.py:239-246` | That answer in full: as many items as hits, up to the limit, item k being hit k with its own metadata and path; `truncated` exactly when there are more hits or some page had more; `incomplete` exactly when some page was |
| `Scope.ScopedDrive.SearchFor` | `src/gdrive_scoped/scope.py:203-246` | Every folder of the map is asked about: the queries sent, one for each answered page, read back as the keywords and 400 folders each, the last as at most so many, which together are the map's keys in order; the map was stored before the call and within its window then, or freshly listed; a warm map is used as it is; a negative limit is refused; for a current map everything it names is what `get_metadata` would answer |
| `Recall.CompleteSearchIsExact` | `src/gdrive_scoped/scope.py:203-246` | End to end: an answer that is not `incomplete`, where every ranked hit is safe, is the first `limit` items of the merge of the complete rankings, and `truncated` says precisely whether more match |
| `Recall.SearchFindsEverything` | `src/gdrive_scoped/scope.py:203-246` | Of a Drive that answers queries as they read, an answer neither `truncated` nor `incomplete` names every document of the measured location that mentions the keywords in a folder of the map, under its own metadata and path |
| `Recall.FolderIsListedExactly` | `src/gdrive_scoped/scope.py:170-185` | Of such a Drive a folder listing names exactly the untrashed non-shortcuts of the measured location that have the folder as their one parent, each under its own metadata |
| `Recall.FoldersAreListedExactly` | `src/gdrive_scoped/drive.py:189-196` | Of such a Drive the folder enumeration is exactly all untrashed folders |
| `Scope.ScopedDrive.HitsAreNamed` | `src/gdrive_scoped/scope.py:231-236` | With Drive unchanged every search result is allowed, with the same metadata and the same path |
| `Scope.ScopedDrive.ChildrenAreNamed` | `src/gdrive_scoped/scope.py:178-184` | With Drive unchanged every listed child is what `get_metadata` answers, the same metadata and the same path, exactly when `Verdicts.PathAgrees` says |
| `Scope.ScopedDrive.AuthorizeDocument` | `src/gdrive_scoped/scope.py:248-262` | A proof rests on live metadata and a map within its window or freshly listed; for a current map one is issued exactly for downloadable non-folders that are inside; it is a new object, and the only one added |
| `Scope.ScopedDrive.Download` | `src/gdrive_scoped/scope.py:264-273` | Fetches exactly for the proof objects this scope issued, once, and for nothing else |
| `ProofRuns.StepKeepsInv` | `src/gdrive_scoped/scope.py:248-273` | Every step of several scopes and of the reads over them, forging, forgetting and evicting included, keeps: what is on a scope's list was issued by it, what is in its cache was fetched by it, and a read under way past its proof was asked before that proof was issued |
| `ProofRuns.FetchesFollowProofs` | `src/gdrive_scoped/scope.py:264-273` | In any run every fetch was preceded by the same scope, and no other, issuing the very object it was made with, for an item with its measured Drive ID that is neither trashed, a shortcut nor a folder, may be downloaded and has one parent; and it fetches that document |
| `ProofRuns.ServedFollowsProof` | `src/gdrive_scoped/documents.py:150-182` | In any run every document served, from the cache or not, follows its own call, made once, and strictly between the two a proof for that document issued by its own scope; and the version served was fetched by that scope before |
| `ProofSteps.DecisionExactly` | `src/gdrive_scoped/scope.py:248-262` | A proof is issued exactly for such an item whose one parent the map has, the root excepted, and with the path below that parent |
| `ProofSteps.CachedReadIsServed` | `src/gdrive_scoped/documents.py:150-227` | A run in which a document is fetched and served once, and served again from the cache, with a second proof and no second fetch |
| `Lru.CacheIsMostRecent` | `src/gdrive_scoped/documents.py:195-227` | After any history of reads, of which any may be turned away or fail at any time, the cache holds exactly the keys most recently answered, up to its size, in the order of their last use |
| `Lru.ByLastUseIsOrdered` | `src/gdrive_scoped/documents.py:195-227` | That order is the order of last uses |
| `Lru.ByLastUseDistinct` | `src/gdrive_scoped/documents.py:195-227` | It holds each key that was used exactly once |
| `Lru.LargerCacheIncludes` | `src/gdrive_scoped/documents.py:195-227` | Over the same reads, whatever loads and whatever fails, a larger cache holds a smaller one's keys, in the same order |
| `Lru.LargerCacheDownloadsLess` | `src/gdrive_scoped/documents.py:195-227` | So it never downloads more |
| `DocumentService.LargerCacheFetchesLess` | `src/gdrive_scoped/documents.py:195-227` | Of two services asked the same, the one with the larger cache fetched no more often and has the other's versions cached |
| `DocumentService.Service.CacheHoldsTheMostRecent` | `src/gdrive_scoped/documents.py:197-226` | In every state of the service the cache is the versions most recently answered, distinct, within its size |
| `DocumentService.Service.Remember` | `src/gdrive_scoped/documents.py:224-226` | Storing and evicting leaves the newest entries |
| `DocumentService.Service.Fetched` | `src/gdrive_scoped/documents.py:204-223` | The guard, the download and the parser: one fetch exactly when the item is within the limit and the proof is known, and success exactly when the bytes then parse |
| `DocumentService.Service.Extracted` | `src/gdrive_scoped/documents.py:184-227` | A hit moves to the end and costs no fetch; a miss that succeeds is stored; a miss that fails leaves the cache alone; the number of fetches is what `Lru.Downloads` makes of the history of reads; and the answer is what a fresh download and extraction would give |
| `DocumentService.Service.ReadProven` | `src/gdrive_scoped/documents.py:157-182` | Once the item is proven the answer, errors included, is what a read without a cache would give; a bad cursor costs no fetch |
| `DocumentService.Service.ReadDocument` | `src/gdrive_scoped/documents.py:139-182` | Nothing is fetched or served without a proof made in the call; for a current map a proof is made exactly for documents inside; at most one fetch, and none on a hit or a bad cursor; and the answer is what a read without a cache would give |
| `DocumentService.Service.FreshReadExactly` | `src/gdrive_scoped/documents.py:153-182` | What a read without a cache answers: a bad cursor, an unreadable type, an oversized direct download, a failed parse, blank text, an offset past the end, each error exactly when it is due and in that order; otherwise the item's own fields, the length of the text and the chunk the cursor names |
| `DocumentService.BlankIsAllSpace` | `src/gdrive_scoped/documents.py:161-162` | A text is blank exactly when every character of it is space |
| `DocumentService.KeysTellVersionsApart` | `src/gdrive_scoped/documents.py:195-196` | Two items share a cache key exactly when ID, modification time and MIME type agree |
| `DocumentService.Service.ListFolder` | `src/gdrive_scoped/documents.py:111-132` | Whenever the scope gives a complete listing, the page of it that the cursor names, or the error of that cursor for that listing; otherwise the scope's own error |
| `DocumentService.PagesExactly` | `src/gdrive_scoped/documents.py:120-132` | A page in full: refused exactly for a cursor that is no offset of the listing; otherwise the items from there on, as many as asked for while there are any, and a cursor to the rest exactly if there is one |
| `DocumentService.FolderPagesPartition` | `src/gdrive_scoped/documents.py:120-125` | Folder pages, with any limits, partition an unchanged listing |
| `DocumentService.FolderPagesEnd` | `src/gdrive_scoped/documents.py:120-125` | With positive limits they come to an end, after at most one page more than there are items |
| `DocumentService.PageOfReadsCursor` | `src/gdrive_scoped/documents.py:120-124` | Asked with the cursor of an offset, a page starts at that offset |
| `DriveItems.LocationIsTheDriveId` | `src/gdrive_scoped/location.py:29-49` | The measured location contains exactly the items that carry the root's Drive ID |
| `Latency.SortedIsSorted` | `src/gdrive_scoped/bench/benchmark.py:423` | Sorting gives an ascending permutation |
| `Latency.AscendingIsUnique` | `src/gdrive_scoped/bench/benchmark.py:423` | An ascending list is determined by what it holds |
| `Latency.PercentileMonotone` | `src/gdrive_scoped/bench/benchmark.py:422-428` | A higher percentile is never a smaller value |
| `Latency.PercentileIsLinear` | `src/gdrive_scoped/bench/benchmark.py:422-428` | At k + w parts of the n - 1 between the ordered samples a percentile is w of the way from the k-th to the next |
| `Latency.PercentileIgnoresOrder` | `src/gdrive_scoped/bench/benchmark.py:422-428` | Percentiles and medians do not depend on the order of the samples |
| `Latency.InterpolateBetween` | `src/gdrive_scoped/bench/benchmark.py:424-428` | Interpolation stays between its two neighbours, both in range |
| `Latency.HalfIsMedian` | `src/gdrive_scoped/bench/benchmark.py:422-428` | The 50th percentile is the statistical median |
| `Latency.EndsAreExtremes` | `src/gdrive_scoped/bench/benchmark.py:422-428` | The 0th and 100th percentiles are the smallest and the largest sample |
| `Latency.StatsAreOrdered` | `src/gdrive_scoped/bench/benchmark.py:389-404` | In every summary min <= median <= p95 <= max |
| `Latency.StatsExactly` | `src/gdrive_scoped/bench/benchmark.py:389-404` | A summary holds the percentiles at 0, 0.5, 0.95 and 1, and nothing for no samples |
| `Markup.TextCollector.HandleStarttag` | `src/gdrive_scoped/extractors/markup.py:49-53` | The state after the handler is that of the stream with the tag added |
| `Markup.TextCollector.HandleEndtag` | `src/gdrive_scoped/extractors/markup.py:55-59` | The same, with a counter that never goes below zero |
| `Markup.TextCollector.HandleData` | `src/gdrive_scoped/extractors/markup.py:61-63` | The same; data is kept exactly at depth zero |
| `Markup.TextCollector.Text` | `src/gdrive_scoped/extractors/markup.py:65-73` | The loop computes the collapse of the parts kept |
| `Markup.WhichTags` | `src/gdrive_scoped/extractors/markup.py:15-40` | Which elements are silent and which break lines |
| `Markup.BreakTagsSeparate` | `src/gdrive_scoped/extractors/markup.py:49-63` | A break tag, opened or closed, in silent elements or outside, parts what is kept before it from what is kept after it: no line spans it |
| `Markup.PartsInOrder` | `src/gdrive_scoped/extractors/markup.py:49-63` | The parts are, in order and each once, a line feed for every break tag and the text of every data event at depth zero |
| `Markup.SplitAtLineFeed` | `src/gdrive_scoped/extractors/markup.py:68` | Splitting into lines never joins what a line feed separates |
| `Markup.DepthIsStackHeight` | `src/gdrive_scoped/extractors/markup.py:49-59` | Where silent elements are properly nested, the counter is the height of the element stack plus the number of unclosed `meta` and `link` tags |
| `Markup.TextIsVisible` | `src/gdrive_scoped/extractors/markup.py:49-73` | The text then holds, whitespace aside, exactly the characters outside silent elements, in order, if and only if none of them follows an unclosed `meta` or `link` |
| `Markup.UnclosedSilences` | `src/gdrive_scoped/extractors/markup.py:49-63` | After an unclosed `meta` or `link` visible text leaves nothing behind |
| `Markup.ClosedAroundVoid` | `src/gdrive_scoped/extractors/markup.py:49-59` | A silent element with an unclosed one inside, such as a head with one `meta` tag, leaves the counter at one |
| `Markup.SilentUntilClosed` | `src/gdrive_scoped/extractors/markup.py:49-63` | From then on nothing more is heard, however the stream goes on, as long as no such tag is closed |
| `Markup.CollapseKeepsNonSpace` | `src/gdrive_scoped/extractors/markup.py:65-73` | Splitting, stripping, dropping blank lines and joining lose, add and reorder nothing but whitespace |
| `Markup.CollapseLeavesNoBlankPairs` | `src/gdrive_scoped/extractors/markup.py:66-73` | The result has no two adjacent blank lines and none at either end |
| `Markup.CollapseIsIdempotent` | `src/gdrive_scoped/extractors/markup.py:65-73` | Collapsing twice is collapsing once |
| `Whitespace.WhichAreSpace` | `src/gdrive_scoped/extractors/markup.py:68` | Which characters stripping removes |
| `Whitespace.StripExactly` | `src/gdrive_scoped/extractors/markup.py:68` | Stripping takes all the space off both ends and touches nothing in between |

## Left out

- Scope.ScopedDrive.GetFolderMap: does not model the second check, under the lock, because one task alone never finds the generation moved; `MapProtocol` models it for concurrent calls.
- Scope.ScopedDrive.Authorize: the refusals on live metadata are pinned for any map, "outside" and the allows completely only for a current one; for a stale one, what a decision rests on is in `AuthorizationRuns`.
- Paging.ReadChunk: gives the locations of a page as a list, which the code joins with commas.
- DocumentService.Service.ReadDocument: compares with a read without a cache except for a cached version whose item has since grown past the download limit, which the code still serves.
- Cursor.DecodeCursor: refuses a cursor whose bytes are not ASCII text, although `int` also accepts the digits and spaces of other scripts, and does not model the limit of 4300 digits that CPython puts on `int`; no cursor the code issues is of either kind.
- Lone surrogates, which Python strings can hold and UTF-8 cannot encode.
- A time to live that is not a finite number, which the constructor refuses; times are reals here, without rounding.
- A read of one item fails only for an unknown ID in `Scope`; failures of transport, credentials and quota appear as `Fail` and `Die` steps in the protocols and nowhere else.
- HTTP execution, retries, timeouts, per-thread transports and error translation in `src/gdrive_scoped/drive.py`, and the parsing of raw metadata; `list_descendants`, which is `search_items` without keywords or a count.
- `src/gdrive_scoped/credentials.py`, `src/gdrive_scoped/env.py`, `examples/` and `scripts/`: configuration, command lines and adapters.
- The PDF, DOCX, PPTX and XLSX extractors and the MIME table of the registry: what they do is in libraries that are not part of this model, or a table lookup.
- How `html.parser` splits a page into tags and data: the collector is modelled from its handlers on.
- Audit logging, the audit caller, the note of a partial read and the wording of messages: observation only.
- Weak references to issued proofs: `ProofRuns` lets a scope forget any proof at any time.
- Personal fields and links of an item, which are copied and never looked at.
- `search_documents` and the service's `get_metadata`, which check their arguments and delegate.
- The census, the evaluation, the comparison of benchmarks and the report models: counting and field checks that would add only easy members.
- Rounding in floating-point percentiles: the statistics are over the reals.
