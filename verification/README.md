# Screws Box in Dafny

Screws Box keeps the contents of a shelf of small drawers: a grid of containers, items in them, tags on the items.
Its logic is a SQLite database changed by a dozen transactional operations, and three pieces of server state that
run on the clock: sessions, a per-address rate limiter, and a two-step import. This project models that logic and
proves what it promises. `dafny verify dfyconfig.toml` checks all of it.

## How the program is modelled

The five tables are one value, `Schema.Tables`: maps from row id to row, a set of item-tag pairs, and the
AUTOINCREMENT counters. Each SQL statement is a function on that value with the statement's own rule for
constraints, cascades and `OR IGNORE`. The class `Store.Store` holds the database and runs the Go code: a transaction
works on a copy and assigns it back at the end, and a refused statement returns before the assignment. The Go loops
are loops, and every method is proved equal to a specification function. What that function means is then proved in
lemmas. The results at the top speak of characters, numbers and rows: case folding, trimming and string order are
stated character by character in `Text`, so that no statement about a search, a duplicate or an export rests on the
function it is about.

| file | what is in it |
|---|---|
| `Wrappers`, `Sequences`, `Text`, `Labels` | results, table scans and stable ORDER BY, strings and packed tag lists, cell labels |
| `Like` | SQLite's LIKE with ESCAPE, and the query escaper |
| `Schema`, `Operations`, `Resize`, `GridView`, `TagListing` | tables, statements, item and tag operations, grid resize, grid page, tag listing |
| `Documents`, `RoundTrip`, `ExportQueries` | export, import, how they undo each other, the batch queries behind an export |
| `Search`, `Duplicates` | the batch search and the duplicate report |
| `Store`, `Runs`, `Requests` | the store object, sequences of operations, the request handlers in front of it |
| `ImportProtocol` | validate and confirm, concurrently |
| `Sessions`, `RedisSessions` | both session stores and the manager |
| `RateLimit` | the limiter with idle eviction |

## What the code does not do

Some claims one would like to make are false of the code. Each is proved false on an input, or settled by its exact
condition:

- A tag name with "|" in it, or a lone empty tag name, does not survive the packed tag list of a search result.
  `Search.UnpackedMeans` and `Search.PackedTagsMeans` give the exact condition; `Search.PipeSplitsTag` is an input
  that fails.
- The matched-field marks of a search result come from the tags shown, so a query that is only a part of a tag, or
  has "|" in it, gets the tag mark wrong. `Search.MatchedFieldsMeans` gives the exact condition;
  `Search.BarMisleadsMarks` has an input that is marked wrongly and one that is not marked.
- The duplicate report can put unlike items into one group. It finds all duplicates whatever the tags are called
  (`Duplicates.DuplicatesComplete`), and reports nothing else exactly when the items with a repeated key have readable
  tags (`Duplicates.DuplicatesSoundIff`); `Duplicates.PipeFoolsFingerprint` is a store on which it is wrong.
- A search whose tag filter repeats a tag finds nothing, although the comment above it promises every item that has
  all the tags: `Search.HavingMeans`.
- A search hit that matched by its tag alone shows only that tag, because WHERE runs before GROUP_CONCAT:
  `Search.PackedTagsMeans`.
- Merging a tag into itself deletes it: `Operations.MergeIntoItselfDeletes`. Merging a tag that is gone, as a repeated
  confirmation does, reports success and changes nothing: `Operations.MergeMissingSource`.
- An import does not check that the containers fill the announced grid: `Runs.ImportFillsGridIff`,
  `Runs.ImportCanBreakGrid`.
- `MemoryStore.Touch` revives an expired session if no sweep came first: `Sessions.TouchNeedsLiveSession`.
- Eviction from the rate limiter goes unnoticed only if the idle time refills a whole bucket:
  `RateLimit.EvictionInvisibleIff`. Both configured limiters qualify.
- `RedisStore.List` repeats a session whose key SCAN returns twice: `RedisSessions.CollectedMeans`.
- The prefix in the tag listing is not escaped. It filters by prefix exactly when it holds neither "%" nor "_":
  `Like.UnescapedPrefixIff`, `TagListing.ListsByPrefixIff`. The exact-name lookup built on it is right all the same.
- Row letters run out: two cells of a grid share a label once it has more than 55232 rows, which an import can store
  (`Labels.LabelsDifferIff`).

## Assumptions

- Text is ASCII. Go and SQLite fold other letters differently.
- Row ids and integers are unbounded; only the 32-bit rune arithmetic of `LabelFor` is modelled at its width.
- The shelf table has its one row, so `shelf_id` is dropped.
- SQLite scans tables by ascending id and ORDER BY is stable, so rows with equal keys stay in id order.
- The duplicate fingerprint is concatenated in the order of tag names that its query asks for.
- Tokens and session ids are fresh. The clock does not go back. One handler reads one instant where the Go code calls
  `time.Now` twice in a row, as in the look-up-then-refresh of the session manager.
- Each session store operation and each request to the limiter is one step.
- A Redis ttl is positive, and a full SCAN returns every session key that has not expired; it may return keys twice,
  and the server may drop expired keys at any time.
- Token buckets hold real numbers of tokens; the Go library uses floating point.

## Model

| member | source | states |
|---|---|---|
| Text.SortStrings | internal/store/store.go:1021-1027 | the in-place insertion sort leaves the sorted arrangement of exactly the strings it was given |
| Text.Dedup | internal/model/model.go:202-212 | the result holds each string once, in order of first occurrence |
| Text.SplitJoin | internal/store/store.go:894 | joining on "&#124;" and splitting again is the identity exactly on non-empty lists without "&#124;" |
| Text.UnpackJoin | internal/store/store.go:892-900 | a packed tag list reads back unchanged exactly when no name holds "&#124;" and it is not one empty name |
| Text.ListingUnique | internal/store/store.go:1021-1027 | a set of strings has only one strictly sorted listing, so every sorted tag list is determined by its set |
| Text.LeMeans | internal/store/store.go:1023 | string order: the strings agree up to a place where the first ends or has the smaller character |
| Text.LowerMeans | internal/store/store.go:814 | folding identifies exactly the strings that differ only in letters being capital, 32 codes lower, or not |
| Text.OccursMeans | internal/store/store.go:1003 | containment of the folded texts is an occurrence of the query, case aside, at some place of the text |
| Text.SameNameMeans | internal/store/store.go:1418 | LOWER(TRIM(name)) is equal exactly for names that are blanks around cores which differ in case alone |
| Text.TrimSpaceMeans | internal/server/handler.go:114 | trimming leaves the core: only white space, by its six codes, around it, and none at its ends |
| Sequences.SortByFilter | internal/store/export.go:51-53 | picking one group out of sorted rows gives that group, sorted: one ORDER BY over all rows does for every group |
| Like.SearchPatternMeansContains | internal/store/store.go:813-815 | "%" + escaped query + "%" with escape "\" matches exactly the texts that hold the query as a literal substring, case aside |
| Like.PrefixMatchesItself | internal/store/store.go:1224 | every name matches itself followed by "%", even unescaped |
| Like.UnescapedPrefixIff | internal/store/store.go:1224 | over all texts, the unescaped pattern is a prefix filter, case aside, exactly when the prefix holds neither "%" nor "_" |
| Labels.DigitsMean | internal/model/model.go:197-199 | a column prints as the decimal digits of its number without leading zeros |
| Labels.LabelMeans | internal/model/model.go:197-199 | on rows 1 to 26 the label is the column number and the letter A and onwards |
| Labels.LabelInjective | internal/model/model.go:197-199 | for all columns and rows 1 to 55232, equal labels mean equal cells |
| Labels.LabelsDifferIff | internal/model/model.go:193-199 | no two cells of a grid share a label exactly when it has at most 55232 rows |
| Schema.TagAllMeans | internal/store/store.go:395-412 | the tagging loop succeeds exactly when no name repeats or is on the item already; it adds just those names to that item, keeps every tag row, and new tag rows get new ids |
| Schema.TagListListing | internal/store/store.go:444-446 | the tag query lists the item's tag set in strict order |
| Store.Store.Open | internal/store/store.go:233-279 | a new database satisfies the schema and has exactly the containers of its 5 by 10 grid |
| Store.Store.LinkTags | internal/store/store.go:395-412 | the loop is the specified tagging, refusal included |
| Store.Store.CreateItem | internal/store/store.go:368-419 | the transaction commits the specified tables, or changes nothing and gives the reason; the id returned is the new row's |
| Operations.CreateItemMeans | internal/store/store.go:368-419 | succeeds exactly when the container exists and no tag repeats, and tells the two refusals apart; adds one item row under the next id with exactly these tags and leaves every other item, tag row and pair as it was |
| Store.Store.UpdateItem | internal/store/store.go:469-505 | commits the specified tables, or changes nothing |
| Operations.UpdateItemMeans | internal/store/store.go:469-505 | succeeds exactly when item and container exist; rewrites that one row and no tag set |
| Store.Store.DeleteItem | internal/store/store.go:508-522 | commits the specified tables, or changes nothing |
| Operations.DeleteItemMeans | internal/store/store.go:507-522 | succeeds exactly when the item exists; the cascade takes its tag pairs and no other item's |
| Store.Store.AddTagToItem | internal/store/store.go:525-568 | commits the specified tables, or changes nothing |
| Operations.AddTagMeans | internal/store/store.go:525-568 | succeeds exactly when the item exists; adds the one name to its tag set and to no other |
| Store.Store.RemoveTagFromItem | internal/store/store.go:572-600 | commits the specified tables, or changes nothing and tells an unknown tag from one not on the item |
| Operations.RemoveTagMeans | internal/store/store.go:572-600 | succeeds exactly when the item carries the tag; takes off that name only and keeps the tag row |
| Operations.RemoveUndoesAdd | internal/store/store.go:524-600 | removing a tag just added restores items and pairs |
| Store.Store.RenameTag | internal/store/store.go:1251-1266 | commits the specified tables, or changes nothing and tells a missing tag from a taken name |
| Operations.RenameTagMeans | internal/store/store.go:1249-1266 | succeeds exactly when the tag exists and no other tag has the name; every item's tag set has the old name replaced and nothing else changes |
| Store.Store.MergeTags | internal/store/store.go:1270-1297 | the three statements commit as one, or nothing changes |
| Operations.MergeMeans | internal/store/store.go:1270-1297 | for any two ids: refused exactly when the target is missing and some item carries the source; else the source row goes if there is one, its pairs move to the target, and every other row and pair stays |
| Operations.MergeTagsMeans | internal/store/store.go:1268-1297 | for two existing tags: every item has source replaced by target, the target gets the union of both item sets, exactly the source tag goes, all other pairs stay |
| Operations.MergeRefusedIff | internal/store/store.go:1277-1282 | refused exactly when the target is missing and some item carries the source |
| Operations.MergeMissingSource | internal/store/store.go:1270-1297 | merging a tag that is gone changes nothing |
| Operations.MergeUnusedSource | internal/store/store.go:1270-1297 | merging an unused tag into a missing one deletes its row and nothing else |
| Operations.MergeIntoItselfDeletes | internal/store/store.go:1270-1297 | merging a tag into itself removes its row and its pairs and nothing else |
| Store.Store.DeleteUnusedTag | internal/store/store.go:1301-1317 | commits the specified tables, or changes nothing |
| Operations.DeleteUnusedTagMeans | internal/store/store.go:1299-1317 | succeeds exactly when the tag exists and no item carries it; no item's tag set changes |
| Store.Store.InsertMissing | internal/store/store.go:1122-1134 | the nested loops fill the rectangle and count exactly the containers they really inserted |
| Store.Store.CollectAffected | internal/store/store.go:1069-1096 | reports, in id order, each container outside that holds items, with label, count and names |
| Store.Store.ResizeShelf | internal/store/store.go:1030-1146 | blocked exactly when an item lies outside the new bounds, and then nothing changes and the report lists, in id order, each container concerned with its label, number and names of items; else the shelf is resized, with the removed and the added count |
| Resize.AffectedMeans | internal/store/store.go:1069-1106 | the report is non-empty exactly when a container outside the new bounds holds an item |
| Resize.ReportTold | internal/store/store.go:1069-1096 | the report has an entry for every container outside the new bounds that holds items, and no other, with label, count and names |
| Resize.ResizeMeans | internal/store/store.go:1030-1146 | blocked exactly when an item lies beyond the new rows or columns, and then nothing changes; else no item or tag changes, containers within the bounds keep id and place, those outside go, new ones get new ids, and the occupied places are the survivors and the new rectangle |
| Resize.ResizeFillsGridIff | internal/store/store.go:1108-1134 | the result is exactly the full rectangle exactly when no surviving container has a column or row below 1 |
| Resize.ResizeAreas | internal/store/store.go:1108-1145 | from a full grid, removed = old area - overlap and added = new area - overlap |
| Store.Store.UpdateShelfName | internal/store/store.go:1149-1153 | changes the name of the shelf and nothing else |
| Store.Store.LoadCells | internal/store/store.go:296-323 | the row loop tallies every container at its position with its number of items |
| Store.Store.GetGridData | internal/store/store.go:285-365 | a row for every row and a cell for every column, each with its own place and label, shade, item count and container |
| GridView.CellCounts | internal/store/store.go:337-350 | a cell counts the items at its position and names the container there |
| GridView.GridTells | internal/store/store.go:325-353 | every cell shows its column and row, the label, the number of items there, whether that is none, its shade by parity, and the container there or 0 |
| GridView.GridCountsEveryItem | internal/store/store.go:330-353 | on a full grid the cell counts add up to the number of all items |
| GridView.GridCellsDiffer | internal/store/store.go:336-350 | on a full grid no two cells show the same container, nor, up to 55232 rows, the same label |
| TagListing.ExactNameListed | internal/store/store.go:1213-1247 | the tag with exactly the prefix as its name is always listed, and an empty prefix lists every tag |
| TagListing.ListTagsMeans | internal/store/store.go:1213-1247 | lists every matching tag once, by name, with the number of its item pairs |
| TagListing.ListsByPrefixIff | internal/store/store.go:1213-1247 | over all stores, the listing is the tags whose name begins with the prefix exactly when the prefix holds no wildcard |
| Documents.ImportSucceedsIff | internal/store/export.go:145-232 | for every document and any store before: succeeds exactly when the version is 1, positions are distinct and no item repeats a tag |
| Documents.ImportThenExport | internal/store/export.go:12-232 | exporting after an import gives the document in normal form: containers by row and column, items by name, tags sorted, labels recomputed |
| Documents.ImportSizes | internal/store/export.go:182-226 | after an import the schema holds and the three tables have as many rows as the document has containers, items and different tags |
| Documents.AddContainersMeans | internal/store/export.go:182-226 | the nested loops, on any tables: succeed exactly when no position is taken or repeated and no item repeats a tag; what was there stays and the document's containers follow in normal form |
| Store.Store.ImportAllData | internal/store/export.go:145-232 | commits the specified tables, or leaves the store as it was and gives the reason; afterwards the store tells exactly the document, up to labels and order |
| Store.Store.InsertItems | internal/store/export.go:195-225 | the middle loop is the specified insertion of one container's items |
| Store.Store.ExportAllData | internal/store/export.go:12-141 | three batch queries regrouped through maps give the nested document, which tells exactly the store, row by row and by column, items and tags by name |
| Store.Store.GroupItemRows | internal/store/export.go:102-114 | after the loop the map holds, for each container, exactly its items in query order with their tags |
| ExportQueries.RegroupedIsExport | internal/store/export.go:23-129 | regrouping the three sorted batches equals sorting each container's items and each item's tags on their own |
| RoundTrip.ExportMeans | internal/store/export.go:12-141 | the exported document has the header of the shelf and every container once, strictly by row and then column, with its label and its items once each by name, with description and tag set in strict order |
| RoundTrip.ImportTells | internal/store/export.go:145-232 | after an import the store tells a document that differs from the given one at most in labels and in the order of containers, items and tags |
| RoundTrip.NormalKeeps | internal/store/export.go:145-232 | the normal form rearranges containers, items and tags and recomputes labels, and changes nothing else |
| RoundTrip.ExportAcceptable | internal/store/export.go:12-232 | what a store that satisfies the schema exports is always accepted back |
| RoundTrip.ExportIsNormal | internal/store/export.go:12-141 | an exported document is its own normal form |
| RoundTrip.ExportImportExport | internal/store/export.go:12-232 | export, import into any store, export again: the same document |
| RoundTrip.EqualExportsSameShelf | internal/store/export.go:12-141 | equal exports mean equal shelves up to ids: same positions, and a one-to-one pairing of items that keeps name, description, tags and place |
| RoundTrip.ImportRestores | internal/store/export.go:12-232 | importing an export into any store gives the original shelf up to ids, with exactly the tags some item carries |
| Search.UnfilteredHitsMeans | internal/store/store.go:821-838 | join, WHERE and GROUP BY select exactly the items whose name or description holds the query or that carry it as a tag |
| Search.FilteredHitsMeans | internal/store/store.go:839-869 | join, IN, GROUP BY and HAVING select exactly the items with all filter tags and the text; the counting query, without the container join, counts the same |
| Search.HavingMeans | internal/store/store.go:856-859 | the count is reached exactly when the lowercased filter repeats no tag and the item carries all of it |
| Search.HitsAreFound | internal/store/store.go:808-995 | for every search, hits and count come from the plain filter: the query occurs in name or description, case aside, or is a tag; with a filter, all its words are tags, none twice |
| Search.CaseChangesNoHit | internal/store/store.go:814-845 | the case of letters in query and filter never changes what is found |
| Search.RankedMeans | internal/store/store.go:836 | each selected item once, by column and then row |
| Search.RankedAreFirst | internal/store/store.go:836-837 | the first fifty of the ranking are fifty of the items found, each once, by column and then row, and none is left out that belongs before one shown |
| Text.SplitJoinParts | internal/store/store.go:894 | splitting a packed list gives the parts of its members, whatever these contain |
| Search.UnpackedMeans | internal/store/store.go:892-900 | split, dedup and sort always give a strictly sorted list; it is the set of joined names, repeated or not, exactly when none holds "&#124;" and the list is not one empty name |
| Search.UnpackedIgnoresOrder | internal/store/store.go:892-900 | lists with the same names in any order and repetition unpack alike, unless just one of them is a lone empty name |
| Search.PipeSplitsTag | internal/store/store.go:892-897 | the tag "a&#124;b" comes back as two tags |
| Search.PackedTagsMeans | internal/store/store.go:821-900 | a hit shows its full tag set if filtered or matched by text, else just the query tag, exactly when these names survive packing |
| Search.MatchedFieldsMeans | internal/store/store.go:998-1018 | the marks computed from the tags shown are exactly the fields that matched exactly when the query is no mere part of a tag and is no tag with "&#124;" |
| Search.BarMisleadsMarks | internal/store/store.go:892-907 | a store where one search marks a tag that did not match, and another misses the one that did |
| Store.Store.UnpackTags | internal/store/store.go:892-900 | the split, dedup and in-place sort steps together are the specified pipeline |
| Store.Store.ComputeMatchedOn | internal/store/store.go:998-1018 | lists name, description and tag, in this order, exactly when they match |
| Store.Store.SearchItemsBatch | internal/store/store.go:808-944 | returns the total number of matches and the first fifty of them by column and row, each with its row, the tags that come back from the packed list, and marks that are right exactly under the condition of the marks |
| Duplicates.AlikeMeans | internal/store/store.go:1414-1427 | the normalised names are equal exactly for names that differ in case and surrounding blanks alone |
| Duplicates.AlikeShareKey | internal/store/store.go:1414-1427 | items whose names differ in case and surrounding blanks alone, with equal tag sets, always share their key |
| Duplicates.PackedListReturnsIff | internal/store/store.go:1472-1476 | a fingerprint splits back into the item's tag list exactly when no name holds "&#124;" and the set is not one empty name |
| Duplicates.KeysMeanAlike | internal/store/store.go:1414-1427 | between two items with readable tag sets a shared key means the same name and tag set |
| Duplicates.PipeFoolsFingerprint | internal/store/store.go:1414-1446 | a store in which two items with different tag sets share a key and are both reported, because a tag name holds "&#124;" |
| Duplicates.GroupsListKeyClasses | internal/store/store.go:1412-1500 | on every store each group lists all items of one key, once each, by column and row, with container, label and count, spread over two containers |
| Duplicates.GroupsInOrder | internal/store/store.go:1446-1498 | the groups come in the order of their folded, trimmed names |
| Duplicates.DuplicatesSoundIff | internal/store/store.go:1412-1500 | every group reports one class of alike items over two containers, with its tags, exactly when all items with a repeated key have readable tags |
| Duplicates.DuplicatesComplete | internal/store/store.go:1412-1500 | on every store an item whose class spans two containers is in a group, with its whole class, and no item is in two groups |
| Duplicates.ReadableGroupedIff | internal/store/store.go:1412-1500 | with readable tags an item is in a group exactly when its class spans two containers |
| Duplicates.GroupsFind | internal/store/store.go:1412-1500 | the grouped rows find the duplicates in this sense |
| Store.Store.GroupRows | internal/store/store.go:1458-1490 | however classes interleave, the map holds for each key the group of all its rows and the list holds the keys in order of appearance |
| Store.Store.FindDuplicates | internal/store/store.go:1412-1500 | finds the duplicates: groups listed by place, no item in two, every class of alike items in two containers inside one group, and groups that are exactly such classes if all reported items have readable tags |
| Runs.Execute | internal/store/store.go:368-1317 | the store object performs every command as its step in a run, refused ones included |
| Runs.ExecuteAll | internal/store/store.go:368-1317 | a sequence of commands on the store object is a run |
| Runs.RunKeepsSchema | internal/store/store.go:45-82 | after any sequence of operations, refused ones included, every unique, foreign key and primary key constraint holds |
| Runs.RunNeverReusesIds | internal/store/store.go:45-82 | in any run a row of the later store is a row of the earlier one or has an id never handed out before |
| Runs.RunKeepsGrid | internal/store/store.go:1030-1146 | the containers are always exactly the announced grid, as long as imported documents fill theirs |
| Runs.ImportFillsGridIff | internal/store/export.go:175-189 | an import leaves a full grid exactly when its document's containers are exactly the cells of its own grid |
| Runs.ImportCanBreakGrid | internal/store/export.go:145-232 | an accepted document that leaves a shelf without its container |
| Requests.NormalizeTags | internal/server/handler.go:130-139 | the loop stops at the first bad tag with its complaint, or leaves every tag trimmed and lowercased |
| Requests.NormalTagMeans | internal/server/handler.go:131 | a stored tag has no capitals and is the same, case aside, as what is left of the given one without white space around it |
| Requests.FirstProblemMeans | internal/server/handler.go:113-145 | there is a complaint exactly when some limit is broken |
| Requests.ProblemsMean | internal/server/handler.go:113-145 | which complaint comes when, check by check |
| Requests.TagProblemTexts | internal/server/handler.go:130-139 | the complaint about tags is about the first bad one, and says whether it is blank or too long |
| Requests.ValidateCreateItem | internal/server/handler.go:113-145 | reports the first complaint in the order of the checks; accepts exactly the requests within the limits, and then leaves the trimmed name and the lowercased tags without repeats |
| Requests.HandleCreateItem | internal/server/handler.go:351-374 | a request that passes validation is created under the next id with the trimmed name and exactly the normalised tags, or its container is missing; no other failure is possible, and a failure changes nothing |
| Requests.FindTagByName | internal/server/handler.go:587-598 | finds the tag with exactly this name, with its number of items, exactly when one exists, despite the loose prefix |
| Requests.FindTagById | internal/server/handler.go:601-612 | finds the tag with this id, with its name and number of items, exactly when one exists |
| Requests.HandleRenameTag | internal/server/handler.go:614-694 | which of the replies comes when; a merge question names the real conflicting tag and the real source with their numbers of items; a rename changes that one name; a forced merge moves the pairs and removes the source row and nothing else, and changes nothing if the source is gone |
| ImportProtocol.PendingImports.CleanExpired | internal/server/handler_export.go:40-47 | the deleting walk leaves exactly the entries at most 300 seconds old |
| ImportProtocol.PendingImports.HandleValidate | internal/server/handler_export.go:68-156 | refuses exactly what fails a check of the header, with all complaints; else stores the document under the token, drops only expired entries, and summarises; on the waiting documents it is the step Validate |
| ImportProtocol.PendingImports.Take | internal/server/handler_export.go:170-175 | hands out the waiting document and removes its token only; it is the step Take |
| ImportProtocol.PendingImports.Finish | internal/server/handler_export.go:177-195 | tests the age and imports or not, each reply under its exact condition; it is the step Finish |
| ImportProtocol.PendingImports.HandleConfirm | internal/server/handler_export.go:158-196 | each of the four replies under its exact condition; an empty token leaves every waiting document alone, any other uses up that token only; only an import changes the store; it is Take followed by Finish |
| ImportProtocol.Count | internal/server/handler_export.go:120-129 | the counting loops give the number of items and the set of different tags |
| ImportProtocol.SummaryIsTrue | internal/server/handler_export.go:119-154 | after a successful confirm the shelf and the sizes of the tables are those of the summary shown |
| ImportProtocol.RunKeepsSound | internal/server/handler_export.go:68-196 | the protocol invariant survives every interleaving of validates, takes and finishes |
| ImportProtocol.ImportsAreJustified | internal/server/handler_export.go:68-196 | each token leads to at most one import, of exactly the document stored under it, which passed the checks and was at most five minutes old when tested |
| ImportProtocol.UnexpiredTokenWaits | internal/server/handler_export.go:38-47 | an untaken, unexpired token is never cleaned away |
| ImportProtocol.StoreIsReplay | internal/server/handler_export.go:158-196 | in every interleaving the store is the initial one with the logged documents imported in turn |
| Sessions.MemoryStore.Create | internal/session/memory.go:33-38 | binds the id to the session and nothing else |
| Sessions.MemoryStore.Get | internal/session/memory.go:42-54 | returns the stored session exactly when it was idle for at most the ttl; an expired one is deleted, and nothing else |
| Sessions.MemoryStore.Delete | internal/session/memory.go:57-62 | removes this id only |
| Sessions.MemoryStore.Touch | internal/session/memory.go:65-72 | refreshes the entry, expired or not, and no other |
| Sessions.MemoryStore.DeleteByAuthMethod | internal/session/memory.go:76-87 | the deleting walk removes exactly the entries of the method and counts each once |
| Sessions.MemoryStore.List | internal/session/memory.go:90-104 | each live session once and no other |
| Sessions.MemoryStore.Cleanup | internal/session/memory.go:113-131 | one sweep leaves exactly the live sessions |
| Sessions.Manager.CreateWithMethod | internal/session/manager.go:55-87 | stores a session under its token, active now |
| Sessions.Manager.GetSession | internal/session/manager.go:110-135 | answers the live session and refreshes it; refreshes nothing else |
| Sessions.Manager.GetCSRFToken | internal/session/manager.go:144-154 | answers the live session's token without refreshing it; without cookie nothing changes |
| Sessions.Perform | internal/session/memory.go:33-131 | the session manager and store perform every event of a history as its step |
| Sessions.AnswersAreRight | internal/session/memory.go:33-131 | in every ordered history lookup and listing answer as "created, not deleted since, last creation or refresh within the ttl" |
| Sessions.UpkeepChangesNoAnswer | internal/session/memory.go:49-51 | sweeps, lazy deletions, listings and plain lookups placed anywhere change no answer |
| Sessions.TouchNeedsLiveSession | internal/session/memory.go:65-72 | a bare touch gives the same answer with or without a sweep before it exactly when the entry is missing or alive |
| RedisSessions.RedisAnswersAreRight | internal/session/redis.go:40-126 | in every ordered history, whatever expired keys the server drops and when, a lookup answers as "created, not deleted since, last creation or refresh within the ttl" |
| RedisSessions.RedisStore.Create | internal/session/redis.go:40-46 | sets the one key with a deadline a ttl away, which is the creation of that history |
| RedisSessions.RedisStore.Get | internal/session/redis.go:49-62 | finds a session exactly when the plain definition finds it alive |
| RedisSessions.RedisStore.Touch | internal/session/redis.go:71-89 | refreshes activity and deadline of a live session under its key and changes nothing else, and so completes an access of that history |
| RedisSessions.RedisStore.DeleteByAuthMethod | internal/session/redis.go:93-126 | for every SCAN schedule that covers the unexpired keys and may repeat them: removes exactly the method's sessions and counts each once; later lookups answer as if all of them were forgotten |
| RedisSessions.RedisStore.List | internal/session/redis.go:130-158 | collects a session each time its key comes up; what is listed is exactly the live sessions |
| RedisSessions.CollectedMeans | internal/session/redis.go:130-158 | the sessions under the readable keys and no others; none is repeated exactly when no readable key came up twice |
| RedisSessions.VictimsSuffice | internal/session/redis.go:101-119 | leaving expired sessions of the method in place can never be seen by a lookup |
| RateLimit.Limiter.Allow | internal/server/middleware.go:102 | lets a request through exactly when the refilled and capped stock is at least one token, and takes one; else leaves the bucket as it was |
| RateLimit.IpLimiter.Get | internal/server/middleware.go:38-50 | returns the address's own limiter, full if new, marks it seen, and touches no other bucket |
| RateLimit.IpLimiter.Handle | internal/server/middleware.go:102-105 | one request is one step of the cache, and is let through as the cache says |
| RateLimit.IpLimiter.RunCleanup | internal/server/middleware.go:52-63 | one round evicts exactly the buckets idle for over ten minutes |
| RateLimit.RunMirrors | internal/server/middleware.go:38-63 | if the idle time refills a bucket, in every ordered run the evicting cache decides as one that never evicts, and matches it bucket by bucket |
| RateLimit.EvictionInvisibleIff | internal/server/middleware.go:52-63 | no run shows a difference exactly when rate times idle time covers the burst |
| RateLimit.PlainWindow | internal/server/middleware.go:38-50 | what gets through plus the stock left never exceeds the first stock plus the refill |
| RateLimit.WindowBound | internal/server/middleware.go:38-63 | in any window of any run, evictions included, at most burst + rate * length requests of one address get through |
| RateLimit.ServerLimitersQualify | internal/server/middleware.go:97-113 | 5 per second with burst 10 and 0.5 per second with burst 5 both meet the condition |
| RateLimit.ServerBounds | internal/server/middleware.go:97-113 | in any window of any run, evictions included, one address gets at most 10 + 5 a second through to the API and 5 + 0.5 a second through to the login |

## Left out

- SQL driver errors, connections, migrations and busy timeouts: only refusals by a missing row or a broken constraint are modelled.
- Timestamps on rows and in documents, and their formatting: no property rests on them.
- `GetItem`, `ListItemsByContainer`, `ListAllItems`, `SearchItems`, `SearchItemsByTags`: single queries or simpler forms of the batch search, which would add easy members.
- Authentication and OIDC settings, password hashes, cookies, random tokens and their encryption.
- HTTP routing, JSON and form decoding, size limits, templates and everything in the browser.
- Non-ASCII case folding, 64-bit overflow of ids, and more than one shelf row.
- Redis errors other than a missing key, and its separate GET and SET in `Touch`.
- Data races on the session pointers that the memory store hands out.
- The inside of golang.org/x/time/rate beyond its token-bucket step, and the choice of the client address.
- GetGridData: negative sizes, on which the Go code panics when it allocates the rows, are excluded; an import past the validation step could store them.
- HandleRenameTag: the wording of error messages is not modelled, only which reply comes.
