# TimeOps time-tracking backend: a verified model of its core

This project models the core of a time-tracking backend. Users record committed
time entries, keep at most one running entry, and label entries with coloured
tags. The backend enforces one invariant above all: the entries of one user never
overlap. Around that it provides an analytics aggregator, a bulk import and export,
and a live-update broadcaster that tells a user's open browser tabs when their data
changed.

The model covers these parts:

- **`Records`** holds the table rows: `Entry`, `Tag` and `RunningEntry`. It also
  holds the nine-colour palette, as a datatype with its names, and the half-open
  overlap relation.
- **`Store`** holds the database as a class `Db`. Its fields are the three tables
  and the two auto-increment counters. `Db.Valid()` states the table invariants:
  - ids are distinct and below the counter;
  - each user has at most one running entry;
  - no two entries of one user overlap.
- **`EntryModel`** holds the overlap enforcer `FindOverlappingEntry` and the entry
  operations: create, update, delete-all and list. The headline theorems are
  `InsertKeepsNoOverlap` and `UpdateKeepsNoOverlap`. Every store method keeps
  `Valid()`.
- **`RunningModel`** holds get, start and delete of the per-user running entry.
  Start replaces any existing running entry: the last writer wins.
- **`TagModel`** holds get, create and update of tags, scoped to their owner.
- **`SseController`** holds the registry of open event streams as a class. Its
  fields are a map from user to the list of response handles and a log of
  everything written. It also holds the close handler and the fan-out
  `TriggerEventForUser`.
- **`RunningEntriesController`** holds the three running-entry handlers. Each one
  does the store change, then the reply, then the notification.
- **`AnalyticsModel`** holds:
  - `HHMM` formatting;
  - the backward bucket walk `SumByInterval`, as a loop proved against the
    function `Rows`;
  - the per-tag ranking `GetTagsWithWorkingHours`, as a loop over a map proved
    against `RankedGroups`;
  - the day, week and month anchors;
  - `GetAnalyticsData`.
- **`DbModel`** holds `ProcessImportData`, whose four loops are split into four
  methods, each proved against a recursive function: `SeedMap`,
  `UniqueTagNames`/`LastColor`, `CreateTags` and `ImportItems`. It also holds
  `ExportEntriesForUser`.
- **`Sorting`** is a stable insertion sort, specified by permutation, order and
  stability. It stands for the database's `ORDER BY` and for JavaScript's stable
  `Array.prototype.sort`.
- **`Decimal`** holds `Number.prototype.toString` for integers and
  `padStart(2, '0')`, together with their digit-string value.

The clock, the weekday and the three-month cut-off are parameters. Nothing here
talks to a database or a network.

## Model

| member | source | states |
|---|---|---|
| Records.ParseColor | src/middleware/tagValidator.ts:31-41 | a string is read as a colour exactly when it is the name of that palette colour; every other string is no colour |
| Records.ColorRoundTrip | src/middleware/tagValidator.ts:31-41 | every colour's stored name reads back as that colour |
| Records.TagById | src/models/dbModel.ts:229-231 | the included tag relation is a row of the tag table with the entry's tag id, and is absent only when no row has that id |
| Store.EntriesOf | src/models/analyticsModel.ts:137-139 | the rows selected by userId are exactly that user's entries, never more rows than the table |
| Sorting.SortDesc | src/models/analyticsModel.ts:123-124 | the sorted sequence is a permutation of the input, of the same length, with keys non-increasing |
| Sorting.InsertSorted | src/models/analyticsModel.ts:123-124 | inserting into a non-increasing sequence keeps it non-increasing |
| Sorting.SortDescStable | src/models/analyticsModel.ts:123-124 | elements with equal keys keep their relative order (stable sort) |
| Sorting.SortDescMembers | src/models/entryModel.ts:17 | sorting neither adds nor drops an element |
| Decimal.NatToString | src/models/analyticsModel.ts:27 | toString of a non-negative integer, most significant digit first; its properties are stated by `Decimal.NatToStringDigits` |
| Decimal.IntToString | src/models/analyticsModel.ts:27 | toString of any integer: a minus sign before the digits of a negative one |
| Decimal.PadStart2 | src/models/analyticsModel.ts:27 | padStart(2, '0'); its properties are stated by `Decimal.PadStart2Shape` and `Decimal.PadStart2Value` |
| Decimal.NatToStringDigits | src/models/analyticsModel.ts:27 | toString of a non-negative integer is a non-empty digit string that reads back as the number, has no leading zero, and is one character exactly for numbers below 10 |
| Decimal.PadStart2Value | src/models/analyticsModel.ts:27 | padding digits to two characters keeps them digits with the same value, and the length becomes max(length, 2) |
| Decimal.PadStart2Shape | src/models/analyticsModel.ts:27 | the padded text ends with the original text, has only zeros before it, and is at least two characters long |
| Decimal.LeadingZero | src/models/analyticsModel.ts:27 | a leading zero does not change the value of a digit string |
| EntryModel.MatchesOverlapQuery | src/models/entryModel.ts:152-164 | the three OR-ed clauses of the overlap query; `EntryModel.MatchesIffHalfOpenOverlap` relates them to half-open overlap |
| EntryModel.Excluded | src/models/entryModel.ts:151 | the id filter, applied only when the excluded id is truthy |
| EntryModel.Conflicts | src/models/entryModel.ts:150-164 | a stored entry the query would return: the user's, not excluded, matching a clause |
| EntryModel.FindOverlappingEntry | src/models/entryModel.ts:138-167 | a returned entry is in the table and matches the three-clause query for the user, minus the excluded id when it is truthy; none is returned exactly when no entry matches |
| EntryModel.HalfOpenOverlapIsMatched | src/models/entryModel.ts:152-164 | whatever the intervals, a half-open overlap with the candidate satisfies one of the three OR-ed clauses |
| EntryModel.MatchesIffHalfOpenOverlap | src/models/entryModel.ts:152-164 | for well-formed intervals the three-clause query is exactly half-open overlap |
| EntryModel.ZeroLengthCandidateIsOverRejected | src/models/entryModel.ts:158-163 | a zero-length candidate at the end of an entry matches the containment clause although it does not overlap it |
| EntryModel.NoConflictMeansNoOverlap | src/models/entryModel.ts:138-167 | when the query finds nothing, no non-excluded entry of the user overlaps the candidate in either direction |
| EntryModel.InsertKeepsNoOverlap | src/models/entryModel.ts:48-65 | inserting a candidate the query let through keeps every user's entries pairwise non-overlapping |
| EntryModel.CreateEntryForUser | src/models/entryModel.ts:39-68 | returns true exactly when the query finds an overlap, and then changes nothing; otherwise appends the entry with the next id and keeps the store valid |
| EntryModel.FindEntry | src/models/entryModel.ts:89-94 | finds a row with that id owned by that user, and finds none exactly when no such row exists |
| EntryModel.ApplyPatch | src/models/entryModel.ts:121-124 | the supplied fields of the update replace the stored ones, the others stay; stated by `EntryModel.UpdateChangesOnlyTarget` |
| EntryModel.UpdateById | src/models/entryModel.ts:121-124 | the table after updating the row with the given id |
| EntryModel.UpdateOverlaps | src/models/entryModel.ts:100-118 | rejection for overlap: only when a time is supplied and the merged range conflicts with another entry of the user |
| EntryModel.NameOnlyUpdateNeverOverlaps | src/models/entryModel.ts:100-118 | an update that supplies neither time bound is never rejected for overlap |
| EntryModel.UpdateChangesOnlyTarget | src/models/entryModel.ts:120-124 | the update rewrites only the row with the id, and in it only the supplied fields |
| EntryModel.UpdateKeepsNoOverlap | src/models/entryModel.ts:100-124 | an update the merged-range check let through keeps entries non-overlapping and ids distinct |
| EntryModel.UpdateEntryForUser | src/models/entryModel.ts:79-127 | returns true exactly when the entry is missing, not owned, or its merged range conflicts with another entry, and then changes nothing; otherwise applies the patch |
| EntryModel.WithoutUser | src/models/entryModel.ts:26-30 | the table after delete-all holds exactly the other users' entries |
| EntryModel.WithoutUserKeepsNoOverlap | src/models/entryModel.ts:26-30 | deleting a user's entries keeps the no-overlap invariant |
| EntryModel.WithoutUserKeepsDistinctIds | src/models/entryModel.ts:26-30 | deleting a user's entries keeps ids distinct |
| EntryModel.WithoutUserKeepsInvariants | src/models/entryModel.ts:26-30 | deleting keeps ids in range and distinct and keeps no-overlap |
| EntryModel.DeleteAllEntriesForUser | src/models/entryModel.ts:26-30 | removes exactly the user's entries, touches no other table, keeps the store valid |
| EntryModel.UserEntriesFrom | src/models/entryModel.ts:12-16 | exactly the user's entries starting at or after the cut-off |
| EntryModel.GetEntriesForUser | src/models/entryModel.ts:10-19 | exactly the user's entries at or after the cut-off, newest first, each as often as in the table |
| RunningModel.GetRunningEntryForUser | src/models/runningModel.ts:9-13 | a returned running entry belongs to the user; none exactly when the user has none |
| RunningModel.WithoutRunning | src/models/runningModel.ts:32-34 | deleteMany by userId leaves exactly the other users' running entries |
| RunningModel.DeletedCount | src/models/runningModel.ts:55-59 | the deleted count is the number of rows removed |
| RunningModel.DeletedCountPositiveIffExisted | src/models/runningModel.ts:52-60 | the count is positive exactly when the user had a running entry |
| RunningModel.DeletedCountAtMostOne | src/models/runningModel.ts:55-59 | under the unique key at most one row is deleted |
| RunningModel.WithoutRunningKeepsOthers | src/models/runningModel.ts:32-34 | deleting one user's running entry leaves every other user's lookup unchanged |
| RunningModel.AppendKeepsOthers | src/models/runningModel.ts:37-43 | creating a row for one user leaves every other user's lookup unchanged |
| RunningModel.Started | src/models/runningModel.ts:31-43 | the table after delete-then-create; its properties are stated by `RunningModel.StartedProperties` |
| RunningModel.StartedProperties | src/models/runningModel.ts:23-44 | after start, get returns the new entry, others are untouched, and the unique key still holds |
| RunningModel.StartLookupOwn | src/models/runningModel.ts:37-43 | creating the row after the delete makes it the user's running entry |
| RunningModel.WithoutRunningKeepsAtMostOne | src/models/runningModel.ts:31-34 | deleting keeps the unique key |
| RunningModel.DeleteTwiceIsNoop | src/models/runningModel.ts:52-60 | a second delete removes nothing and changes nothing |
| RunningModel.WithoutRunningOfAbsent | src/models/runningModel.ts:55-57 | deleting for a user without a running entry leaves the table as it is |
| RunningModel.StartRunningEntryForUser | src/models/runningModel.ts:23-44 | replaces the user's running entry with the new one, returns it with its tag, and leaves other users and tables as they are |
| RunningModel.DeleteRunningEntryForUser | src/models/runningModel.ts:52-60 | returns true exactly when the user had a running entry; afterwards the user has none and other users are untouched |
| TagModel.GetTagsForUser | src/models/tagModel.ts:10-14 | exactly the user's tags |
| TagModel.GetTagsForUserAppend | src/models/tagModel.ts:10-14 | the user's tags of two concatenated tables are the concatenation of each table's |
| TagModel.CreateTagForUser | src/models/tagModel.ts:23-36 | appends one tag with the next id, the given owner, name and colour (or the default); only the owner's tag list grows |
| TagModel.FindTag | src/models/tagModel.ts:56-61 | finds a tag with that id owned by that user, and finds none exactly when none exists |
| TagModel.UpdateTagForUser | src/models/tagModel.ts:47-74 | returns null and changes nothing when the tag is missing or not owned; otherwise applies the patch and returns the updated tag, still owned by the user |
| TagModel.ApplyTagPatch | src/models/tagModel.ts:67-73 | the supplied name and colour replace the stored ones |
| TagModel.UpdateTagById | src/models/tagModel.ts:67-73 | the table after updating the tag with the given id; stated by `TagModel.UpdateTagChangesOnlyTarget` |
| TagModel.UpdateTagChangesOnlyTarget | src/models/tagModel.ts:67-73 | only the target tag changes, only in the supplied fields; owner and id stay |
| SseController.Broadcast | src/controllers/sseController.ts:66-71 | one data-update write per handle of the list, in list order |
| SseController.Without | src/controllers/sseController.ts:46-50 | the filtered list holds exactly the other handles |
| SseController.Notified | src/controllers/sseController.ts:63-72 | the writes of one trigger: a data-update per registered handle of the user, none when the user has no list |
| SseController.Subscribed | src/controllers/sseController.ts:37-42 | the registry after a connection: the handle appended to the user's list, created when missing |
| SseController.Closed | src/controllers/sseController.ts:45-51 | the registry after a disconnect: the user's list without the handle |
| SseController.BroadcastLog | src/controllers/sseController.ts:66-71 | each handle receives one notification per occurrence in the list |
| SseController.LogOfAppend | src/controllers/sseController.ts:66-71 | what a handle receives from two writes in sequence is what it receives from each, in order |
| SseController.TriggerLog | src/controllers/sseController.ts:63-72 | a trigger adds exactly one notification per registration of a handle to that handle's output and nothing to any other handle |
| SseController.SubscribedProperties | src/controllers/sseController.ts:37-42 | subscribing puts the handle last in the user's list, leaves other users alone, and the next trigger reaches it |
| SseController.WithoutProperties | src/controllers/sseController.ts:45-51 | close removes every occurrence of the handle, keeps the others' counts, and is idempotent |
| SseController.WithoutDistributes | src/controllers/sseController.ts:49 | close keeps the relative order of the remaining handles |
| SseController.ClosedIdempotent | src/controllers/sseController.ts:45-51 | closing twice is closing once; other users' lists are untouched |
| SseController.Registry.constructor | src/controllers/sseController.ts:8 | the registry starts empty with nothing written |
| SseController.Registry.Sse | src/controllers/sseController.ts:28-52 | writes the opening newline to the handle, then appends the handle to the user's list, creating it when absent |
| SseController.Registry.OnClose | src/controllers/sseController.ts:45-51 | replaces the user's list by the list without the handle and writes nothing |
| SseController.Registry.TriggerEventForUser | src/controllers/sseController.ts:63-72 | writes one notification to each of the user's handles in order, nothing for an unknown user, and leaves the registry as it was |
| RunningEntriesController.GetRunningEntry | src/controllers/runningEntriesController.ts:28-43 | status 200 with the user's running entry or null, and the matching message |
| RunningEntriesController.StartRunningEntry | src/controllers/runningEntriesController.ts:54-80 | with validation errors: 400 with them and no change or notification; otherwise the running entry is replaced, 201 with it and its tag, then exactly one notification round for the user |
| RunningEntriesController.DeleteRunningEntry | src/controllers/runningEntriesController.ts:91-108 | always 200 with count telling whether an entry existed; the entry is gone; viewers are notified only when one was removed |
| AnalyticsModel.HHMM | src/models/analyticsModel.ts:24-28 | floored hours and floored minutes of the JavaScript remainder, each padded to two digits and joined by a colon; its properties are stated by `AnalyticsModel.HHMMRoundTrip` |
| AnalyticsModel.JsRem | src/models/analyticsModel.ts:26 | JavaScript's remainder: with the quotient truncated toward zero it rebuilds the dividend, and it lies in [0, b) for a non-negative dividend and in (-b, 0] for a negative one, which fixes it uniquely |
| AnalyticsModel.HHMMRoundTrip | src/models/analyticsModel.ts:24-28 | for a non-negative duration, the text reads back as the floored hours and the minutes left over (below 60, within a minute of the duration), with two minute digits and at least two hour digits |
| AnalyticsModel.StartingFrom | src/models/analyticsModel.ts:54-56 | exactly the entries starting at or after the edge |
| AnalyticsModel.StartingBefore | src/models/analyticsModel.ts:70-72 | exactly the entries starting before the edge |
| AnalyticsModel.Window | src/models/analyticsModel.ts:54-72 | exactly the entries starting inside [lo, hi) |
| AnalyticsModel.EdgeIsMultiple | src/models/analyticsModel.ts:74 | the k-th lower edge is the anchor minus k intervals |
| AnalyticsModel.EdgeStep | src/models/analyticsModel.ts:74 | each step moves the edge back by one interval |
| AnalyticsModel.BucketEntries | src/models/analyticsModel.ts:52-76 | bucket k holds exactly the entries at or after its edge and before the previous edge (the first bucket is open above) |
| AnalyticsModel.PoolThenEdgeIsWindow | src/models/analyticsModel.ts:54-72 | filtering the remaining pool at the next edge is filtering the input to the window between the two edges |
| AnalyticsModel.WalkStep | src/models/analyticsModel.ts:54-75 | the entries the loop sums in step k are exactly bucket k |
| AnalyticsModel.Rows | src/models/analyticsModel.ts:40-79 | n rows, one per bucket |
| AnalyticsModel.RowsAt | src/models/analyticsModel.ts:59-67 | row k is labelled with edge k minus the offset and valued with the HH:MM of bucket k's seconds |
| AnalyticsModel.WalkRow | src/models/analyticsModel.ts:59-67 | the row built in step k is row k, and appending it extends the rows by one |
| AnalyticsModel.SumByInterval | src/models/analyticsModel.ts:40-79 | returns max rows (none when there are no entries or max is not positive), row k being bucket k of the backward walk |
| AnalyticsModel.EdgesDecrease | src/models/analyticsModel.ts:74 | with a positive interval, later edges are strictly earlier |
| AnalyticsModel.BucketsAreDisjoint | src/models/analyticsModel.ts:52-76 | an entry lies in at most one bucket: no entry is counted twice |
| AnalyticsModel.LabelsDecrease | src/models/analyticsModel.ts:60 | row labels are strictly decreasing instants |
| AnalyticsModel.SplitAtEdge | src/models/analyticsModel.ts:54-72 | the seconds from a lower edge are those from a higher edge plus those of the window between |
| AnalyticsModel.RowsCoverRecentEntries | src/models/analyticsModel.ts:40-79 | the rows' seconds add up to the seconds of all entries starting at or after the last edge: nothing recent is lost |
| AnalyticsModel.TotalOfNonNegative | src/models/analyticsModel.ts:62-65 | with non-negative durations a filtered sum lies between zero and the full sum |
| AnalyticsModel.RowsAtMostTotal | src/models/analyticsModel.ts:40-79 | with non-negative durations the rows never add up to more than all entries |
| AnalyticsModel.TagOrder | src/models/analyticsModel.ts:97-113 | the map's keys in insertion order: each tag id of a tagged entry once, and nothing else |
| AnalyticsModel.TagGroups | src/models/analyticsModel.ts:116-121 | one group per key of the map |
| AnalyticsModel.TagRows | src/models/analyticsModel.ts:123-125 | one row per group |
| AnalyticsModel.TagStep | src/models/analyticsModel.ts:97-113 | one more entry adds its tag id when new, adds its duration to its tag's total, and never renames a known tag |
| AnalyticsModel.TagSecondsAbsent | src/models/analyticsModel.ts:103-111 | a tag id not yet in the map has no seconds |
| AnalyticsModel.TagNameIsFirst | src/models/analyticsModel.ts:103-111 | a group's name is the tag name of its first entry |
| AnalyticsModel.GetTagsWithWorkingHours | src/models/analyticsModel.ts:87-126 | the rows are the ranked groups: name and HH:MM total of each tag, largest total first |
| AnalyticsModel.AccumulateEntry | src/models/analyticsModel.ts:97-112 | one pass of the loop: an entry without a tag is skipped, otherwise its working time goes to its tag's group, created with the entry's tag name on first sight; the map keeps describing the groups of the entries seen |
| AnalyticsModel.GroupsMatchGroups | src/models/analyticsModel.ts:115-120 | reading the map in insertion order gives one group per tag id, with its first-seen name and total seconds |
| AnalyticsModel.RankedGroups | src/models/analyticsModel.ts:115-125 | the groups ranked by total, largest first; its properties are stated by `AnalyticsModel.RankedGroupsProperties` |
| AnalyticsModel.RankedGroupsProperties | src/models/analyticsModel.ts:115-125 | totals non-increasing; a permutation of the groups; one group per tag id, holding that id's seconds and first name; equal totals keep insertion order |
| AnalyticsModel.GroupSumIsSumOver | src/models/analyticsModel.ts:116-121 | the groups' totals add up to the per-id sums over the keys |
| AnalyticsModel.SumOverStep | src/models/analyticsModel.ts:103-111 | one more entry adds its duration to exactly one key's sum |
| AnalyticsModel.GroupsConserveSeconds | src/models/analyticsModel.ts:97-121 | the group totals add up to the seconds of all tagged entries: grouping loses and invents nothing |
| AnalyticsModel.SumOverIsTagged | src/models/analyticsModel.ts:97-113 | the per-key sums add up to the seconds of all tagged entries |
| AnalyticsModel.AnchorsAt | src/models/analyticsModel.ts:143-163 | the day anchor minus the offset is the UTC midnight containing now; the week anchor is 0 to 6 days earlier, on the Monday counted from the given `dayOfWeek`; the month anchor is 0 to 6 days earlier, on the Sunday counted from it (local-time weekday, see Left out) |
| AnalyticsModel.AnalyticsEntries | src/models/analyticsModel.ts:137-141 | the user's entries with their tags, newest first; stated by `AnalyticsModel.AnalyticsEntriesProperties` |
| AnalyticsModel.WithTags | src/models/analyticsModel.ts:137-141 | each entry paired with its included tag |
| AnalyticsModel.AnalyticsEntriesProperties | src/models/analyticsModel.ts:137-141 | the report reads exactly the user's entries, each with its tag, newest first |
| AnalyticsModel.GetAnalyticsData | src/models/analyticsModel.ts:135-211 | 14 day, 52 week and 12 month rows walked back from the anchors (none without entries), and the tag ranking, all over the user's entries |
| DbModel.SeedMap | src/models/dbModel.ts:123-131 | every existing tag name is a key, and each key maps to the id of a tag with that name |
| DbModel.SeedMapHasOwnNames | src/models/dbModel.ts:123-131 | every tag of the user has its name in the seeded map |
| DbModel.UniqueTagNames | src/models/dbModel.ts:133-138 | the unique-tag keys: each non-empty tag name of the records, once |
| DbModel.UniqueTagNamesDistinct | src/models/dbModel.ts:133-138 | no tag name is processed twice |
| DbModel.UniqueTagNamesOrder | src/models/dbModel.ts:133-138 | the unique names come in order of first appearance: of two names, the earlier one is named by some record before any record names the later one |
| DbModel.LastColor | src/models/dbModel.ts:133-138 | the colour the unique-tag map keeps for a name: that of its last record |
| DbModel.TagStep | src/models/dbModel.ts:141-159 | one pass of the tag loop: skip a known name, else create the tag with the next id or report the colour error |
| DbModel.CreateTags | src/models/dbModel.ts:140-160 | the tag loop over the unique names; its properties are stated by `DbModel.CreateTagsMap`, `DbModel.CreateTagsCreated`, `DbModel.CreateTagsErrors` |
| DbModel.CreateTagsMap | src/models/dbModel.ts:140-160 | after the tag loop the map holds the seeded names unchanged plus exactly the new names whose colour is in the palette |
| DbModel.CreateTagsCreated | src/models/dbModel.ts:140-160 | each created tag belongs to the user, has the next id in turn, is a new name with a palette colour, carries the colour of its last record, and the map sends it to its id |
| DbModel.CreateTagsOrder | src/models/dbModel.ts:140-160 | the tags are created in the order of their names in the list iterated |
| DbModel.TagStepOrder | src/models/dbModel.ts:141-159 | one pass of the tag loop appends after the tags of earlier names |
| DbModel.TagStepKeepsCreatedOk | src/models/dbModel.ts:140-159 | one pass of the tag loop keeps every created tag numbered in turn, owned by the user, named by a new name with a palette colour and mapped to its id |
| DbModel.TagStepCreated | src/models/dbModel.ts:141-155 | one pass only appends, and appends the tag of a new name with a palette colour |
| DbModel.CreateTagsCovers | src/models/dbModel.ts:140-160 | every new name with a palette colour gets a tag |
| DbModel.CreateTagsErrors | src/models/dbModel.ts:140-160 | each new name yields a tag or one error; errors are exactly names with a colour outside the palette; with palette colours there are none |
| DbModel.CreatedTagsFresh | src/models/dbModel.ts:140-160 | created tags never reuse a seeded name or each other's names |
| DbModel.ImportItem | src/models/dbModel.ts:163-201 | one record: an error when its tag does not resolve, an error naming the conflicting entry when it overlaps, otherwise a new entry with the next id |
| DbModel.ImportItems | src/models/dbModel.ts:162-202 | the record loop over the records in order; its properties are stated by `DbModel.ImportItemsCounts` and `DbModel.ImportItemsKeepsStore` |
| DbModel.ImportItemsCounts | src/models/dbModel.ts:162-202 | every record becomes exactly one entry or exactly one error |
| DbModel.ImportItemsKeepsStore | src/models/dbModel.ts:162-202 | the record loop only appends entries of the user, with fresh ids, and keeps every user's entries non-overlapping |
| DbModel.RepeatedRecordImportedOnce | src/models/dbModel.ts:172-183 | a record given twice is imported at most once, whatever its times |
| DbModel.ImportItemAsWritten | src/models/dbModel.ts:5 | one record as the code runs it: the imported overlap check is missing, so a record whose tag resolves ends in the create-failed error |
| DbModel.ImportItemsAsWritten | src/models/dbModel.ts:162-202 | the record loop as written; stated by `DbModel.AsWrittenImportsNothing` |
| DbModel.AsWrittenImportsNothing | src/models/dbModel.ts:162-202 | as written, no entry is ever created and every record becomes an error |
| DbModel.AsWrittenLosesRecord | src/models/dbModel.ts:162-202 | one record under a known tag is created by the intended loop and lost by the loop as written |
| DbModel.SeedTagMap | src/models/dbModel.ts:123-131 | the first loop builds the seeded map |
| DbModel.CollectUniqueTags | src/models/dbModel.ts:133-138 | the second loop yields the unique names as its key order (the order of first appearance, by `DbModel.UniqueTagNamesOrder`), each with the colour of its last record |
| DbModel.CreateTagStep | src/models/dbModel.ts:141-159 | one pass of the tag loop: skip a known name, else create the tag or record the error, keeping the store valid |
| DbModel.CreateMissingTags | src/models/dbModel.ts:140-160 | the third loop creates exactly the tags of the tag-loop function, appended with consecutive ids, keeping the store valid |
| DbModel.ImportRecords | src/models/dbModel.ts:162-202 | the fourth loop inserts exactly the entries of the record-loop function and reports its errors, keeping the store valid |
| DbModel.ImportRecordStep | src/models/dbModel.ts:163-194 | one record: reported when its tag does not resolve or it overlaps an entry of the user, otherwise inserted with the next id; the store stays valid |
| DbModel.ProcessImportData | src/models/dbModel.ts:116-213 | the new tables, the counts and the error list (absent when empty, tag errors first) are those of the tag loop followed by the record loop |
| DbModel.ImportCountIdentity | src/models/dbModel.ts:162-208 | when every named tag has a palette colour, no tag fails and entriesCreated plus the errors equals the number of records |
| DbModel.ImportTagsProperties | src/models/dbModel.ts:129-160 | an existing tag name of the user never causes a tag to be created, and no name is created twice |
| DbModel.ImportTagsOrder | src/models/dbModel.ts:133-160 | the new tags of an import get increasing ids in the order their names first appear in the records |
| DbModel.ImportCreatesNamedTag | src/models/dbModel.ts:133-160 | each record naming a new tag with a palette colour gets that tag created |
| DbModel.ExportOrder | src/models/dbModel.ts:225-234 | the user's entries sorted by start, oldest first |
| DbModel.Project | src/models/dbModel.ts:237-245 | one exported record: the entry's name and times with its tag's name and colour |
| DbModel.ExportOrderProperties | src/models/dbModel.ts:225-234 | the query yields exactly the user's entries, one row per entry, in ascending start order |
| DbModel.ProjectAll | src/models/dbModel.ts:237-245 | one record per entry in the same order, each carrying its tag and the entry's start |
| DbModel.ExportEntriesForUser | src/models/dbModel.ts:221-252 | fails exactly when an entry of the user has no tag; otherwise one record per entry of the user, oldest first, each with its tag |
| DbModel.ExportProperties | src/models/dbModel.ts:237-245 | a successful export is a permutation of the user's entries, field by field, and every exported colour reads back as the tag's colour |

## Left out

- Parsing the uploaded CSV text and converting dates to Unix seconds (`parseCSV`, `dateTimeToUtcTimestamp`) are not modelled. The import takes already parsed records.
- The bucket label text is not modelled. The source renders each instant with `toUTCString` and cuts it with `split`; the model keeps the instant itself (`BucketRow.labelInstant`), so there is no date formatting.
- The model uses exact arithmetic, not IEEE doubles. The month width is 4.34524 weeks, 2,628,001.152 seconds, as an exact real number, so month edges carry no rounding.
- Reading the clock is not modelled. `Date.now()` and `getDay()` become the parameters `nowInSeconds` and `dayOfWeek`. The source reads the clock three times and could see a day change in between; the model reads it once. `getDay()` is the weekday in the server's local time zone while the midnight is taken in UTC, so on a server not running in UTC the week and month anchors can be a day off from Monday and Sunday; the model states the anchors relative to the `dayOfWeek` it is given.
- EntryModel.GetEntriesForUser: the three-month cut-off is taken as an integer parameter. The source computes it as a fractional number from the clock; since start times are integers, an integer parameter is enough for every comparison.
- Storage and transport failures are not modelled: Prisma errors, Express plumbing, authentication, request validation, and the outer "Import processing failed" / "Export failed" rethrows. A tag creation that fails for any reason other than an unknown colour is also not modelled.
- Concurrency is not modelled; each operation is treated as atomic. In the source the async handlers interleave at every awaited database call, so two requests can both pass the overlap check before either inserts; the no-overlap theorems (`EntryModel.InsertKeepsNoOverlap`, `EntryModel.UpdateKeepsNoOverlap`, `DbModel.ImportItemsKeepsStore`) hold for sequential schedules only.
- The default colour of a tag created without one comes from the database schema. The schema is not part of this model; the constant `Slate` stands in for it.
- Import error texts are modelled only by their kind and the names they carry; the controllers' reply messages are stated word for word. The overlap message's formatted dates are left out.
- Console logging (`console.log`, `console.info`, `console.error` in the event-stream controller and the import) is not modelled; it changes no state the model describes.
- Ties in the database's `ORDER BY startTimeUtc` are modelled by a stable sort over table order. The database leaves their order unspecified.
- The response handles of the event-stream registry are opaque numbers. HTTP headers and a client disconnecting mid-write are not modelled.
- RunningModel.StartRunningEntryForUser: the tag returned with the running entry is looked up by id only. The foreign-key check that the tag exists is not modelled.
- An update of a missing or foreign entry returns `true`, the same as an overlap. Delete-all returns nothing. Create returns a boolean. The notification loop has no per-handle error handling. The model does the same.

## Findings

| source | as written | input that shows it | evidently intended | confidence | as-written member | corrected member |
|---|---|---|---|---|---|---|
| src/models/dbModel.ts:5 | `findOverlappingEntry` is imported from `./userModel`, which exports only `getUserIdFromToken` and `createEntryForUser`. The call at lines 172-176 therefore throws for every record whose tag resolves, and the catch at lines 196-201 reports "Failed to create entry". | one record `{name: "Report", 0..3600, tag "Work"}` with "Work" mapped to tag id 1: no entry is created and one error is reported | import the overlap check from `./entryModel`, so a non-overlapping record is inserted | not executed | DbModel.ImportItemsAsWritten, DbModel.AsWrittenImportsNothing, DbModel.AsWrittenLosesRecord | DbModel.ImportItems, DbModel.ImportItemsKeepsStore, DbModel.ImportItemsCounts |
