# Weekly routine engine of schedulify-api, in Dafny

schedulify-api is an Express and MongoDB service in which each user keeps a
weekly routine. A routine is one document with seven day arrays (`monday` …
`sunday`) of activities, plus an all-time counter of created activities. This
project models the part of the service that works on those documents:

- **Routine handlers and helpers.** Create, read, update and delete an
  activity of a day, with:
  - the body whitelist and the field, category and `HH:mm` checks;
  - the duration computed from the two times;
  - the scan for a time conflict with the other activities of the day;
  - the pre-save hook that sorts every day by start time.

  Both helpers are modelled: the current `routineControllerHelper` and the
  older `activityControllerHelper`.
- **Completion marks.** Marking an activity completed appends one archive
  record. Unmarking deletes one record.
- **Nightly reset.** The hourly job clears `isCompleted` for every user whose
  local clock reads midnight.
- **Feedback tickets.** Creation, the caller's own paged tickets, and
  closing or reopening a ticket.
- **Pagination.** The three pagination helpers:
  - `aggregatePagination`;
  - `paginateHelper`;
  - the `APIFeatures` class;

  plus the page and limit defaults.
- **Statistics.** The handlers of two statistics controllers:
  - day statistics;
  - category statistics;
  - nationality and gender;
  - birth year;
  - registration month.

  The aggregation pipelines are modelled as functions on the collections.

**How the model is built.**
- **The database.** It is a `Store` class whose methods change its
  `routines`, `activities` and `archive` fields. The ticket collection is a
  `TicketStore` class.
- **Routines.** A routine document is a datatype value. The handlers load it,
  change it and write it back through `Save`, which applies the pre-save
  sort.
- **Parameters.** Each activity's `isTimeConflict` method comes from the
  activity schema, which is not part of this model. It is a parameter
  `conflict`. The proofs about it assume only that it is symmetric where
  that matters. The category enumeration is a parameter `known`.
- **Identifiers.** Generated identifiers are passed in by the caller. A new
  activity id must be fresh, as a new ObjectId is. The store invariant then
  keeps the ids of every day distinct.
- **The reset job's inputs.** The clock is a function from a time zone to
  the local `HH:mm` string.

**Statistics controllers.** `statsController` is the older controller. Its
day and category statistics are character for character the same as those
of `statController` (`statsController.ts:17-146` against
`statController.ts:59-188`). The members cited against `statController`
therefore model both. The administrator routes
`getUserActivitiesByDay`, `createUserActivityByDayAndID` and
`updateUserActivityByDayAndID` run the same steps as the owner's routes for
the user named in the path. They are modelled by `GetMyActivities`,
`CreateMyActivity` and `UpdateMyActivity`.

## Model

| member | source | states |
|---|---|---|
| `TimeOfDay.Minutes` | src/helpers/routineControllerHelper.ts:11-12 | a valid `HH:mm` string denotes a minute of the day, at most 23:59 |
| `TimeOfDay.Format` | src/services/routineService.ts:9 | every hour below 24 and minute below 60 renders as a string the time pattern accepts, which reads back as the same hour, minute and minute-of-day |
| `TimeOfDay.FormatRoundTrip` | src/services/routineService.ts:9 | reading an accepted time and rendering it again gives back the same string |
| `TimeOfDay.ValidTimeIffFormatted` | src/services/routineService.ts:9 | a string matches the `HH:mm` pattern exactly when it is the two-digit rendering of some hour below 24 and minute below 60 |
| `TimeOfDay.LexLeReflexive` | src/models/routineModel.ts:50-52 | the string order used by the sort puts every start time at or before itself |
| `TimeOfDay.LexLeTotal` | src/models/routineModel.ts:50-52 | any two start times are comparable |
| `TimeOfDay.LexLeTransitive` | src/models/routineModel.ts:50-52 | the string order is transitive |
| `TimeOfDay.LexLeAntisymmetric` | src/models/routineModel.ts:50-52 | two strings each at or before the other are equal |
| `TimeOfDay.LexOrderIsMinuteOrder` | src/models/routineModel.ts:50-52 | for valid times, string order is chronological order: `a` sorts at or before `b` exactly when `a`'s minute is at or before `b`'s |
| `Days.Index` | src/controllers/statController.ts:109-118 | the `sortOrder` of a day is its position in the Monday-first list, below 7, and the list holds that day there |
| `Days.AllDaysIndexed` | src/controllers/statController.ts:112-115 | the index of each listed day is its own position, so the seven positions are distinct |
| `Days.Parse` | src/services/routineService.ts:14-16 | a path segment is accepted exactly when it is the name of a day, and the day found carries that name |
| `Days.ParseName` | src/services/routineService.ts:14-16 | every day's name is accepted as that day |
| `Activities.OverlapsIsSymmetric` | src/types/modelTypes/activityType.ts:11 | the intended conflict test (minute intervals intersect) gives the same answer whichever activity is asked |
| `Activities.OverlapsItself` | src/types/modelTypes/activityType.ts:11 | an activity of positive length conflicts with its own times, which is why the update scan must skip the activity itself |
| `Activities.AdjacentDoNotOverlap` | src/types/modelTypes/activityType.ts:11 | an activity that ends when another starts does not conflict with it |
| `Sorting.Sort` | src/models/routineModel.ts:50-52 | the sorted array is a permutation of the input: same multiset, same length |
| `Sorting.SortSorted` | src/models/routineModel.ts:50-52 | for any total preorder, the result is ordered by it |
| `Sorting.SortOfSorted` | src/models/routineModel.ts:50-52 | an already ordered array comes back unchanged |
| `Sorting.SortStable` | src/models/routineModel.ts:50-52 | elements that compare equal keep their relative order, as the stable `Array.prototype.sort` does |
| `Sorting.SortPairwise` | src/controllers/statController.ts:277-279 | a property that holds between every two elements at different positions, such as "the keys differ", still holds after sorting |
| `RoutineModel.NewRoutine` | src/models/routineModel.ts:7-45 | a new routine has the schema defaults: counter 0 and all seven days empty |
| `RoutineModel.StartLeIsTotalPreorder` | src/models/routineModel.ts:50-52 | comparing activities by `startTime` is a total preorder, so the hook's sort is well defined |
| `RoutineModel.WithSortedDaysGet` | src/models/routineModel.ts:47-57 | after the hook, each day holds that day's activities sorted by start time |
| `RoutineModel.WithSortedDaysSpec` | src/models/routineModel.ts:47-57 | after the hook, every day is sorted and is a permutation of the day before it; id, owner and counter are unchanged |
| `RoutineModel.SortByStartIsStable` | src/models/routineModel.ts:50-52 | activities with the same start time keep their order through the hook |
| `RoutineModel.WithSortedDaysOfSorted` | src/models/routineModel.ts:47-57 | saving a routine whose days are already sorted changes nothing, so the hook is idempotent |
| `RoutineModel.SortByStartKeepsTimes` | src/models/routineModel.ts:50-52 | sorting keeps every stored time valid |
| `RoutineModel.SortByStartKeepsNoConflicts` | src/models/routineModel.ts:50-52 | sorting keeps a conflict-free day conflict-free |
| `RoutineModel.SortByStartKeepsUniqueIds` | src/models/routineModel.ts:50-52 | sorting keeps the ids of a day distinct |
| `RoutineModel.UniqueIdsAppend` | src/helpers/routineControllerHelper.ts:43-62 | pushing an activity with a freshly minted id keeps the ids of the day distinct |
| `RoutineModel.UniqueIdsReplace` | src/helpers/routineControllerHelper.ts:93-118 | overwriting an activity with a merged one of the same id keeps the ids of the day distinct |
| `RoutineModel.PreSave` | src/models/routineModel.ts:47-57 | the loop over the seven days yields exactly the routine with every day sorted by start time |
| `Store.RoutineOrNew` | src/helpers/routineControllerHelper.ts:33-41 | the owner's routine when there is one, otherwise a new routine with the defaults |
| `Store.Save` | src/models/routineModel.ts:47-57 | saving stores the hook-sorted routine under its owner and changes nothing else; the store invariant (owners, sorted days, valid times, distinct ids within a day, document ids) still holds |
| `Store.PutDocument` | src/helpers/routineControllerHelper.ts:66 | the activity document is written under its own id; routines and archive are unchanged and the store invariant holds |
| `RoutineService.IsValidTimeFormat` | src/services/routineService.ts:8-12 | succeeds exactly on valid `HH:mm` strings; otherwise 400 "Time must be in HH:mm format!" |
| `RoutineService.IsValidDay` | src/services/routineService.ts:14-16 | true exactly when the string names a day |
| `RoutineService.IsValidCategory` | src/services/routineService.ts:18-20 | true exactly when the category is one of the enumeration |
| `RoutineService.ValidateActivityTimes` | src/services/routineService.ts:22-25 | succeeds exactly when both times are valid `HH:mm` strings; otherwise 400 |
| `RoutineService.ValidateActivityTimesAllowsReversedInterval` | src/services/routineService.ts:22-25 | the time check does not compare the two times: an end before the start passes |
| `RoutineService.ValidateActivityFields` | src/services/routineService.ts:27-42 | succeeds exactly when a body is present with non-empty start, end, name and category and the category is known; a missing field gives the "All fields" 400 and an unknown category the "Invalid category" 400 |
| `Filter.FilterObj` | src/utils/filter.ts:5-11 | the result holds exactly the keys of the object that are allowed, each with its original value |
| `Filter.FilterObjIdempotent` | src/utils/filter.ts:5-11 | filtering twice is filtering once |
| `Filter.FilterObjNothingAllowed` | src/utils/filter.ts:5-11 | with no allowed field the result is empty |
| `Filter.FilterObjError` | src/utils/filter.ts:13-15 | the error is a 400 with the given message |
| `RoutineHelper.CalculateDuration` | src/helpers/routineControllerHelper.ts:10-19 | succeeds exactly when the end is after the start, with the number of minutes between them (1 to 1439), so start plus duration is end; otherwise the error the helper throws, which surfaces as 500 |
| `RoutineHelper.CalculateDurationExamples` | src/helpers/routineControllerHelper.ts:10-19 | 07:00–07:30 gives 30 and 07:00–08:00 gives 60; equal times are refused |
| `RoutineHelper.GetRoutineForUserOnDay` | src/helpers/routineControllerHelper.ts:21-30 | succeeds exactly when the user has a routine with a non-empty day, returning that day; otherwise 404 "No activity found for <day>!" |
| `RoutineHelper.FirstIndex` | src/helpers/routineControllerHelper.ts:80-82 | the position of the first activity with the id, or none when no activity of the day has it |
| `RoutineHelper.FindIndex` | src/helpers/routineControllerHelper.ts:80-82 | the loop returns the first matching position, or -1 when the id is absent |
| `RoutineHelper.ScanForConflict` | src/helpers/routineControllerHelper.ts:107-116 | the loop reports a clash exactly when some activity of the day, other than the one being updated, conflicts with the new times |
| `RoutineHelper.BuildActivity` | src/helpers/routineControllerHelper.ts:43-54 | the new activity takes the given id, the caller as user and the routine's id, and copies times, duration (verbatim, not recomputed), name, category, completion flag and colour from the body |
| `RoutineHelper.AddActivitySpec` | src/helpers/routineControllerHelper.ts:62-63 | the push adds exactly the new activity to the day, raises the counter by one, keeps every day sorted after the save, and leaves other days, id and owner alone |
| `RoutineHelper.FirstInsertCountsOne` | src/helpers/routineControllerHelper.ts:35-63 | the first activity of a newly created routine is its only activity that day and brings the counter to 1 |
| `RoutineHelper.AddActivityKeepsNoConflicts` | src/helpers/routineControllerHelper.ts:56-63 | when the scan finds no clash, a conflict-free day stays conflict-free after the push |
| `RoutineHelper.CreatedRoutineOutcome` | src/helpers/routineControllerHelper.ts:35-60 | a routine created on the way has an empty day, so the insert's outcome is the same whether or not the creation is counted as part of the call |
| `RoutineHelper.InsertKeepsNoConflicts` | src/helpers/routineControllerHelper.ts:56-65 | given a symmetric conflict test, an insert into a stored routine whose day is conflict-free leaves that day conflict-free, whether it is rejected with 400 or saved |
| `RoutineHelper.CreateKeepsNoConflicts` | src/helpers/routineControllerHelper.ts:33-65 | the same across the lazy creation: a day that was conflict-free, or a routine that did not exist, ends with a conflict-free day under the owner |
| `RoutineHelper.InsertActivity` | src/helpers/routineControllerHelper.ts:56-66 | on a clash: 400 and both collections unchanged; otherwise the routine gains the activity (saved sorted) and the activities collection stores it |
| `RoutineHelper.LoadOrCreateRoutine` | src/helpers/routineControllerHelper.ts:33-41 | returns the existing routine or creates and stores one with the defaults; its days are sorted and its times valid |
| `RoutineHelper.CommitInsert` | src/helpers/routineControllerHelper.ts:62-66 | the routine is saved under its owner with the activity pushed onto the day, the counter one higher and the days sorted; the activity document is stored under its id; the store invariant still holds |
| `RoutineHelper.CreateActivity` | src/helpers/routineControllerHelper.ts:32-69 | the whole create with a fresh activity id: lazy routine creation, the activity built from the body, the conflict scan, and the insert with its outcome (400 and nothing changed on a clash, else the routine and the document gain the activity); with a symmetric conflict test, a conflict-free day stays conflict-free |
| `RoutineHelper.Pick` | src/helpers/routineControllerHelper.ts:97-103 | a patch value is used exactly when it is present and non-empty; otherwise the current one is kept |
| `RoutineHelper.MergePatch` | src/helpers/routineControllerHelper.ts:86-105 | fails exactly when the patch names a time and the merged interval is not positive (the duration error); a merged result has valid times |
| `RoutineHelper.MergePatchSpec` | src/helpers/routineControllerHelper.ts:93-105 | the merge keeps id and completion flag, takes owner and routine id from the routine, takes each field from the patch exactly when it is truthy, and recomputes the duration only when a time was patched |
| `RoutineHelper.ReplaceActivitySpec` | src/helpers/routineControllerHelper.ts:118 | replacing position `k` swaps exactly that activity in the day's multiset, keeps the length, counter, id and owner, keeps days sorted after the save and leaves other days alone |
| `RoutineHelper.ReplaceActivityKeepsNoConflicts` | src/helpers/routineControllerHelper.ts:107-118 | when the scan (skipping the activity's own id) finds no clash, replacing it keeps a conflict-free day with unique ids conflict-free |
| `RoutineHelper.UpdateWithoutTimesNeverClashes` | src/helpers/routineControllerHelper.ts:86-116 | a patch that names no time always merges and never clashes in a conflict-free day with unique ids |
| `RoutineHelper.CommitReplace` | src/helpers/routineControllerHelper.ts:118-123 | the merged activity takes the found position of the day, its own document becomes the value the caller gives (only when one exists), the routine is saved sorted under its owner, and the store invariant (owners, sorted days, valid times, document ids) still holds |
| `RoutineHelper.UpdateActivity` | src/helpers/routineControllerHelper.ts:71-126 | 404 without a routine or without the id in the day; the duration error for a non-positive patched interval; 400 on a clash; otherwise the activity is replaced in place and in its own document; every failure leaves both collections unchanged; with a symmetric conflict test, a conflict-free day stays conflict-free |
| `ActivityHelper.LegacyGetRoutineForUserOnDay` | src/helpers/activityControllerHelper.ts:10-19 | the older day lookup answers exactly as the current one does |
| `ActivityHelper.BuildLegacyActivity` | src/helpers/activityControllerHelper.ts:32-40 | the older helper copies times, name, category and colour, and sets no user, duration or completion flag |
| `ActivityHelper.LegacyCreateActivity` | src/helpers/activityControllerHelper.ts:21-55 | the same lazy creation, conflict scan and insert outcome as the current helper, for the older activity shape and a fresh id; with a symmetric conflict test, a conflict-free day stays conflict-free |
| `ActivityHelper.LegacyMerge` | src/helpers/activityControllerHelper.ts:72-81 | the older merge keeps the id, takes the routine id, takes each updatable field from the patch exactly when it is truthy, and never computes a duration |
| `ActivityHelper.SetFields` | src/helpers/activityControllerHelper.ts:96-98 | the older update's document write sets the routine link, both times, activity, category and color from the merged value and keeps the document's id, owner, duration and completion flag |
| `ActivityHelper.SetFieldsIsReplacement` | src/helpers/activityControllerHelper.ts:94-98 | the document write equals the whole replacement done on the routine's embedded copy exactly when the document already has the merged value's id, owner, duration and completion flag |
| `ActivityHelper.LegacyMergeAcceptsReversedInterval` | src/helpers/activityControllerHelper.ts:72-81 | the older merge accepts an end time before the start time |
| `ActivityHelper.LegacyUpdateActivity` | src/helpers/activityControllerHelper.ts:57-102 | 404 without a routine, 404 "Activity not found!" without the id, 400 on a clash, otherwise the merged activity replaces the old one in the routine's day while the activity's own document, when there is one, only has the merged fields set on it (owner, duration and completion flag kept); failures change nothing; with a symmetric conflict test, a conflict-free day stays conflict-free |
| `RoutineController.GetMyRoutines` | src/controllers/routineController.ts:25-33 | the caller's routine exactly when it exists and its counter is non-zero; otherwise 404 "Routines not found!" |
| `RoutineController.RoutinesFoundAfterCreate` | src/controllers/routineController.ts:25-33 | after a successful create, the caller's routines are found |
| `RoutineController.GetMyActivities` | src/controllers/routineController.ts:35-50 | the day's activities and their count exactly when the caller has a routine with a non-empty day; otherwise 404 for the day |
| `RoutineController.GetMyActivity` | src/controllers/routineController.ts:68-81 | 404 for the day without a routine, 404 "Activity not found!" when no activity of the day has the id, otherwise the first activity with that id |
| `RoutineController.GetUserActivityByDayAndID` | src/controllers/routineController.ts:190-205 | the helper's 404s for a missing routine or an empty day, otherwise the first activity with the id |
| `RoutineController.AdminAndOwnerLookupsAgree` | src/controllers/routineController.ts:190-205 | the administrator's lookup succeeds exactly when the owner's lookup does, and then finds the same activity |
| `RoutineController.CreateMyActivity` | src/controllers/routineController.ts:52-66 | field or category errors and time-format errors leave the collections unchanged; otherwise the helper's create; a created activity has a known category and valid times |
| `RoutineController.ValidatePatch` | src/controllers/routineController.ts:85-103 | succeeds exactly when the filtered body is non-empty, any truthy category is known and any truthy time is valid, returning the filtered body; the empty-body 400, the category 400, and the 400 "Time must be in HH:mm format!" for an invalid patched time, as in the handler |
| `RoutineController.UpdateMyActivity` | src/controllers/routineController.ts:83-114 | a rejected body changes nothing; otherwise the helper's update outcome with the filtered patch |
| `RoutineController.RemoveAt` | src/controllers/routineController.ts:131 | `splice(k, 1)`: the elements before `k` stay, the later ones shift down by one, and exactly one copy of the element at `k` leaves the multiset |
| `RoutineController.RemoveAtKeepsSorted` | src/controllers/routineController.ts:131 | removing one activity keeps a sorted day sorted |
| `RoutineController.RemoveAtKeepsNoConflicts` | src/controllers/routineController.ts:131 | removing one activity keeps a conflict-free day conflict-free |
| `RoutineController.RemoveAtKeepsUniqueIds` | src/controllers/routineController.ts:131 | removing one activity keeps the ids of the day distinct |
| `RoutineController.RemovedIdIsGone` | src/controllers/routineController.ts:122-131 | with unique ids, the removed id is no longer in the day, so a second delete answers 404 |
| `RoutineController.WithoutActivity` | src/controllers/routineController.ts:131-134 | the routine after a delete is the day without that position, with the counter not decremented and other days unchanged |
| `RoutineController.SpliceActivity` | src/controllers/routineController.ts:131-134 | the routine is stored without the activity and the activity's own document is deleted; nothing else changes |
| `RoutineController.DeleteMyActivity` | src/controllers/routineController.ts:116-141 | 404 for the day without a routine or without the id; otherwise the first activity with the id is spliced out and its document deleted; failures change nothing |
| `RoutineController.DeleteUserActivityByDayAndID` | src/controllers/routineController.ts:257-283 | the same delete for the named user, answering 404 "Activity not found!" when the id is absent |
| `ActivityController.OwnedActivity` | src/controllers/activityController.ts:10-15 | 404 when the activity does not exist, 403 when its user is not the caller, otherwise the activity |
| `ActivityController.ArchiveRecord` | src/controllers/activityController.ts:20-25 | the archive record carries the activity's id, name, duration and category |
| `ActivityController.CountForAppend` | src/controllers/activityController.ts:20-25 | appending a record raises the count for its activity by one and leaves other counts alone |
| `ActivityController.RemoveFirst` | src/controllers/activityController.ts:49 | deleting one record never lengthens the archive |
| `ActivityController.RemoveFirstAbsent` | src/controllers/activityController.ts:49 | with no record for the activity, the archive is unchanged |
| `ActivityController.RemoveFirstRemovesOne` | src/controllers/activityController.ts:49 | with a record for the activity, exactly one record for it is removed |
| `ActivityController.RemoveFirstIsFirst` | src/controllers/activityController.ts:49 | the record removed is the first one for the activity |
| `ActivityController.RemoveFirstKeepsOthers` | src/controllers/activityController.ts:49 | records of other activities are untouched |
| `ActivityController.MarkThenUnmarkRestoresArchive` | src/controllers/activityController.ts:8-58 | marking and then unmarking an activity that had no record leaves the archive as it was |
| `ActivityController.AddMyActivityMark` | src/controllers/activityController.ts:8-34 | guard errors change nothing; otherwise the activity's flag becomes true and one archive record for it is appended |
| `ActivityController.DeleteMyActivityMark` | src/controllers/activityController.ts:36-58 | guard errors change nothing; otherwise the flag becomes false and the first archive record for the activity is deleted |
| `ResetJob.ZoneOf` | src/cronJobs/resetCompletedActivities.ts:12 | the user's stored zone when set, otherwise UTC |
| `ResetJob.ResetFor` | src/cronJobs/resetCompletedActivities.ts:16 | the bulk update clears the flag of every activity the user owns and changes no other activity and no other field |
| `ResetJob.ResetIdempotent` | src/cronJobs/resetCompletedActivities.ts:16 | resetting a user twice is resetting once |
| `ResetJob.TickEffect` | src/cronJobs/resetCompletedActivities.ts:11-19 | a whole tick clears the flag exactly of the activities whose owner's clock reads 00:00, whatever the visiting order, and adds or removes nothing |
| `ResetJob.TickOnlyClearsCompletion` | src/cronJobs/resetCompletedActivities.ts:11-19 | a tick touches no field other than the completion flag |
| `ResetJob.TickOutsideMidnight` | src/cronJobs/resetCompletedActivities.ts:15 | when no user's clock reads 00:00 the collection is unchanged |
| `ResetJob.TickIdempotent` | src/cronJobs/resetCompletedActivities.ts:8-20 | running the callback twice at the same instant is running it once |
| `ResetJob.Tick` | src/cronJobs/resetCompletedActivities.ts:7-21 | the loop over users leaves the activities as the tick specification says and leaves routines and archive alone |
| `Pagination.CeilDiv` | src/utils/aggregatePagination.ts:28 | the page count is the least number of pages of `limit` items that hold every item, and zero exactly when there are no items |
| `Pagination.Window` | src/utils/aggregatePagination.ts:32-36 | `$skip` then `$limit`: at most `limit` items, exactly the items from position `skip` on, empty past the end |
| `Pagination.AggregatePagination` | src/utils/aggregatePagination.ts:12-44 | 400 for a page or limit that is not positive, 404 past the last page, otherwise the window at `(page-1)*limit`, the page count, the page and the item count |
| `Pagination.EmptyIs404` | src/utils/aggregatePagination.ts:27-30 | an empty list answers 404 on every valid page |
| `Pagination.EveryItemOnItsPage` | src/utils/aggregatePagination.ts:20-36 | every item is answered on page `i / limit + 1` at position `i % limit` |
| `Pagination.Paginate` | src/utils/paginateHelper.ts:11-44 | 400 for a page or limit that is not positive; an answered page is non-empty, at most `limit` long, and reports the requested page |
| `Pagination.PaginateMatchesAggregate` | src/utils/paginateHelper.ts:17-42 | the older helper answers exactly when the newer one does, with the same error, results, page count and page, but without a total |
| `Pagination.OrDefault` | src/controllers/statController.ts:224-225 | the unary-plus-or-default idiom: a missing, unparseable or zero parameter becomes the default; any other number is kept, negatives included |
| `Pagination.GetPaginationParams` | src/services/feedbackTicketService.ts:3-8 | page and limit default to 1 and 10 and are never zero; skip is `(page-1)*limit` for any page and limit, negatives included, so it is non-negative for a positive page and limit and 0 on page 1 |
| `Pagination.GetPaginationParamsDefaults` | src/services/feedbackTicketService.ts:3-8 | with no parameters the result is page 1, limit 10, skip 0 |
| `Pagination.GetPaginationParamsAcceptsNegative` | src/services/feedbackTicketService.ts:4-6 | a negative page is passed through and gives a negative skip |
| `ApiFeatures.ApiFeatures.constructor` | src/utils/apiFeatures.ts:12-21 | the object holds the query, page and limit it was built from |
| `ApiFeatures.ApiFeatures.Paginate` | src/utils/apiFeatures.ts:23-39 | narrows the query to its window and answers the page computed from the collection count |
| `ApiFeatures.FeaturesPage` | src/utils/apiFeatures.ts:23-39 | 404 exactly when the page is past the last page of the whole collection; otherwise the window of the query with the collection's page count and total |
| `ApiFeatures.FeaturesPageOnWholeCollection` | src/utils/apiFeatures.ts:33-36 | when the query is the whole collection, the class answers as `aggregatePagination` does |
| `ApiFeatures.EmptyQueryPage` | src/utils/apiFeatures.ts:32-38 | an empty query has only empty pages: every answered page has no results |
| `ApiFeatures.FeaturesPageEmptyQuery` | src/utils/apiFeatures.ts:32-38 | a filtered query with no match still answers page 1 with empty results when the collection is non-empty |
| `ApiFeatures.NewApiFeatures` | src/utils/apiFeatures.ts:12-21 | 400 exactly when the defaulted page or limit is not positive; otherwise a fresh object with those values |
| `ApiFeatures.OnlyNegativesRefused` | src/utils/apiFeatures.ts:16-20 | after the defaults, only an explicitly negative page or limit is refused |
| `FeedbackTickets.FindTicket` | src/controllers/feedbackTicketController.ts:89-90 | the position of the first ticket with the id, or none exactly when no ticket has it |
| `FeedbackTickets.CreateFeedbackTicket` | src/controllers/feedbackTicketController.ts:37-56 | 400 for a type other than feedback or ticket, the validation error for an empty title or message, otherwise one unsolved ticket of the caller appended; errors change nothing |
| `FeedbackTickets.WithSolved` | src/controllers/feedbackTicketController.ts:94-98 | only the solved flag of the one document changes |
| `FeedbackTickets.WithSolvedIdempotent` | src/controllers/feedbackTicketController.ts:94-98 | setting the flag twice is setting it once |
| `FeedbackTickets.CloseThenReopenRestores` | src/controllers/feedbackTicketController.ts:85-127 | closing and then reopening an open ticket restores the collection |
| `FeedbackTickets.SetSolved` | src/controllers/feedbackTicketController.ts:89-98 | 404 for an unknown id, 400 for a feedback document, otherwise the flag is set; errors change nothing |
| `FeedbackTickets.MarkTicketAsClosed` | src/controllers/feedbackTicketController.ts:85-105 | the guards, then `isSolved` true, answering the updated ticket |
| `FeedbackTickets.MarkTicketAsUnclosed` | src/controllers/feedbackTicketController.ts:107-127 | the guards, then `isSolved` false, answering the updated ticket |
| `FeedbackTickets.OfUserAndKind` | src/controllers/feedbackTicketController.ts:13 | exactly the caller's documents of the kind, each from the collection |
| `FeedbackTickets.OfUserAndKindAppend` | src/controllers/feedbackTicketController.ts:13 | the query distributes over concatenation, so it keeps collection order |
| `FeedbackTickets.OfUserAndKindSingle` | src/controllers/feedbackTicketController.ts:13 | one document is kept exactly when it is the caller's and of the kind |
| `FeedbackTickets.CountKind` | src/controllers/feedbackTicketController.ts:20 | the count of documents of a kind is at most the collection size |
| `FeedbackTickets.CountKindAppend` | src/controllers/feedbackTicketController.ts:20 | the count distributes over concatenation |
| `FeedbackTickets.CountKindSnoc` | src/controllers/feedbackTicketController.ts:20 | one more document adds one to the count exactly when it is of the kind |
| `FeedbackTickets.MyTickets` | src/controllers/feedbackTicketController.ts:9-35 | 400 for a non-positive page or limit; 404 "page not found" past the last page of the whole collection; 404 "No tickets found" when the window of the caller's tickets at `(page-1)*limit` is empty; an answer exactly in the remaining case, holding that window, with the page count over the whole collection and every user's ticket count as the total |
| `FeedbackTickets.GetMyTickets` | src/controllers/feedbackTicketController.ts:9-35 | the handler answers as the specification function does |
| `FeedbackTickets.NoOwnTicketsIs404` | src/controllers/feedbackTicketController.ts:22-23 | a caller without tickets gets 404 on every valid page |
| `FeedbackTickets.NoneOfUser` | src/controllers/feedbackTicketController.ts:13 | with no document of the caller and kind, the filtered list is empty |
| `FeedbackTickets.TotalCountsEveryone` | src/controllers/feedbackTicketController.ts:20 | the reported total includes other users' tickets: one ticket of the caller and one of another user give a total of two |
| `Grouping.Keys` | src/controllers/statController.ts:147-154 | the group keys are distinct, no more than the items, each the key of some item, and every item's key is among them |
| `Grouping.CountOf` | src/controllers/statController.ts:152 | a group's `$sum: 1` is at most the number of items |
| `Grouping.GroupsFor` | src/controllers/statController.ts:147-154 | one group per key, each with its key, count and sum |
| `Grouping.GroupBy` | src/controllers/statController.ts:147-154 | there are no more groups than items |
| `Grouping.AbsentKeyIsZero` | src/controllers/statController.ts:147-154 | a key no item has counts and sums to zero |
| `Grouping.GroupsAddUp` | src/controllers/statController.ts:147-154 | the groups' counts add up to the number of items and their sums to the total weight |
| `StatController.DurationDescIsTotalPreorder` | src/controllers/statController.ts:119-125 | descending duration is a total preorder |
| `StatController.CategoryDurations` | src/controllers/statController.ts:101-106 | one `{categoryName, duration}` per group, in group order |
| `StatController.DayStatFor` | src/controllers/statController.ts:87-125 | the statistic built for a day is labelled with that day |
| `StatController.GetDayStats` | src/controllers/statController.ts:59-143 | 404 "No activities found!" on failure; an answer is non-empty |
| `StatController.DayTotalCountsActivities` | src/controllers/statController.ts:87-100 | a day's `totalActivities` is the number of activities of that day across all routines |
| `StatController.DayCategoriesSpec` | src/controllers/statController.ts:87-125 | a day's categories are sorted by duration descending, every category of the day appears with its summed duration, and every entry names a category of the day with that sum |
| `StatController.ActiveDaysMember` | src/controllers/statController.ts:81-99 | a day appears exactly when some routine has an activity on it |
| `StatController.ActiveDaysOrdered` | src/controllers/statController.ts:109-128 | the days come out in Monday-first order |
| `StatController.GetDayStatsErrIff` | src/controllers/statController.ts:131 | the 404 is answered exactly when no routine has any activity on any day |
| `StatController.GetDayStatsDays` | src/controllers/statController.ts:109-128 | the answered days are in strictly increasing week order, and a day appears exactly when it has activities |
| `StatController.GetDayStatsEntries` | src/controllers/statController.ts:87-128 | each answered entry is the statistic of its day, whose total is that day's activity count |
| `StatController.TotalDurationDescIsTotalPreorder` | src/controllers/statController.ts:172-174 | descending total duration is a total preorder |
| `StatController.CategoryStats` | src/controllers/statController.ts:155-160 | one `{categoryName, totalDuration, totalActivity}` per group, in group order |
| `StatController.GetActivityStats` | src/controllers/statController.ts:145-188 | 404 "No activities found!" exactly when there are no activities |
| `StatController.ActivityStatsSorted` | src/controllers/statController.ts:172-174 | the categories are sorted by total duration, descending |
| `StatController.ActivityStatsComplete` | src/controllers/statController.ts:147-154 | every activity's category appears with its count and summed duration |
| `StatController.ActivityStatsSound` | src/controllers/statController.ts:147-160 | every entry's count and duration are those of its category, and some activity has that category |
| `StatController.GendersOf` | src/controllers/statController.ts:203-210 | the `$push` list holds exactly the gender counts of the pairs with that nationality |
| `StatController.SecondStage` | src/controllers/statController.ts:202-213 | one group per nationality, with its pushed genders and its total |
| `StatController.TotalIsSumOfCounts` | src/controllers/statController.ts:211 | a nationality's `total` is the sum of its pushed gender counts |
| `StatController.GendersOfDistinct` | src/controllers/statController.ts:203-210 | when the first stage's keys are distinct, no gender is pushed twice for a nationality |
| `StatController.NationalityGroupsIds` | src/controllers/statController.ts:192-213 | the nationality groups have distinct ids, and every user's nationality has a group |
| `StatController.NationalityGroupOfSomeUser` | src/controllers/statController.ts:192-213 | every group's nationality is that of some user |
| `StatController.NationalityGroupAt` | src/controllers/statController.ts:192-213 | a group's total is the sum of its gender counts, its genders are distinct, and each count is the number of users with that nationality and gender |
| `StatController.BaseRecord` | src/controllers/statController.ts:236-241 | a fresh record has exactly the keys total, male, female and none |
| `StatController.FillGendersKeys` | src/controllers/statController.ts:243-245 | filling adds exactly the keys of the pushed genders |
| `StatController.FillSpecKeys` | src/controllers/statController.ts:235-246 | the result object has exactly one key per nationality of the page |
| `StatController.FillNationalityStats` | src/controllers/statController.ts:230-246 | the nested loops build exactly the specified nationality-to-record object |
| `StatController.FillGendersLast` | src/controllers/statController.ts:243-245 | the last count pushed for a gender is the one kept |
| `StatController.FillGendersKeeps` | src/controllers/statController.ts:243-245 | a key no pushed gender names keeps its initial value |
| `StatController.GenderKeyInjective` | src/controllers/statController.ts:244 | two genders give the same record key exactly when they are the same gender |
| `StatController.RecordTotal` | src/controllers/statController.ts:236-241 | a record's total is the group's total |
| `StatController.RecordHoldsPushed` | src/controllers/statController.ts:243-245 | a pushed gender's record entry is its count |
| `StatController.RecordKeepsUnpushed` | src/controllers/statController.ts:236-241 | a gender not pushed stays at 0 |
| `StatController.NationalityRecordCounts` | src/controllers/statController.ts:190-246 | in the answer, a nationality's total is its number of users and each gender entry is the number of users of that nationality and gender |
| `StatController.UnpushedGenderIsZero` | src/controllers/statController.ts:192-213 | a gender missing from a group has no user of that nationality |
| `StatController.FillSpecAt` | src/controllers/statController.ts:235-246 | each group's nationality maps to the group's record |
| `StatController.FillSpecSize` | src/controllers/statController.ts:252 | the answer has at most one key per group of the page |
| `StatController.FillSpecSizeDistinct` | src/controllers/statController.ts:252 | with distinct nationality keys the answer has exactly one key per group |
| `StatController.GetNationalityStats` | src/controllers/statController.ts:190-259 | an error exactly when the page or limit is not positive or the page is past the last; otherwise the filled object for the page, with a non-empty key count no larger than the page, and the number of nationalities as the total |
| `StatController.YearProjection` | src/controllers/statController.ts:270-275 | one `{year, userCount}` per group, in group order |
| `StatController.YearAscIsTotalPreorder` | src/controllers/statController.ts:277-279 | ascending year is a total preorder |
| `StatController.BirthdateStats` | src/controllers/statController.ts:263-280 | one entry per distinct birth year |
| `StatController.BirthdateStatsOrdered` | src/controllers/statController.ts:277-279 | the years come out strictly increasing |
| `StatController.BirthdateStatsCounts` | src/controllers/statController.ts:263-268 | every user's year appears with its count, and every entry's count is the number of users born that year, of whom there is at least one |
| `StatController.RegistrationOrderIsTotalPreorder` | src/controllers/statController.ts:321-323 | year ascending, then month descending, is a total preorder |
| `StatController.RegistrationGroups` | src/controllers/statController.ts:311-324 | one group per distinct registration year and month |
| `StatController.Flatten` | src/controllers/statController.ts:340-344 | one `{year, month, userCount}` per group, in group order |
| `StatController.RegistrationGroupsOrdered` | src/controllers/statController.ts:321-323 | the groups come out by year ascending and, within a year, by month strictly descending |
| `StatController.RegistrationGroupsCounts` | src/controllers/statController.ts:312-319 | every user's month appears with its count, and every group's count is the number of users who registered that month, of whom there is at least one |
| `StatController.PagedList` | src/controllers/statController.ts:282-294 | 400 for a page or limit that is not positive, 404 past the last page, otherwise the entries at positions `(page-1)*limit` onward, non-empty and at most `limit` of them, with the page count `ceil(n/limit)` and the list length as the total |
| `StatController.GetUserBirthdateStats` | src/controllers/statController.ts:261-307 | an error exactly when the page or limit is not positive (400) or the page is past the last (404); an answer reports the page, the page count `ceil(n/limit)` over the distinct birth years, their number as the total, and a non-empty page of at most `limit` entries |
| `StatController.BirthdatePage` | src/controllers/statController.ts:261-307 | an answered page is exactly the window of the year-sorted birth-year counts at `(page-1)*limit`, at most `limit` long |
| `StatController.GetUserRegistrationStats` | src/controllers/statController.ts:309-357 | an error exactly when the page or limit is not positive (400) or the page is past the last (404) |
| `StatController.RegistrationPage` | src/controllers/statController.ts:326-344 | an answered page holds, flattened and in order, the groups at its positions, with the number of distinct months as the total and the page count as that number divided by the limit, rounded up |
| `StatsController.LegacyGetNationalityStats` | src/controllers/statsController.ts:148-218 | grouping by the raw nationality, an error exactly when the page or limit is not positive or the page is past the last; otherwise the filled object for the page, without a total |
| `StatsController.RawNationalityNeverMissing` | src/controllers/statsController.ts:155-161 | grouping by the stored nationality string never yields a missing nationality |
| `StatsController.LegacyPagedList` | src/controllers/statsController.ts:244-255 | the same page as the newer list, answered exactly in the same cases, with the page count `ceil(n/limit)` but without a total |
| `StatsController.LegacyGetUserBirthdateStats` | src/controllers/statsController.ts:220-267 | an error exactly when the page or limit is not positive (400) or the page is past the last page of distinct birth years (404); an answer reports the page, the page count and a non-empty page of at most `limit` entries |
| `StatsController.LegacyBirthdatePage` | src/controllers/statsController.ts:220-267 | an answered page of the older controller is exactly the window of the year-sorted birth-year counts at `(page-1)*limit`, at most `limit` long |
| `StatsController.LegacyGetUserRegistrationStats` | src/controllers/statsController.ts:269-315 | an error exactly when the page or limit is not positive (400) or the page is past the last (404); an answer reports the page and the page count over the registration groups, and is non-empty and at most `limit` long |
| `StatsController.LegacyRegistrationPage` | src/controllers/statsController.ts:269-315 | an answered page of the older controller is exactly the flattened window of the sorted registration groups at `(page-1)*limit` |
| `StatsController.PageZeroDiffers` | src/controllers/statsController.ts:251-252 | a zero page is refused by the older controller with 400, while the newer one reads it as page 1 and answers whenever there is a user |
| `StatsController.BirthdatePagesAgree` | src/controllers/statsController.ts:244-265 | for a positive page and limit, both controllers answer in the same cases with the same birth-year entries |

## Left out

- **Database I/O and atomicity.** The model performs a handler's writes as
  one step. It does not model:
  - database I/O;
  - `await` and concurrency;
  - the non-atomic sequence of `save` and `findByIdAndUpdate` calls.
- **Owner field name.** Routines are looked up by the key `userId`, while the
  schema's owner field is `user`. The model keys routines by owner and does
  not model a lookup that finds nothing for that reason.
- **The reset job's owner field.** It filters activities on `{ user }`, while
  activities store `userId`. That owner field is a parameter `ownerField`.
- **Reset job scheduling.** `node-cron` and `moment.tz` are left out. The
  local time of a zone is a parameter.
- **Logging.** `console.log` calls are left out.
- **Request plumbing.** These are left out:
  - authentication and `req.user`;
  - the Express wiring and middlewares, including XSS sanitising and the id
    validators;
  - e-mail;
  - the JSON envelope (`status: 'success'`).
- **Day validation.** The routes do not run `validateDay`. The model takes
  the day as an already parsed `Day`.
- **Conflict test.** The body of `isTimeConflict` belongs to the activity
  schema, which is not part of this model. It is a parameter.
  `Activities.Overlaps` is the intended instance.
- **Floating-point values.**
  - `durationPerActivity` of the category statistics (a rounded float) is
    left out.
  - Durations are whole minutes.
- **`getSummaryStats`.** It is empty in `statsController`. In
  `statController` it only counts documents and uses `Date` arithmetic for
  "today".
- **Administrator listings.** `getAllRoutines` and `getUserRoutines`
  (`routineController.ts:144-174`) are left out, as are `getTickets` and
  `getFeedbacks` (`feedbackTicketController.ts:59-83` and `129-157`).
  - `getAllRoutines`, `getTickets` and `getFeedbacks` each page one query
    through `APIFeatures`, which is modelled.
  - `getUserRoutines` is a plain `find` with a 404 when nothing is found.
- **Missing query parameters in the older controller.** It uses
  `+x ?? d`, which yields `NaN` for a missing parameter. The older handlers
  take page and limit as integers, so a missing parameter is not modelled.
- **Page and limit parsing.** Values such as `"abc"` or `"2.5"` are not
  parsed. An absent or unparseable parameter is `None`.
- **Mongoose validation messages.** For a missing ticket title or message
  they are represented by the schema's own text, with status 500.
- **Archive deletion order.** The code's `findOneAndDelete({activityId})`
  removes the first matching record in insertion order. The model follows
  it (`ActivityController.RemoveFirst`).
- **Completion marks and routines.** Marks change the activity document
  only. The copy embedded in the routine keeps its flag, as in the code.
- **`$group` output order.**
  - It is unspecified in MongoDB. The model emits groups in order of first
    appearance.
  - Ties in `$sort` and `$sortArray` keep that order.
- **Nationality key.** `statController` groups by
  `nationality.countryName`, while the user schema stores `nationality` as
  a string. The country name is kept as an `Option` field of the user.
- **Missing-field record keys.** A missing nationality renders as the record
  key `"null"`. A missing gender renders as `"undefined"`. These are the
  JavaScript property keys of those values.
- RoutineHelper.UpdateActivity: requires that every patched time is a
  valid `HH:mm` string. The controllers check this before calling the
  helper (`routineController.ts:102-103`).
- ActivityHelper.LegacyCreateActivity: requires valid start and end times,
  although `activityControllerHelper.ts:21-55` never validates them. No file
  of the service imports that helper, so no controller checks the times
  either. The model assumes valid times only so that the store keeps its
  invariant that every stored time is a valid `HH:mm` string. A call with an
  invalid time is not modelled.
- ActivityHelper.LegacyUpdateActivity: requires valid patched times,
  although `activityControllerHelper.ts:57-102` never validates them and the
  helper has no caller. As for the create, the assumption only keeps the
  store invariant. A patch with an invalid time is not modelled.
- RoutineHelper.CreateActivity: requires a fresh `activityId`, one that no
  activity document and no day of any routine holds. The code gets a new
  ObjectId from the database at this point. The same holds for
  `ActivityHelper.LegacyCreateActivity` and
  `RoutineController.CreateMyActivity`.
