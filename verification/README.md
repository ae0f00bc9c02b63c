# Verification of the travel database

The server keeps users, locations and visits in memory and answers two queries over them: the
average mark of a location and the list of visits of a user. There are two stores behind one
interface. `DataStorageNew`, the live one, has three tables and two indexes from an owner to a
multiset of visit ids, and answers a query by one pass over a bucket. `IndexedDataStorage` adds
maps from a visit to its owners and files visits in multimaps sorted by time; it answers by
copying a bucket and cutting it down, stage by stage. This project models both stores, and the
request front end that turns a path, query parameters and a body into operations and queries.

| file | contents |
|---|---|
| `Entities.dfy` | widths, sentinels, partial updates (`Merge*`), the tables and what an operation means for them |
| `MultisetIndex.dfy`, `LiveState.dfy`, `LiveQueries.dfy`, `DataStorageNew.dfy` | the live store: its index, one step and every run, its queries as scans, the class |
| `Effects.dfy` | what every operation does to the tables and answers, field by field, for both stores |
| `Multimap.dfy`, `TimeIndex.dfy` | the sorted multimap, the erase loops as walks, the time-keyed index |
| `IndexedState.dfy`, `IndexedAsWritten.dfy`, `IndexedQueries.dfy`, `IndexedDataStorage.dfy` | the indexed store |
| `Simulation.dfy` | the two stores side by side |
| `Witnesses.dfy` | short runs from one loaded store into the states in which the conditions of the theorems fail |
| `Queries.dfy`, `VisitTexts.dfy` | sums and averages, the printed lists |
| `Scanning.dfy`, `ListScan.dfy`, `VisitSerialization.dfy` | reading the printed lists and the text of a visit back |
| `Numbers.dfy`, `HttpParser.dfy`, `EntitiesValidator.dfy` | digit strings in 64 bits, routing and query parameters, update bodies |

Each store is a value (`Live`, `Indexed`) with a `Step` function and a `Run` over any sequence of
operations. The methods of the two classes change their fields in place and are proved to do
exactly one `Step`; the invariants are proved of `Step` and `Run`. Hash tables are walked in an
arbitrary order (`:|` picks the next element), multisets in ascending order.

What the specifications themselves mean is pinned by statements with the source's own names and
numbers written out: the effect of an operation (`Effects`), the selections of the queries
(`SelectionIs`, `ChosenIs`, `ListedIs`), the answer as a total over a count (`AnswerIs`), the paths and
parameters of a request (`RouteWrittenPath`, `ReadAverageQuery`, `ReadVisitsQuery`), the members of an
update body (`BodiesAccepted` and the lemmas beside it), and the printed texts, which are read back by
scans of their own (`TextIsReadBack`, `SerializeIsReadBack`).

## Where the code departs from its intent

Both stores carry a `Variant`. `AsWritten` is the code, `Intended` does on the user side of a visit
update what the same function does on the location side. What does not depend on the difference is
proved for both: in either store and either variant every run keeps the location side
(`RunKeepsLocationIndex`, `RunKeepsStanding`), the indexed queries are proved in all those states, and
the simulation is proved for either variant of either store (`StoresSimulate`, `AveragesSimulate`): it
needs the user indexes for the lists of visits alone (`VisitsSimulate`).
Each exact condition on the stores below has a reachable state on its failing side, in `Witnesses.dfy` or beside it.

- DataStorage.cpp:630 erases the number of the *user* from the old user's bucket, where line 614
  erases the number of the visit. As written, one operation keeps the user index exactly unless it
  moves a visit away from a user with a different number (`UserIndexAsWritten`), a run does exactly
  unless one of its operations does that (`UserIndexRunAsWritten`: nothing ever repairs the index).
  Every list of visits is right, and matches the indexed store's, exactly under the same condition
  (`ListsRightIff`, `ListsMatchIff`). `UserIndexFailsAsWritten` and `StrayIsListed` are a loaded store
  and an update after which two users own one visit and it is listed for both.
- IndexedDataStorage.cpp:783-812 leaves the user index alone when the user stays, and otherwise
  erases whichever visit of that time `multimap::find` yields. One update from a valid state breaks
  the index exactly if it `GoesStale` (`StepAsWritten`), and a store is valid all along a run exactly if
  no operation of the run goes stale (`ValidThroughoutIff`). Once the index is broken an update
  of a mapped visit may be refused, exactly if nothing is found at the visit's stored time (`RefusedIff`),
  and every such refusal leaves the owner maps contradicting the table (`RefusedUpdateContradicts`);
  a refused operation otherwise changes nothing (`RefusalAsWritten`). Two runs give the same statuses
  exactly if the indexed store always finds what it looks for (`RunKeepsAlike`). `find` yields the first
  entry of a key, as in the library of the g++ 5.4.0 that the project's own notes name.
- IndexedDataStorage.cpp:57 and 196 comment out the mapping step, so as written the indexed store is
  loaded with empty indexes; as meant, mapping is the last step of loading.
- IndexedDataStorage.cpp:344 and 375 go round without advancing when a mapped location is missing.
  `LocationLoopsEndIff` proves that the loops end exactly when all mapped locations exist, and
  `LoopsEndAfterRun` that, as written too, they do after every run whose references exist.
- A birth date on an age bound is outside for the live store and inside for the indexed one.
  `AveragesAgreeIff` proves that the two averages answer alike exactly when no selected visit
  is such a tie and the query does not meet the empty bucket below.
- DataStorage.cpp:376 compares a 32-bit distance with a 64-bit sentinel, so the distance bound always
  applies and a location at distance 2^32-1 is never listed. `StagedIsOnePassIff` proves
  that this is the only difference in *which* visits the two stores list. They differ in *order* too:
  at one time the live store lists by id, the indexed store as the visits were put in. `ListsAgreeIff`
  is the exact condition for equal lists.
- The indexed average of a bucket that is there but empty, asked without any bound, divides 0 by 0
  and every other empty selection prints 0 (`IndexedDataStorage.GetAverageLocationMark`, `ZeroByZeroIff`).
- When a list has entries but none can be shown, taking off the last character removes the opening
  bracket (`TextIsListIff`). Over closed tables that does not happen (`TextIsJoin`).
- In an update body the location and user ids and a distance are cut to 32 bits and a mark to 16, so
  some numbers act as the sentinel "absent", as empty texts do (`IdsOfVisitAfter`, `TimeOfVisitAfter`,
  `MarkOfVisitAfter`, `LocationAfterBody`, `UserAfterBody`).
- Two updates of a visit that loading left out of the index, moving it to another location and
  back, file it where one combined update would not (`UpdatesComposeOnLocations`, an if and only if).

## Model

| member | source | states |
|---|---|---|
| `Entities.VisitPatchLaws` | DataStorage/DataStorage.cpp:596-651 | patches of visits act on the table as a monoid: p then q is p overridden by q, repeating p changes nothing, a patch of sentinels is absent |
| `Entities.UserPatchLaws` | DataStorage/DataStorage.cpp:525-561 | the same law for users |
| `Entities.LocationPatchLaws` | DataStorage/DataStorage.cpp:563-594 | the same law for locations |
| `Entities.StepKeepsClosed` | DataStorage/DataStorage.cpp:525-690 | operations whose references exist keep every visit's location and user in the tables |
| `MultisetIndex.PatchKeepsIndex` | DataStorage/DataStorage.cpp:606-620 | erase from the old bucket and emplace in the new one keeps "at most once, only under its owner", and "at least once" |
| `MultisetIndex.ExactIsUnique` | DataStorage/DataStorage.cpp:230-255 | the owner table determines the contents of an exact index |
| `MultisetIndex.SizesSumToVisits` | DataStorage/DataStorage.cpp:230-255 | the bucket sizes of an exact index sum to the number of visits |
| `MultisetIndex.MovesCompose` | DataStorage/DataStorage.cpp:606-620 | two moves of a visit file it as one combined move does, exactly unless a visit that was not filed goes there and back |
| `LiveState.LoadEstablishes` | DataStorage/DataStorage.cpp:230-267 | loading establishes the location invariant; on closed data both indexes are exact |
| `LiveState.LoadedMeans` | DataStorage/DataStorage.cpp:230-255 | after loading a visit is in the bucket of a location, and of a user, once if it is theirs and both its location and its user exist, and else not |
| `LiveState.RefusedChangesNothing` | DataStorage/DataStorage.cpp:525-690 | an operation answered with "already exists" or "not found" changes neither tables nor indexes |
| `LiveState.StepKeepsLocationIndex` | DataStorage/DataStorage.cpp:596-690 | every operation keeps each visit at most once in all location buckets, only under its current location; and exactly once if it was |
| `LiveState.RunKeepsLocationIndex` | DataStorage/DataStorage.cpp:596-690 | the location invariant over every run, for the code as written |
| `LiveState.BucketSizesSum` | DataStorage/DataStorage.cpp:230-255 | after a closed load and any run the location bucket sizes sum to the number of visits |
| `LiveState.StepKeepsUserIndex` | DataStorage/DataStorage.cpp:622-636 | one operation keeps the user index exact with the erase meant, or as written if it loses track of no visit |
| `LiveState.RunKeepsUserIndex` | DataStorage/DataStorage.cpp:622-636 | with the erase meant, over every run each visit sits exactly once, under its current user |
| `LiveState.UserIndexAsWritten` | DataStorage/DataStorage.cpp:630 | as written, one operation keeps the user index exact if and only if it moves no visit away from a user of another number |
| `LiveState.UserIndexRunAsWritten` | DataStorage/DataStorage.cpp:630 | as written, a run ends with an exact user index if and only if no operation of it loses track of a visit |
| `LiveState.LosingRunLeavesStray` | DataStorage/DataStorage.cpp:622-636 | as written, a run that loses track of a visit ends with a visit filed under a user more often than the table explains |
| `LiveState.RunKeepsStray` | DataStorage/DataStorage.cpp:622-636 | as written, an entry left behind under an old user stays there in every run |
| `LiveState.UserIndexFailsAsWritten` | DataStorage/DataStorage.cpp:630 | a loaded, closed store and a well-formed update after which visit 7 is in the buckets of users 1 and 2 |
| `LiveState.UpdatesComposeOnLocations` | DataStorage/DataStorage.cpp:606-620 | p then q files visits by location as p overridden by q, if and only if it is not a round trip of a visit outside the index |
| `LiveState.UpdatesComposeOnUsers` | DataStorage/DataStorage.cpp:622-636 | with the erase meant, p then q files visits by user as p overridden by q |
| `LiveState.BatchEqualsIncremental` | DataStorage/DataStorage.cpp:230-255 | on closed data, mapping in one batch gives the tables and bucket contents of adding the visits one by one, in any order |
| `LiveState.PartsMakeStep` | DataStorage/DataStorage.cpp:606-648 | the location, user, and time-and-mark parts of an update, in turn, are one step even when all change together |
| `Queries.AgeOfBound` | DataStorage/DataStorage.cpp:312-322 | every age bound that is a modulo 2^16 asks for the age a |
| `LiveQueries.SelectionIs` | DataStorage/DataStorage.cpp:458-493 | the average selects the visits of the location in the open date window whose users exist, have the gender, and were born before the date of age a and after that of age b, for bounds that are a and b modulo 2^16; bounds with the extreme numbers do not count |
| `LiveQueries.AnswerIs` | DataStorage/DataStorage.cpp:448-515 | for the filed visits of the selection listed in any order, the answer is their marks' total over their number, or none |
| `LiveQueries.ChosenIs` | DataStorage/DataStorage.cpp:352-380 | the list takes visits at existing locations, in the open date window, of the country, and always nearer than the bound |
| `LiveQueries.SelectedNext` | DataStorage/DataStorage.cpp:450-497 | each id met by the average loop is a visit of the location, met once, and joins the sum exactly if the table scan selects it |
| `LiveQueries.AverageIsTableScan` | DataStorage/DataStorage.cpp:425-498 | in every state reachable from a closed load, as written, the walk over the bucket selects exactly what a scan of the whole visit table selects |
| `LiveQueries.ListsBucketIsUnique` | DataStorage/DataStorage.cpp:343-385 | the list sorted by time and id is determined by bucket and query |
| `LiveQueries.ListNext` | DataStorage/DataStorage.cpp:343-385 | inserting at the end of the equal range during an ascending walk keeps the list sorted by time, then by id |
| `LiveQueries.ListIsTheUsersVisits` | DataStorage/DataStorage.cpp:343-385 | with an exact user index the list holds exactly the user's passing visits, each once |
| `LiveQueries.ListExists` | DataStorage/DataStorage.cpp:343-385 | every bucket has a list sorted by time and id of exactly its passing visits |
| `LiveQueries.StrayIsListed` | DataStorage/DataStorage.cpp:343-385 | a visit that has strayed is in every list of a query without bounds for a user it is not of, or twice in its user's |
| `LiveQueries.ListsRightIff` | DataStorage/DataStorage.cpp:324-418 | as written, after a closed load and a run that ends with every visit at an existing location nearer than the sentinel distance, every list of every visits query is exactly the user's visits if and only if the run loses track of no visit |
| `LiveQueries.ListAfterRun` | DataStorage/DataStorage.cpp:324-418 | after a closed load and any run, as meant or losing track of no visit, and wherever the locations are, the list is exactly the user's passing visits, each once, by time and then by id |
| `Effects.LiveStepHasEffect` | DataStorage/DataStorage.cpp:525-690 | a step of the live store, in either variant: an add of a new number stores the entity, an update of a stored one replaces exactly the fields that are not "", Any, 0, or the extreme numbers, nothing else changes, and the status says which; other adds and updates are refused |
| `Effects.IndexedStepHasEffect` | DataStorage/IndexedDataStorage.cpp:680-1011 | the same for a step of the indexed store, unless an update overlooks a visit of the table: not mapped, or nothing found; then the tables stay |
| `Effects.EffectIsUnique` | DataStorage/DataStorage.cpp:525-690 | the effect determines the tables and the status |
| `Effects.ClosedAfterIff` | DataStorage/DataStorage.cpp:596-690 | from closed tables an operation that takes effect leads to closed tables if and only if what it refers to exists |
| `DataStorage.DataStorageNew.LoadData` | DataStorage/DataStorage.cpp:257-267 | loading ends with each mapped visit filed once under its location and once under its user |
| `DataStorage.DataStorageNew.MapEntities` | DataStorage/DataStorage.cpp:230-255 | files each visit whose references exist once more, whatever the order of the walk |
| `DataStorage.DataStorageNew.AddUser` | DataStorage/DataStorage.cpp:653-663 | is one step, with the effect of an add on tables and status, and keeps the invariant |
| `DataStorage.DataStorageNew.AddLocation` | DataStorage/DataStorage.cpp:665-675 | is one step, with the effect of an add on tables and status, and keeps the invariant |
| `DataStorage.DataStorageNew.AddVisit` | DataStorage/DataStorage.cpp:677-690 | is one step, with the effect of an add on tables and status, and keeps the invariant |
| `DataStorage.DataStorageNew.UpdateUser` | DataStorage/DataStorage.cpp:525-561 | is one step, with the effect of an update on tables and status, field by field, and keeps the invariant |
| `DataStorage.DataStorageNew.UpdateLocation` | DataStorage/DataStorage.cpp:563-594 | is one step, with the effect of an update on tables and status, field by field, and keeps the invariant |
| `DataStorage.DataStorageNew.ChangeLocation` | DataStorage/DataStorage.cpp:606-620 | moves the visit between location buckets and in the table |
| `DataStorage.DataStorageNew.ChangeUser` | DataStorage/DataStorage.cpp:622-636 | moves the visit between user buckets and in the table, in either variant |
| `DataStorage.DataStorageNew.UpdateVisit` | DataStorage/DataStorage.cpp:596-651 | is one step, with the effect of an update on tables and status, field by field, and keeps the invariant |
| `DataStorage.DataStorageNew.Counts` | DataStorage/DataStorage.cpp:458-493 | the chain of guards is the selection of the scan |
| `DataStorage.DataStorageNew.GetAverageLocationMark` | DataStorage/DataStorage.cpp:425-523 | in any walk order, sum and count of exactly the filed visits the scan selects; the sum is below 2^53 at every step |
| `DataStorage.DataStorageNew.Passes` | DataStorage/DataStorage.cpp:352-380 | the chain of guards is the test of the list |
| `DataStorage.DataStorageNew.GetVisistsByUserId` | DataStorage/DataStorage.cpp:324-423 | the text is the comma-join of the records of the sorted list of passing visits; the second loop skips none |
| `Queries.SumMarksWithout` | DataStorage/DataStorage.cpp:496 | the sum does not depend on the order in which marks are added |
| `Queries.SumIsExactInDouble` | DataStorage/DataStorage.cpp:448-498 | the sum over any set of visits is at most 2^47 in size, so adding in a double is exact |
| `Queries.PrintedIsNear` | DataStorage/DataStorage.cpp:511-512 | for any double within 2^-53 of the quotient, printed as the nearest with five decimals, the printed number is within half a unit and a millionth of the exact quotient |
| `Queries.PrintedIsRounded` | DataStorage/DataStorage.cpp:511-512 | the printed number is the exact quotient rounded, unless that is within a millionth of a unit of the middle between two printed numbers |
| `Queries.PrintedWithinMarks` | DataStorage/DataStorage.cpp:507-515 | what is printed for a selection, division and printing in doubles included, lies between its smallest and largest mark |
| `Queries.AverageWithinMarks` | DataStorage/DataStorage.cpp:507-515 | the rounded average of a non-empty selection lies between its smallest and largest mark |
| `Multimap.LexSortedIsUnique` | DataStorage/DataStorage.cpp:343-385 | a list sorted by time and id is determined by its entries |
| `Multimap.FilterLexSortedIff` | DataStorage/IndexedDataStorage.cpp:402-438 | what a filter leaves is sorted by time and id if and only if the entries that pass are in that order |
| `Multimap.InsertLexSorted` | DataStorage/DataStorage.cpp:382-384 | inserting at the end of the equal range, by ascending id, keeps the order by time and id |
| `Multimap.FilterTwice` | DataStorage/IndexedDataStorage.cpp:402-438 | filtering by one test after the other is filtering by both at once |
| `Multimap.WalkOn` | DataStorage/IndexedDataStorage.cpp:330-354 | one round of an erase loop keeps "what is left is the filtered part and the part not yet visited" |
| `Multimap.WalkEndsIff` | DataStorage/IndexedDataStorage.cpp:330-354 | an erase loop ends if and only if no entry ahead makes it go round without advancing |
| `Multimap.WalkLeaves` | DataStorage/IndexedDataStorage.cpp:330-354 | a walk that has ended left exactly the entries it keeps, in their order |
| `Multimap.TimestampToId.EraseLessOrEqualElements` | DataStorage/IndexedDataStorage.cpp:478-486 | leaves exactly the entries later than the bound |
| `Multimap.TimestampToId.EraseGreaterOrEqualElements` | DataStorage/IndexedDataStorage.cpp:468-476 | leaves exactly the entries earlier than the bound |
| `Multimap.TimestampToId.EraseInRange` | DataStorage/IndexedDataStorage.cpp:829-845 | the walk over the equal range erases exactly the entries of that time and visit; others of the same time survive, order kept |
| `TimeIndex.MoveKeepsExact` | DataStorage/IndexedDataStorage.cpp:829-849 | taking the entry out and putting it in elsewhere moves exactly this visit's slot |
| `TimeIndex.ExactIsUnique` | DataStorage/IndexedDataStorage.cpp:232-263 | the slots determine the contents of an exact index |
| `TimeIndex.IdCounts` | DataStorage/IndexedDataStorage.cpp:232-263 | in a bucket whose keys are the stored times an id occurs as often as its entry |
| `IndexedState.MapNext` | DataStorage/IndexedDataStorage.cpp:235-261 | one round of the mapping keeps the store valid and maps exactly the visits whose references exist |
| `IndexedState.LoadedMeans` | DataStorage/IndexedDataStorage.cpp:232-263 | after loading a visit is in the bucket of a location, and of a user, at its time, once if it is theirs and both its location and its user exist, and else not |
| `IndexedState.FoundIsFirst` | DataStorage/IndexedDataStorage.cpp:793-799 | finding a time in a sorted bucket yields its first entry, and nothing exactly if there is none |
| `IndexedState.AddKeepsValid` | DataStorage/IndexedDataStorage.cpp:936-985 | adding a visit keeps owners, sortedness, keys and exactness of both indexes |
| `IndexedState.RehomedKeepsExact` | DataStorage/IndexedDataStorage.cpp:814-849 | the rehoming finds its bucket, keeps buckets sorted, and moves exactly one slot |
| `IndexedState.UpdateKeepsValid` | DataStorage/IndexedDataStorage.cpp:721-870 | as meant, an update of a mapped visit passes every guard, moves it in both indexes, agrees with the table update, and keeps the store valid |
| `IndexedState.UnmappedIsRefused` | DataStorage/IndexedDataStorage.cpp:761-766 | an update of a visit that is not mapped is refused and changes nothing, in either variant |
| `IndexedState.StepKeepsValid` | DataStorage/IndexedDataStorage.cpp:680-1011 | as meant, every operation keeps the store valid and follows the tables, except that unmapped visits are not updated |
| `IndexedState.RunKeepsValid` | DataStorage/IndexedDataStorage.cpp:680-1011 | the invariant over every run, on closed and unclosed data |
| `IndexedState.OutcomeIs` | DataStorage/IndexedDataStorage.cpp:761-867 | in either variant, where the location side is valid, an update of a mapped visit never fails behind the user side: it ends refused with only the owner maps changed, or fully done |
| `IndexedState.RefusedIff` | DataStorage/IndexedDataStorage.cpp:761-799 | an update is refused if and only if its visit is not mapped or nothing is found: as meant the old user has no bucket, as written the user changes and the old user has no entry at the stored time |
| `IndexedState.MeantFindsAll` | DataStorage/IndexedDataStorage.cpp:783-812 | as meant, over every run from a valid state every update of a mapped visit finds it |
| `IndexedState.StepKeepsStanding` | DataStorage/IndexedDataStorage.cpp:680-1011 | in either variant every operation keeps the location side valid and the user index sorted and naming visits that exist, whatever the user side and the owner maps say |
| `IndexedState.RunKeepsStanding` | DataStorage/IndexedDataStorage.cpp:680-1011 | the same over every run, in either variant |
| `IndexedAsWritten.UserChanges` | DataStorage/IndexedDataStorage.cpp:783-808 | when the user changes, the erase by find keeps the user index exact if and only if the visit's own entry comes first at its time |
| `IndexedAsWritten.NothingIsRefused` | DataStorage/IndexedDataStorage.cpp:783-799 | while the user index is valid no guard stops the update of a mapped visit, whatever the owner maps say |
| `IndexedAsWritten.RefusedUpdateContradicts` | DataStorage/IndexedDataStorage.cpp:761-799 | every refused update of a mapped visit tells the owner maps the new owners and changes nothing else, and they then contradict the table |
| `IndexedAsWritten.RefusalAsWritten` | DataStorage/IndexedDataStorage.cpp:680-1011 | a refused operation changes nothing if and only if it is no update of a mapped visit, or the owner maps already hold the patched visit's owners; where they agree with the table, if and only if it is no update of a mapped visit |
| `IndexedAsWritten.UpdateAsWritten` | DataStorage/IndexedDataStorage.cpp:721-870 | from every state an as-written run reaches: refused exactly if nothing is found, and then the owner maps contradict the table; otherwise table and location index follow the update, and the owner maps agree exactly if those of the other visits did |
| `IndexedAsWritten.UserIndexAfterUpdate` | DataStorage/IndexedDataStorage.cpp:783-812 | from a valid user index the update as written leaves a valid one if and only if it does not go stale |
| `IndexedAsWritten.StepAsWritten` | DataStorage/IndexedDataStorage.cpp:680-1011 | from a valid state one operation as written leads to a valid state if and only if it does not go stale |
| `IndexedAsWritten.RunAsWritten` | DataStorage/IndexedDataStorage.cpp:680-1011 | as written, a run in which no operation goes stale ends in a valid state |
| `IndexedAsWritten.FreshRunFindsAll` | DataStorage/IndexedDataStorage.cpp:783-799 | as written, a run in which no operation goes stale refuses no update of a mapped visit |
| `IndexedAsWritten.ValidThroughoutIff` | DataStorage/IndexedDataStorage.cpp:680-1011 | as written, every state of a run is valid if and only if no operation of it goes stale |
| `IndexedAsWritten.StaleRunMayRecover` | DataStorage/IndexedDataStorage.cpp:809-812 | a run that goes stale and ends in the valid state it started in |
| `IndexedAsWritten.RefusedUpdateLeavesTraces` | DataStorage/IndexedDataStorage.cpp:773-799 | from a valid store over closed data, a run whose second update is refused after the owner map was changed, so that it contradicts the table |
| `IndexedQueries.SelectionIs` | DataStorage/IndexedDataStorage.cpp:565-613 | the average selects the mapped visits of the location in the open date window and, if a bound asks for the user, whose users exist, have the gender, and were born not after the date of age a and not before that of age b, for bounds that are a and b modulo 2^16 |
| `IndexedQueries.AnswerIs` | DataStorage/IndexedDataStorage.cpp:615-635 | for the selection listed in any order, the answer is its marks' total over its number; none, or 0 by 0 for an empty bucket asked without bounds |
| `IndexedQueries.ListedIs` | DataStorage/IndexedDataStorage.cpp:402-438 | the list takes the entries of the user's bucket in the open date window and, if asked, of the country and nearer than the bound |
| `IndexedQueries.AverageStagesAreOne` | DataStorage/IndexedDataStorage.cpp:565-613 | cutting the bucket stage by stage leaves what passes all five tests at once, in order |
| `IndexedQueries.VisitsStagesAreOne` | DataStorage/IndexedDataStorage.cpp:402-438 | the same for the four tests of the visits query |
| `IndexedQueries.StagesAreScan` | DataStorage/IndexedDataStorage.cpp:550-623 | from a valid state, what the stages leave of a bucket is exactly the scan of the visit table |
| `IndexedQueries.LeftAreDistinct` | DataStorage/IndexedDataStorage.cpp:615-622 | what is left names distinct visits, all in the table |
| `IndexedQueries.AnswerOfLeft` | DataStorage/IndexedDataStorage.cpp:560-635 | the answer for the scan is the sum and count of what is left, early exits and the empty bucket included |
| `IndexedQueries.ScanReadsTable` | DataStorage/IndexedDataStorage.cpp:500-516 | while the owner maps agree with the table, what the loops look up through them is what the table says |
| `IndexedQueries.LocationLoopsEndIff` | DataStorage/IndexedDataStorage.cpp:326-386 | the country and the distance loop end if and only if every mapped location of the entries exists |
| `IndexedQueries.LocationLoopsLeave` | DataStorage/IndexedDataStorage.cpp:326-386 | whenever one of the loops has ended it has left the order-preserving subsequence that passes its test |
| `IndexedQueries.QueriesEnd` | DataStorage/IndexedDataStorage.cpp:388-466 | in every state a run reaches, in either variant, the visits query finds each visit it looks up, and its loops end if the owner map names only existing locations |
| `IndexedQueries.LoopsEndAfterRun` | DataStorage/IndexedDataStorage.cpp:326-386 | in either variant, after every run whose references exist from a valid state over closed tables, the country and distance loops of every visits query end |
| `IndexedQueries.TextIsJoin` | DataStorage/IndexedDataStorage.cpp:440-465 | over closed tables a valid store prints the comma-join of the records of all entries that pass |
| `IndexedStorage.IndexedDataStorage.LoadData` | DataStorage/IndexedDataStorage.cpp:189-199 | as meant, loading maps exactly the visits whose references exist; as written, none |
| `IndexedStorage.IndexedDataStorage.MapEntities` | DataStorage/IndexedDataStorage.cpp:232-263 | establishes the invariant, whatever the order of the walk |
| `IndexedStorage.IndexedDataStorage.AddUser` | DataStorage/IndexedDataStorage.cpp:906-934 | is one step, with the effect of an add on tables and status |
| `IndexedStorage.IndexedDataStorage.AddLocation` | DataStorage/IndexedDataStorage.cpp:987-1011 | is one step, with the effect of an add on tables and status |
| `IndexedStorage.IndexedDataStorage.AddVisit` | DataStorage/IndexedDataStorage.cpp:936-985 | is one step, with the effect of an add on tables and status |
| `IndexedStorage.IndexedDataStorage.UpdateUser` | DataStorage/IndexedDataStorage.cpp:680-719 | is one step, with the effect of an update on tables and status, field by field |
| `IndexedStorage.IndexedDataStorage.UpdateLocation` | DataStorage/IndexedDataStorage.cpp:872-904 | is one step, with the effect of an update on tables and status, field by field |
| `IndexedStorage.IndexedDataStorage.Complete` | DataStorage/IndexedDataStorage.cpp:737-757 | filling the absent fields from the stored visit is the merge |
| `IndexedStorage.IndexedDataStorage.MoveUser` | DataStorage/IndexedDataStorage.cpp:783-812 | the user side of an update, in either variant, with its refusals |
| `IndexedStorage.IndexedDataStorage.Rehome` | DataStorage/IndexedDataStorage.cpp:814-849 | moves the matching entry to the new bucket and key, or reports the missing bucket |
| `IndexedStorage.IndexedDataStorage.UpdateVisit` | DataStorage/IndexedDataStorage.cpp:721-870 | is one step with its status, including what a failed guard leaves changed; the tables stay or have the effect of the update, field by field |
| `IndexedStorage.IndexedDataStorage.EraseByCountry` | DataStorage/IndexedDataStorage.cpp:326-355 | ends and leaves the subsequence of the country, if mapped locations exist |
| `IndexedStorage.IndexedDataStorage.EraseByToDistance` | DataStorage/IndexedDataStorage.cpp:357-386 | ends and leaves the subsequence nearer than the bound, if mapped locations exist |
| `IndexedStorage.IndexedDataStorage.EraseByAge` | DataStorage/IndexedDataStorage.cpp:488-521 | ends and leaves the subsequence whose users exist and do not compare beyond the boundary |
| `IndexedStorage.IndexedDataStorage.EraseByGender` | DataStorage/IndexedDataStorage.cpp:523-548 | ends and leaves the subsequence whose users exist and have the gender |
| `IndexedStorage.IndexedDataStorage.GetAverageLocationMark` | DataStorage/IndexedDataStorage.cpp:550-636 | answers for the scan of the visit table, early exits included; answers the quotient of 0 by 0 if and only if a bucket that is there but empty is asked for without bounds |
| `IndexedStorage.IndexedDataStorage.GetVisistsByUserId` | DataStorage/IndexedDataStorage.cpp:388-466 | the text of exactly the entries of the bucket that pass all tests |
| `VisitTexts.NoneIsSkipped` | DataStorage/DataStorage.cpp:387-420 | if every entry has its visit and location the text is the comma-join of all records |
| `VisitTexts.TextIsListIff` | DataStorage/IndexedDataStorage.cpp:440-465 | the text is the list of the records that can be shown if and only if there are no entries or some can be shown |
| `VisitTexts.PrintShown` | DataStorage/DataStorage.cpp:388-411 | the loop prints the records of the entries that can be shown, each with a comma |
| `VisitTexts.RenderShown` | DataStorage/IndexedDataStorage.cpp:440-465 | dropping the last character gives the comma-join, or loses the bracket if nothing was shown |
| `ListScan.RecordIsRead` | DataStorage/IndexedDataStorage.cpp:450-455 | a record of either store, followed by anything, is read back by a scan with that store's labels |
| `ListScan.TextIsReadBack` | DataStorage/DataStorage.cpp:387-420 | from the text of either store a scan with the labels written out recovers the place of the location, the time and the mark of every listed visit, in order, if no place has a quotation mark |
| `Simulation.LoadsAreAlike` | DataStorage/IndexedDataStorage.cpp:232-263 | loaded from the same closed tables the two stores are alike |
| `Simulation.StepKeepsAlike` | DataStorage/IndexedDataStorage.cpp:680-1011 | one operation, whatever it refers to and in any variants, gives the same status if and only if the indexed store finds what it looks for, and then keeps the stores alike |
| `Simulation.RunKeepsAlike` | DataStorage/IndexedDataStorage.cpp:680-1011 | over every run, in any variants, all statuses are the same if and only if the indexed store always finds what it looks for, and then the stores stay alike |
| `Simulation.StoresSimulate` | DataStorage/IndexedDataStorage.cpp:680-1011 | from the same closed data, in any variants, the same statuses if and only if the indexed store always finds what it looks for, which as meant it does; then the same tables, and each location's multimap holds the ids of its multiset |
| `Simulation.AveragesAgreeIff` | DataStorage/IndexedDataStorage.cpp:550-636 | whatever has become of the user indexes, the two stores answer an average query alike, literally, if and only if no selected visit is of a user born on an age boundary and no empty bucket is asked for without bounds |
| `Simulation.AveragesSimulate` | DataStorage/IndexedDataStorage.cpp:550-636 | the same after every run from closed data whose references exist, in any variants, if the indexed store always finds what it looks for, which as meant it does |
| `Simulation.StagedIsOnePassIff` | DataStorage/IndexedDataStorage.cpp:402-438 | staged and one-pass filtering leave the same multiset if and only if no dropped visit is at the sentinel distance; both lists are in time order |
| `Simulation.ListsAgreeIff` | DataStorage/IndexedDataStorage.cpp:402-438 | the two stores list the same sequence if and only if none of the user's visits is dropped at the sentinel distance and none of the listed visits of one time was put in against the order of ids |
| `Simulation.DifferentTimesAreInOrder` | DataStorage/IndexedDataStorage.cpp:402-438 | if the times of the user's visits differ in the table, none is out of order |
| `Simulation.VisitsSimulate` | DataStorage/IndexedDataStorage.cpp:388-438 | both conditions after every run from closed data whose references exist, for each store as meant or, as written, if the run does not spoil its user index |
| `Simulation.ListsMatchIff` | DataStorage/DataStorage.cpp:324-418 | the live store as written and an indexed store that keeps its user index, after a run whose references exist and that ends with every visit nearer than the sentinel distance, list the same visits for every query if and only if the live store lost track of none |
| `Simulation.BatchEqualsIncremental` | DataStorage/IndexedDataStorage.cpp:232-263 | on closed data mapping and adding one by one, in any order, give the same tables, owners and bucket contents |
| `Simulation.UpdatesCompose` | DataStorage/IndexedDataStorage.cpp:721-870 | as meant, p then q is p overridden by q for status, tables, owners and both indexes; repeating p changes nothing |
| `Numbers.StringToNumber` | HttpParser/HttpParser.cpp:64-88 | accepts exactly the digit strings; the right-to-left sum in 64 bits is the left-to-right value, wrapped; exact up to 18 digits |
| `Numbers.LeadingDigit` | HttpParser/HttpParser.cpp:74-85 | a digit in front weighs the power of ten of what follows: right-to-left accumulation meets the left-to-right value |
| `Numbers.NoOverflow` | HttpParser/HttpParser.cpp:72-85 | up to 18 digits neither variable leaves the signed 64-bit range |
| `Numbers.PrintsDecimal` | HttpParser/HttpParser.cpp:64-88 | printing and reading numbers is decimal, most significant digit first, on written-out examples |
| `Numbers.PrintedIsParsed` | HttpParser/HttpParser.cpp:64-88 | parsing undoes canonical printing below 10^18 |
| `HttpParsing.AsksForOne` | HttpParser/HttpParser.cpp:90-285 | a method and a path ask for at most one type of request |
| `HttpParsing.GetsAre` | HttpParser/HttpParser.cpp:109-172 | the five GET requests, by the literal names in their paths |
| `HttpParsing.PostsAre` | HttpParser/HttpParser.cpp:174-272 | the six POST requests, by the literal names in their paths |
| `HttpParsing.PrintedPathAsks` | HttpParser/HttpParser.cpp:90-285 | the printed path of each of the 11 types asks for that type |
| `HttpParsing.PrintedIdIsRead` | HttpParser/HttpParser.cpp:109-117 | the id in a printed path is read back, for every 32-bit id |
| `HttpParsing.LongIdIsReduced` | HttpParser/HttpParser.cpp:109-117 | longer digit strings route by their value modulo 2^32 |
| `HttpParsing.HttpParser.Route` | HttpParser/HttpParser.cpp:90-285 | succeeds exactly if the path asks for a type (`GetsAre`, `PostsAre`), which it stores with the id; "not found" exactly for a GET whose id is no number |
| `HttpParsing.RoutePrintedPath` | HttpParser/HttpParser.cpp:90-285 | routing the printed path of each of the 11 types succeeds and gives back the type, and every 32-bit id |
| `HttpParsing.RouteWrittenPath` | HttpParser/HttpParser.cpp:90-285 | routing each of the 11 paths, written out with a printed 32-bit id, succeeds and stores the type and the id |
| `HttpParsing.HttpParser.StartRequest` | HttpParser/HttpParser.cpp:400 | clearing the mask forgets the parameters of the last request, whatever the fields hold |
| `HttpParsing.HttpParser.SplitQuery` | HttpParser/HttpParser.cpp:287-394 | fails exactly if a parameter is malformed; otherwise flags and fields show the last occurrence of each key |
| `HttpParsing.MalformedIff` | HttpParser/HttpParser.cpp:300-391 | the parser refuses a gender other than f and m, and a date, age or distance that is not all digits, by the literal names of the parameters |
| `HttpParsing.AbsorbedReflects` | HttpParser/HttpParser.cpp:300-391 | one more parameter keeps mask and fields in step with the list |
| `HttpParsing.FlagsAreSeparate` | HttpParser/HttpParser.h:18-27 | setting the flag of a key sets no other flag |
| `HttpParsing.QueryIsFold` | HttpServer/RequestProcessor.cpp:466-499 | the average query of a parameter list is its left fold over the blank query, by the literal names of the parameters |
| `HttpParsing.VisitsQueryIsFold` | HttpServer/RequestProcessor.cpp:525-553 | the visits query of a parameter list is its left fold over the blank query, by the literal names of the parameters |
| `HttpParsing.NeighboursCommute` | HttpParser/HttpParser.cpp:300-391 | neighbouring parameters with different keys may change places, for both queries |
| `HttpParsing.FillAverageLocationMarkQuery` | HttpServer/RequestProcessor.cpp:466-499 | after a successful split the mask-gated fill gives the query of the parameter list |
| `HttpParsing.FillVisistsByUserIdQuery` | HttpServer/RequestProcessor.cpp:525-553 | the same for the visits query |
| `HttpParsing.ReadAverageQuery` | HttpServer/RequestProcessor.cpp:466-499 | splitting and filling fails exactly on an unreadable list, and gives the fold of the list; each single parameter, by its literal name, sets exactly its own field |
| `HttpParsing.ReadVisitsQuery` | HttpServer/RequestProcessor.cpp:525-553 | the same for the visits query, with the distance modulo 2^32 and the country decoded |
| `UpdateBodies.OrSingleBit` | DataStorage/Entities/EntitiesValidator.h:13-28 | setting one attribute's bit sets it and changes no other |
| `UpdateBodies.CheckOneMore` | DataStorage/Entities/EntitiesValidator.cpp:30-88 | one more check keeps the mask equal to the attributes present so far |
| `UpdateBodies.EntitiesValidator.LocationDataForUpdate` | DataStorage/Entities/EntitiesValidator.cpp:114-125 | accepts exactly bodies that parse with acceptable attributes; the mask then shows which are present |
| `UpdateBodies.EntitiesValidator.VisitDataForUpdate` | DataStorage/Entities/EntitiesValidator.cpp:127-138 | the same for visits |
| `UpdateBodies.EntitiesValidator.UserDataForUpdate` | DataStorage/Entities/EntitiesValidator.cpp:140-152 | the same for users |
| `UpdateBodies.BodiesAccepted` | DataStorage/Entities/EntitiesValidator.cpp:10-23 | the bodies accepted for each entity, by the literal names, kinds and ranges of their members |
| `UpdateBodies.FillVisitToUpdate` | HttpServer/RequestProcessor.cpp:665-713 | refuses exactly the unacceptable bodies; otherwise the sentinel-filled patch of the body, cut to the field widths |
| `UpdateBodies.FillLocationToUpdate` | HttpServer/RequestProcessor.cpp:615-663 | the same for locations |
| `UpdateBodies.FillUserToUpdate` | HttpServer/RequestProcessor.cpp:555-613 | the same for users |
| `UpdateBodies.IdsOfVisitAfter` | HttpServer/RequestProcessor.cpp:665-713 | from body to stored visit: "location" and "user" take effect exactly if given with low 32 bits that are not all ones |
| `UpdateBodies.TimeOfVisitAfter` | HttpServer/RequestProcessor.cpp:665-713 | from body to stored visit: every 64-bit "visited_at" takes effect but the largest |
| `UpdateBodies.MarkOfVisitAfter` | HttpServer/RequestProcessor.cpp:665-713 | from body to stored visit: "mark" takes effect, as the signed number of its low 16 bits, exactly if these are not 32767 |
| `UpdateBodies.LocationAfterBody` | HttpServer/RequestProcessor.cpp:615-663 | from body to stored location: "place", "country", "city" take effect unless empty, "distance" unless a multiple of 2^32 |
| `UpdateBodies.UserAfterBody` | HttpServer/RequestProcessor.cpp:555-613 | from body to stored user: the texts take effect unless empty, "birth_date" unless the smallest 64-bit number, "gender" always and as female unless "m" |
| `Scanning.PrintedIsRead` | DataStorage/Entities/Visit.cpp:40-51 | a printed number, negative or not, followed by a non-digit is read back |
| `VisitSerialization.SerializeIsReadBack` | DataStorage/Entities/Visit.cpp:40-51 | one left-to-right scan with the labels written out recovers the five numbers of every visit |
| `VisitSerialization.SerializeIsInjective` | DataStorage/Entities/Visit.cpp:40-51 | two visits with the same text are equal |
| `Witnesses.StrayIsListed` | DataStorage/DataStorage.cpp:630 | after one update of the live store as written every list for user 1 holds a visit of user 2 |
| `Witnesses.RefusalSplitsStatuses` | DataStorage/IndexedDataStorage.cpp:783-799 | the indexed store as written refuses the second of two updates that the live store accepts |
| `Witnesses.OtherIsErased` | DataStorage/IndexedDataStorage.cpp:793-803 | handing the second of two visits of one time to another user erases the first one's entry: valid before, not after |
| `Witnesses.TieSplitsAverages` | DataStorage/IndexedDataStorage.cpp:513 | after one update a user born on the age bound makes the averages differ |
| `Witnesses.EmptiedBucketSplitsAverages` | DataStorage/IndexedDataStorage.cpp:626-628 | after the only visit has moved away the indexed store answers 0 by 0, the live store 0 |
| `Witnesses.SentinelSplitsLists` | DataStorage/DataStorage.cpp:376 | after one update a location at the largest distance makes the lists differ |
| `Witnesses.OrderSplitsLists` | DataStorage/IndexedDataStorage.cpp:402-438 | after two adds the indexed store lists visit 9 before visit 5, the live store does not |
| `Witnesses.BracketIsLost` | DataStorage/IndexedDataStorage.cpp:456-461 | after a visit was added with a missing location the text of the list has no opening bracket |
| `Witnesses.LoopsAreStuck` | DataStorage/IndexedDataStorage.cpp:344 | after the same add, neither loop over the locations ends |
| `Witnesses.RoundTripFiles` | DataStorage/DataStorage.cpp:606-620 | two updates file a visit that loading left out where the one update they amount to does not |

## Left out

- Sockets, threads and the event loop: each store operation is one atomic step.
- Zip archives, directories and files: loading starts from the parsed tables. Of two entities with one id the first in the files wins; the tables already reflect that.
- rapidjson, yuarel, http_parser and qs_decode: a body is a map of parsed members, or `None`; a path is a list of parts; the parameters are a list of keys and values; percent-decoding is a function parameter. yuarel passes on at most five parameters; the model takes a list of any length. JSON strings are taken to hold no NUL character.
- HttpParsing.HttpParser.Route: needs two path parts, as the code reads `parts[0]` and `parts[1]` without asking how many there are.
- Numbers.StringToNumber: signed overflow beyond 18 digits is modelled as wrap-around.
- The clock and `mktime`: the birth date of an age is a function parameter, `calendar`, of the age cut to 16 bits, the same for both stores.
- `locations_to_users_`: it never affects an answer, so it is left out, together with the places that follow an iterator to it or to a user without asking whether it is the end (IndexedDataStorage.cpp:581-584 and 851-862).
- DataStorage.DataStorageNew.GetAverageLocationMark: like its twin in the indexed store, answers the sum and the count. The number printed for them is bounded by `Queries.PrintedIsNear` and its neighbours; its characters, and what is printed for 0 by 0, are not modelled.
- IndexedStorage.IndexedDataStorage.GetVisistsByUserId: the two stores print the fields of a record in a different order and spacing; the lists are compared, not the texts. The method requires that the visits of the bucket are in the table, which every run keeps, and, if a loop over locations is entered, that mapped locations exist, because the code has no answer otherwise.
- IndexedAsWritten.RunAsWritten: is one-way for the end of a run alone, because a run that goes stale may recover (`StaleRunMayRecover`); for all states of a run `ValidThroughoutIff` is exact.
- LiveQueries.ListsRightIff: like `Simulation.ListsMatchIff`, speaks of runs that end with every visit at an existing location nearer than the sentinel distance, because a stray visit elsewhere is in no list of the live store; `StrayIsListed` and `ListIsTheUsersVisits` are the two halves for a single state.
- Lookup of one entity by id, the texts of users and locations, the full check of new entities, the response headers and status codes, escaping of strings, tracing and dumps: simple guards and concatenations.
- The older request processor `RequestProcessorSimple`, which is not built.
