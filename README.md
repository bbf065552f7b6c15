# Que-Aula API: the subject engine and the class transformer

This project models the part of the Que-Aula API that writes and reads a
university's timetable. There are two core files.

- `src/models/Subject.js` is the engine. `createClasses` imports a batch of
  subjects with their class groups and weekly schedules. `update` patches one
  subject and can rebuild its groups and schedules. `delete` removes a subject
  by code. `clean` empties every table. `populate` seeds the database from a
  JSON file. A schedule names its teacher and classroom by text; a shared
  resolver turns each name into a row id, reading the table first and
  inserting the name when it is missing.
- `src/services/classTransformer.js` is the read side. It turns the rows of
  the subjects/groups/schedules join into the nested subject objects the
  front end expects.

The database is a value, `Tables.Db`. It has five tables (subjects,
teachers, classrooms, class groups and schedules) and one serial counter per
table. Each SQL statement is a function from a `Db` to a `Result`. Its
errors are the constraint violations the migrations declare: column widths,
unique codes, unique (subject, group code) pairs, the week-day and period
checks, and the foreign keys with their CASCADE and RESTRICT rules.
`Tables.Valid` states these constraints.

`StoreModel.Store` is a class with one mutable field per table. Each of its
methods is one statement, proved equal to that statement's function on
`Abs()`. The engine (`SubjectModel`) is imperative. It issues the source's
statements one by one against a `Store`, with the source's loops, and a
failed transaction rolls the store back to its state at `BEGIN`. Each engine
method is proved to end in the store and report that a pure specification
gives: `Ingest.CreateClassesSpec`, `Update.UpdateSpec`,
`Maintenance.DeleteSpec`, `Maintenance.CleanSpec` and, for `populate`,
`PopulateModel.PopulateWith`. The lemmas in `IngestProofs`, `UpdateProofs`,
`PopulateProofs` and `Maintenance` are stated about these specifications,
so they also hold for the engine.

`populate` is written over the key of its group map. The source keys the
map by the string `name + "-" + code` (`PopulateModel.JoinKey`), and
`SubjectModel.Populate` runs exactly that, ending in
`PopulateModel.PopulateAsWritten`. Because that key can confuse two
subjects (see "## Findings"), `SubjectModel.PopulateByPair` runs the same
statements with the pair (name, code) as key and ends in
`PopulateModel.PopulateSpec`. The invariant lemmas about `populate` are
proved for the pair key; the counting lemmas hold for any key.

The transformer is specified twice:

- as a fold over the rows (`ClassTransformer.Transform`), which the loop of
  `TransformToFrontendFormat` is proved to compute;
- row by row (`ClassTransformer.Describes`), stating what each output
  subject is in terms of the input rows.

`TransformDescribes` connects the two. `RoundTrip.ScheduleRoundTrip` joins
the write side to the read side for one schedule.

Modelling choices:

- JavaScript `undefined` and `null` are both `None`.
- JavaScript truthiness of a string is `Common.Truthy`, meaning present and
  not empty.
- `parseInt` reads an optional sign and the leading decimal digits.
- `toString` on an integer is its decimal rendering.

## Model

| member | source | states |
|---|---|---|
| `StoreModel.Store.constructor` | infra/migrations/1755308004113_create-subjects.js:1-38 | a freshly migrated database has empty tables and every sequence at 1 |
| `StoreModel.Store.Rollback` | src/models/Subject.js:254-258 | ROLLBACK restores exactly the tables and sequences saved at BEGIN |
| `StoreModel.Store.InsertSubject` | src/models/Subject.js:96-109 | the INSERT into subjects either adds the row and returns the new id, or leaves every table unchanged and returns the violation |
| `StoreModel.Store.InsertNamed` | src/models/Subject.js:153-163 | the INSERT into teachers or classrooms either adds the row and returns its id, or leaves every table unchanged and returns the violation |
| `StoreModel.Store.InsertGroup` | src/models/Subject.js:116-125 | the INSERT into class_groups either adds the row and returns its id, or leaves every table unchanged and returns the violation |
| `StoreModel.Store.InsertSchedule` | src/models/Subject.js:215-232 | the INSERT into class_schedules either adds the row and returns its id, or leaves every table unchanged and returns the violation |
| `StoreModel.Store.UpdateSubjects` | src/models/Subject.js:336-345 | the UPDATE of subjects either leaves the store `Tables.UpdateSubjects` gives, or changes nothing and returns the violation |
| `StoreModel.Store.DeleteSubject` | src/models/Subject.js:268 | `DELETE FROM subjects WHERE code = $1` leaves the store `Tables.DeleteSubject` gives, cascades included |
| `StoreModel.Store.DeleteGroupsOfCode` | src/models/Subject.js:269-272 | the DELETE of the groups of subjects with the code leaves the store `Tables.DeleteGroupsOfCode` gives |
| `StoreModel.Store.DeleteSchedulesOfCode` | src/models/Subject.js:273-276 | the DELETE of the schedules of subjects with the code leaves the store `Tables.DeleteSchedulesOfCode` gives |
| `StoreModel.Store.DeleteSchedulesOfGroupsOf` | src/models/Subject.js:348-351 | the DELETE of the schedules in the subject's groups leaves the store `Tables.DeleteSchedulesOfGroupsOf` gives |
| `StoreModel.Store.DeleteGroupsOf` | src/models/Subject.js:352-354 | the DELETE of the subject's groups leaves the store `Tables.DeleteGroupsOf` gives, cascading to their schedules |
| `StoreModel.Store.DeleteSchedulesOf` | src/models/Subject.js:390-393 | the DELETE of the subject's schedules leaves the store `Tables.DeleteSchedulesOf` gives |
| `StoreModel.Store.DeleteAll` | src/models/Subject.js:505-509 | an unfiltered DELETE empties the table with its cascades, or fails on a RESTRICT reference and changes nothing |
| `Tables.InsertSubject` | src/models/Subject.js:96-109 | the insert succeeds exactly when code, name and semester fit their varchar widths and no subject has the code; the new id is the sequence value; a valid store stays valid |
| `Tables.InsertNamed` | src/models/Subject.js:153-163 | a teacher or classroom insert succeeds exactly when the name is present and fits its varchar width; a valid store stays valid |
| `Tables.InsertGroup` | src/models/Subject.js:116-125 | a group insert succeeds exactly when the code fits, the pair (subject, code) is new and the subject exists |
| `Tables.InsertSchedule` | src/models/Subject.js:215-232 | a schedule insert succeeds exactly when week day, start and end are numbers in the int range with 1 <= day <= 7 and 0 <= start <= end, and all four foreign keys exist |
| `Tables.UpdateSubjects` | src/models/Subject.js:336-345 | the UPDATE patches every subject whose code matches case-insensitively, changes nothing else, and fails only on a value too wide when some row matches |
| `Tables.FirstSubjectIdCI` | src/models/Subject.js:291-304 | the case-insensitive SELECT finds no row exactly when no code matches, otherwise the id of a matching subject |
| `Tables.DeleteSubject` | src/models/Subject.js:268 | deleting by exact code leaves no subject with the code, keeps every other subject, and leaves teachers, classrooms and sequences alone |
| `Tables.DeleteSubjectValid` | infra/migrations/1755308206331_create-class-groups.js:7-12 | deleting subjects cascades to their groups and schedules and keeps every constraint |
| `Tables.CleanOrderSucceeds` | src/models/Subject.js:505-509 | clean's five statements, in the source's order, all succeed and leave every table empty with the sequences unchanged |
| `Tables.TeachersRestricted` | infra/migrations/1755308297266_create-class-schedules.js:19-30 | in a valid store with a schedule, deleting all teachers fails (RESTRICT) |
| `PeriodCodec.GeneratePeriodArray` | src/services/classTransformer.js:61-67 | the loop returns exactly `Expand(start, end)` |
| `PeriodCodec.ExpandAt` | src/services/classTransformer.js:61-67 | the period array has end - start + 1 entries (none when start > end), and entry k is the decimal string of start + k |
| `PeriodCodec.ParseIntToString` | src/models/Subject.js:228 | `parseInt` of the decimal rendering of any integer gives the integer back |
| `PeriodCodec.CollapseExpand` | src/models/Subject.js:210-213 | reading the first and last entries of an expanded period gives back its start and end |
| `PeriodCodec.CollapseReadsEnds` | src/models/Subject.js:210-213 | the stored start and end depend only on the first and last entries of the period list |
| `Resolver.Resolve` | src/models/Subject.js:142-194 | a resolution succeeds only for a present name, and caches the id under that name; it fails only for an absent name or a new name too wide for its column |
| `Resolver.ResolveSpec` | src/models/Subject.js:142-194 | the resolved id is a row with that name; the cache stays sound; only the named table changes, growing by one row exactly when the name was new |
| `Resolver.ResolveFailsCleanly` | src/models/Subject.js:142-163 | a resolution fails exactly when the name is absent, or is neither cached nor in the table and too wide for the name column |
| `Resolver.AddedFreshCounts` | src/models/Subject.js:142-194 | a run never adds a teacher or classroom name the table already holds, and adds each new name at most once |
| `IngestProofs.ScheduleStepKeeps` | src/models/Subject.js:141-233 | one schedule keeps every constraint and the schedule/group link, changes no subject or group, and adds at most one "group not found" entry |
| `IngestProofs.ScheduleStepInserts` | src/models/Subject.js:196-232 | a filed schedule appends one row with the subject, the group of its code, the named teacher and classroom, the parsed week day, and the parsed first and last periods |
| `IngestProofs.IngestExpandedPeriod` | src/models/Subject.js:210-213 | a period sent as `Expand(a, b)` is stored as start a and end b |
| `IngestProofs.ScheduleLoopAccounts` | src/models/Subject.js:140-234 | when no schedule throws, each schedule yields exactly one new row of the subject or one error entry |
| `IngestProofs.ScheduleStepFiles` | src/models/Subject.js:196-232 | a completed schedule appends the row stored for it exactly when its group code is in the map, and nothing otherwise |
| `IngestProofs.ScheduleLoopFiles` | src/models/Subject.js:140-234 | when no schedule throws, the new rows are the rows stored for the schedules whose group code is in the map, one each and in order |
| `IngestProofs.ScheduleLoopReports` | src/models/Subject.js:196-204 | when no schedule throws, the loop adds exactly one "Class group not found" entry per schedule whose group code is not in the map, in order, and no other entry |
| `IngestProofs.GroupLoopKeeps` | src/models/Subject.js:114-126 | the group inserts keep the constraints, change only the groups, and map each code to a group of the subject with that code |
| `IngestProofs.GroupLoopAppends` | src/models/Subject.js:114-126 | when every insert succeeds, the subject's group codes grow by exactly the list inserted, in order |
| `IngestProofs.GroupLoopRecords` | src/models/Subject.js:114-126 | when every insert succeeds, every inserted code is in the code-to-id map |
| `IngestProofs.CreatedGroupKeys` | src/models/Subject.js:112-138 | for a new subject, the code-to-id map built by the group inserts has exactly the inserted codes as keys |
| `IngestProofs.CreateOneRejects` | src/models/Subject.js:76-94 | an item with a known code is skipped as "already exists"; a nameless item gets "Unknown" with a TypeError; one missing a field gets the missing-fields entry; the store is unchanged in every case |
| `IngestProofs.CreateOneCreates` | src/models/Subject.js:96-243 | a created item inserted its subject row with the sequence id; its groups are the class list or DEFAULT; its report counts its schedules |
| `IngestProofs.CreateOneFiles` | src/models/Subject.js:140-234 | a created item's new schedule rows are the rows stored for its schedules whose group code is one of its groups, one each and in order; every other schedule adds "Class group not found" under the item's name, in order, and no other error is added |
| `IngestProofs.CreateClassesKeeps` | src/models/Subject.js:51-264 | a committed batch keeps every constraint and the schedule/group link, only adds rows, and every created code is in the store |
| `IngestProofs.CreateClassesNamesOnce` | src/models/Subject.js:142-194 | a batch never duplicates a teacher or classroom name already present; a new name gets at most one row, and exactly one when a stored schedule refers to it |
| `IngestProofs.RerunChangesNothing` | src/models/Subject.js:67-82 | re-sending a batch whose codes all exist changes nothing and reports every item as skipped |
| `IngestProofs.NullItemAborts` | src/models/Subject.js:74-76 | a `null` item anywhere in the batch throws a TypeError, so the whole batch rolls back |
| `UpdateProofs.AssignmentsPatch` | src/models/Subject.js:306-345 | the SET list built from the patch gives the subject patched field by field |
| `UpdateProofs.PatchFits` | src/models/Subject.js:310-320 | the SET list fits its columns exactly when description and semester fit their widths |
| `UpdateProofs.UpdateSubjectsValid` | src/models/Subject.js:336-345 | the UPDATE keeps every constraint |
| `UpdateProofs.RebuildGroupsKeeps` | src/models/Subject.js:347-377 | rebuilding the groups leaves the subject exactly the requested codes and no schedule, keeps other subjects' groups and schedules, and keeps the constraints |
| `UpdateProofs.RebuildSchedulesAccounts` | src/models/Subject.js:379-474 | after the rebuild, each sent schedule is one row of the subject or one error entry, and other subjects' schedules are untouched |
| `UpdateProofs.RebuildSchedulesFiles` | src/models/Subject.js:379-474 | after the rebuild, the subject's rows are exactly the rows stored for the sent schedules whose group code is one of the subject's groups, one each and in the order sent: in that group, with the named teacher and classroom, the parsed week day and the first and last periods |
| `UpdateProofs.GroupIdMapKeys` | src/models/Subject.js:385-388 | the map read back has a key for each group code of the rows, and no other |
| `UpdateProofs.GroupIdMapOwned` | src/models/Subject.js:380-388 | each code of the map read back names a group row with that id |
| `UpdateProofs.UpdateNotFound` | src/models/Subject.js:291-302 | no code matches exactly when update reports "Subject not found" and updates nothing, and then the store is unchanged |
| `UpdateProofs.UpdateFieldsOnly` | src/models/Subject.js:306-345 | a patch without class list or classes succeeds exactly when its texts fit, and then patches every matching subject and nothing else |
| `UpdateProofs.SetListEffect` | src/models/Subject.js:306-345 | an empty SET list changes nothing; a non-empty one succeeds exactly when its texts fit and patches every matching row |
| `UpdateProofs.UpdateKeeps` | src/models/Subject.js:280-497 | a committed update patches every case-insensitively matching subject row with the given fields and leaves the other rows; keeps the constraints; gives the subject the requested group codes, leaves it no schedule when the class list comes without classes, and changes no group without a class list; accounts for every sent schedule, makes the subject's rows exactly the rows stored for the sent schedules whose group exists, in order, and changes no schedule without class list and classes; leaves other subjects' groups and schedules alone |
| `Maintenance.DeleteTailIsNoop` | src/models/Subject.js:266-278 | once the first DELETE has run, the other three statements change nothing |
| `Maintenance.DeleteRemoves` | src/models/Subject.js:266-278 | after delete no subject has the code; every other subject remains; no group or schedule of a deleted subject remains; every group of another subject remains, and so does every schedule of another subject when each schedule's group is its subject's; teachers, classrooms and sequences are unchanged; the constraints hold |
| `Maintenance.CleanEmpties` | src/models/Subject.js:499-524 | clean always succeeds and leaves five empty tables with the sequences unchanged |
| `PopulateModel.Eligibles` | src/models/Subject.js:557-563 | the filter keeps at most the items it is given, and every listing it keeps has a non-empty name and description |
| `PopulateModel.EligiblesExactly` | src/models/Subject.js:557-563 | the filter keeps exactly the items with a name, a description and a defined semester: each of them is kept and nothing else is |
| `PopulateProofs.InsertSubjectsTally` | src/models/Subject.js:569-607 | the first pass adds one subject row per created entry, changes no other table, and afterwards every listed subject's insert would fail |
| `PopulateProofs.PopulateTally` | src/models/Subject.js:526-819 | the summary counts exactly the rows added to each table, and every created subject is in the store |
| `PopulateProofs.PopulateNothingNew` | src/models/Subject.js:569-612 | when every subject insert fails, populate writes nothing, counts nothing, and reports one error per listed item |
| `PopulateProofs.PopulateTwice` | src/models/Subject.js:526-819 | running populate a second time on its own result changes nothing and counts zero everywhere |
| `PopulateProofs.PopulateKeeps` | src/models/Subject.js:609-795 | populate with a pair-keyed group map keeps every constraint and every schedule in a group of its own subject |
| `PopulateProofs.JoinKeyCollides` | src/models/Subject.js:629-632 | two different (subject, group) pairs give the same string key |
| `PopulateProofs.JoinKeyMisfiles` | src/models/Subject.js:730-743 | with the string key, a schedule of subject "A-B" is filed in a group of subject "A" |
| `SubjectModel.ResolveName` | src/models/Subject.js:142-194 | the SELECT-then-INSERT resolution ends in the store and result that `Resolve` gives |
| `SubjectModel.AddSchedule` | src/models/Subject.js:141-233 | one schedule's statements end in the store, caches, errors and fault that `ScheduleStep` gives |
| `SubjectModel.AddGroups` | src/models/Subject.js:112-138 | the group loop ends in the store, map and fault that `GroupLoop` gives |
| `SubjectModel.AddSchedules` | src/models/Subject.js:140-234 | the schedule loop ends in the store, caches, errors and fault that `ScheduleLoop` gives |
| `SubjectModel.CreateSubject` | src/models/Subject.js:75-249 | one batch item ends in the state that `CreateOne` gives |
| `SubjectModel.CreateClasses` | src/models/Subject.js:51-264 | createClasses commits `CreateClassesSpec`'s store and returns its report, or rolls back to the initial store and rethrows its fault |
| `SubjectModel.ReadGroupIds` | src/models/Subject.js:385-388 | the forEach builds the code-to-id map `GroupIdMap` |
| `SubjectModel.ReplaceGroups` | src/models/Subject.js:347-377 | the `classList` step ends in the state `RebuildGroups` gives, or reports its fault |
| `SubjectModel.ReplaceSchedules` | src/models/Subject.js:379-474 | the `classes` step ends in the state and errors `RebuildSchedules` gives, or reports its fault |
| `SubjectModel.UpdateGroupsAndClassesOf` | src/models/Subject.js:347-483 | after the field UPDATE, the rebuild steps end in the state and report `UpdateGroupsAndClasses` gives, or return its fault |
| `SubjectModel.UpdateSubject` | src/models/Subject.js:280-497 | update commits `UpdateSpec`'s store and report, or rolls back and rethrows |
| `SubjectModel.Delete` | src/models/Subject.js:266-278 | the four statements leave the store `DeleteSpec` describes |
| `SubjectModel.Clean` | src/models/Subject.js:499-524 | clean commits `CleanSpec`'s store, or rolls back and returns the violation |
| `SubjectModel.Listings` | src/models/Subject.js:557-563 | the filter loop returns `Eligibles` |
| `SubjectModel.AddListedSubjects` | src/models/Subject.js:569-607 | the first pass ends in the store, id map, created list, errors and count that `InsertSubjects` gives |
| `SubjectModel.AddListedGroups` | src/models/Subject.js:614-650 | a listing's group inserts end in the store, key map and counts `PopGroups` gives for the same key, or stop with its fault |
| `SubjectModel.FileListedSchedule` | src/models/Subject.js:730-773 | the group lookup by key and the schedule INSERT end in the state `FileSchedule` gives |
| `SubjectModel.PlaceListedSchedule` | src/models/Subject.js:701-773 | the classroom resolution and filing end in the state `PlaceSchedule` gives |
| `SubjectModel.SeatListedSchedule` | src/models/Subject.js:673-773 | the teacher resolution, classroom resolution and filing end in the state `SeatSchedule` gives |
| `SubjectModel.AddListedSchedule` | src/models/Subject.js:657-783 | one schedule of the second pass, incomplete ones skipped, ends in the state `PopSchedule` gives |
| `SubjectModel.AddListedSchedules` | src/models/Subject.js:652-785 | a listing's schedule loop ends in the state `PopSchedules` gives |
| `SubjectModel.AddListing` | src/models/Subject.js:609-795 | one listing's second pass ends in the state `PopItem` gives for the same key |
| `SubjectModel.PopulateKeyed` | src/models/Subject.js:526-819 | populate over a group key ends in the store and report `PopulateWith` gives for that key |
| `SubjectModel.Populate` | src/models/Subject.js:526-819 | populate with the source's string key ends in the store and report `PopulateAsWritten` gives |
| `SubjectModel.PopulateByPair` | src/models/Subject.js:526-819 | populate with the pair key ends in the store and report of the corrected `PopulateSpec` |
| `ClassTransformer.ScheduleOf` | src/services/classTransformer.js:22-36 | a listed row becomes a schedule with the week day as a decimal string, one period per value from start to end, and `whichClass` exactly when the subject is multi-class and the row has a group code |
| `ClassTransformer.Insert` | src/services/classTransformer.js:54 | inserting adds exactly one occurrence of the string |
| `ClassTransformer.InsertSorted` | src/services/classTransformer.js:54 | inserting into a sorted list keeps it sorted |
| `ClassTransformer.Sort` | src/services/classTransformer.js:54 | the sort is a permutation of its input |
| `ClassTransformer.SortSorts` | src/services/classTransformer.js:54 | the sort's output is ordered, holds the same strings, and repeats none when the input repeated none |
| `ClassTransformer.SortedUnique` | src/services/classTransformer.js:54 | two sorted permutations of the same strings are equal, so the class list does not depend on insertion order |
| `ClassTransformer.AddCode` | src/services/classTransformer.js:32 | adding to a set-like list adds the code once and keeps the other members |
| `ClassTransformer.AddRow` | src/services/classTransformer.js:5-41 | the forEach body folds one row into the map as `Step` does |
| `ClassTransformer.TransformToFrontendFormat` | src/services/classTransformer.js:2-59 | the loop over the rows returns `Transform(rows)` |
| `ClassTransformer.FirstIndex` | src/services/classTransformer.js:8-18 | the index of the row that creates a subject's entry: the first row with that code |
| `ClassTransformer.TransformDescribes` | src/services/classTransformer.js:2-59 | the output has a subject exactly for each code in the rows, in order of first appearance; each output subject takes its fields from the code's first row, lists the schedules of its listed rows in row order, and carries the sorted set of its group codes exactly when multi-class with some group code |
| `ClassTransformer.TransformSingleSubject` | src/services/classTransformer.js:69-76 | no rows give null; otherwise the result describes the first row's code |
| `RoundTrip.ScheduleRoundTrip` | src/services/classTransformer.js:22-36 | a schedule stored by the engine for a subject, read back through the join with that subject's row, transforms into the schedule that was sent, when it was sent in the transformer's form |

## Left out

- `findAll` and `findByCode` (the join query and its ORDER BY) are not modelled; the transformer takes the join rows as its input.
- The `findByCode` call inside `update` is not modelled; its result is never used.
- `populate` reads `classes.json` with `require` and checks that it is an array; the model takes the parsed array as a parameter.
- Connections, `client.end()`, console output and timestamps (`created_at`, `updated_at`) are left out; the model has no I/O or clock.
- Lower-casing (`toLowerCase`, SQL `LOWER`) is modelled on ASCII letters only.
- `parseInt` is modelled as an optional sign followed by leading decimal digits; whitespace, other radixes and `Infinity` are not.
- A value that is not a string or an array in the JSON (a number as a name, say) is not modelled; the item fields are typed.
- JavaScript `undefined` and `null` are one value, `None`; the lines below name what that costs.
- `UpdateProofs.UpdateKeeps`: a `null` class list passes the source's `!== undefined` test, so `update` deletes the subject's schedules and groups and, the list being falsy, inserts one "DEFAULT" group; the model reads it as absent and changes no group, so "without a class list no group changes" does not hold for a `null` class list. `null` classes make the source throw at its `for...of` and roll back; the model reads them as absent too.
- `PopulateModel.Eligible`: because of the same collapse, an item with `semester: null` is dropped by the filter; the source keeps it (its test is `!== undefined`), and its subject insert then fails the NOT NULL constraint and is reported as "Failed to create subject".
- `Update.AssignmentsOf`: because of the same collapse, a patch field set to `null` is left out of the SET list. The source writes NULL: a `null` description or semester violates NOT NULL and the update rolls back, and a `null` multiClass or greve stores NULL in the nullable boolean column, which the model's boolean fields cannot hold.
- `Tables.InsertSubject`, `Tables.InsertNamed`, `Tables.InsertGroup` and `Tables.UpdateSubjects` reject every value longer than its varchar width. PostgreSQL accepts an over-long value whose extra characters are all spaces and truncates it to the width; the model does not.
- `Tables.FirstSubjectIdCI` and `Tables.FindNamed`: the source takes the first row of a SELECT without ORDER BY (the subject lookup in `update`, and the teacher and classroom lookups in `createClasses`, `update` and `populate`). PostgreSQL returns such rows in no defined order, and an UPDATE moves a row's new version within the table; the model resolves this order to table order and takes the first matching row. The contracts of both say only "a matching row", but `UpdateSpec`, `UpdateStages`, `UpdateKeeps` and `Resolver.Resolve` are stated for that one choice. It matters when two subject codes differ only in case (the UNIQUE constraint and `populate` compare codes exactly) and when a teacher or classroom name has several rows.
- Serial ids are consumed only by successful inserts; PostgreSQL's sequences also advance on an insert that fails.
- After a failed statement, PostgreSQL aborts the transaction and later statements also fail. `createClasses` and `populate` catch such failures per item and go on; the model lets the later statements run, and the final COMMIT becomes a rollback in PostgreSQL, which the model does not capture.
- The text of an exception message is modelled as a fault code, not as PostgreSQL's wording.
- The class list sort compares characters; JavaScript's default sort compares UTF-16 code units, so strings outside the basic plane may order differently.
- Concurrent requests and isolation levels are not modelled.
- `RoundTrip.ScheduleRoundTrip` covers one schedule; a whole-subject round trip through `createClasses`, the join and the transformer is not stated.

## Findings

| source | as written | input that shows it | evidently intended | confidence | as-written member | corrected member |
|---|---|---|---|---|---|---|
| src/models/Subject.js:629-632 | `populate` keys its group map, shared by all subjects, by the string `name + "-" + groupCode` (also at 645-648 and 730-732), and two different (subject, group) pairs can give the same key | subject "A", multi-class with class list ["B-C"], and subject "A-B" with one schedule whose `whichClass` is "C": the key "A-B-C" finds group "B-C" of subject "A", and the schedule of "A-B" is stored in a group of another subject | a group is looked up by the pair (subject, group code), so this schedule reports "Class group 'C' not found" | high, not executed | `PopulateProofs.JoinKeyMisfiles` | `PopulateProofs.PopulateKeeps` |

The engine's `SubjectModel.Populate` runs the source's string key and ends in
`PopulateModel.PopulateAsWritten`; `SubjectModel.PopulateByPair` runs the
pair key, `PopulateModel.PairKey`, and ends in the corrected
`PopulateModel.PopulateSpec`, about which the invariant lemmas are proved.
