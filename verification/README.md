# BeFit — a verified model of its core

BeFit is a training log in two parts:

- **BeFit** is an ASP.NET Core MVC site on an EF Core / SQLite database. A signed-in user keeps their own training sessions. Each session holds entries: an exercise type, a weight, a number of sets and a number of repetitions per set. The user also sees statistics over the last four weeks.
- **BeFit.Mobile** is a .NET MAUI app that keeps the same three kinds of record in a local sqlite-net database. It has no users.

This project models the part of both that holds the logic:

- the record types and their validation attributes;
- the EF model's relationships, delete rules and column mapping;
- the schema repair run at web start-up;
- the two controllers that edit sessions and entries, and the statistics query;
- the mobile data service;
- the three mobile detail pages that create and edit an exercise type, a session and an entry.

The model has these parts:

- **Values:**
  - Records are datatypes.
  - `DateTime` and `TimeSpan` are integer tick counts (`Time`).
  - `double` is `real`, and strings are `seq<char>`.
- **Owners of state:**
  - The EF context (`WebStore.AppDbContext`), the mobile service (`MobileStore.DatabaseService`), the database at start-up (`SchemaBootstrap.Database`) and the detail pages are classes.
  - Their tables are `seq` fields that their methods reassign.
  - Each method states the whole new state.
- **Shared definitions:**
  - The tables' lookups (`FirstOrDefault`, `Update`, `Delete`, `Where`) are defined once over sequences in `Tables`.
  - Ordering (`OrderBy` under the BINARY collation) is defined in `Sorting` and `Text`.
- **Inputs:**
  - The clock is a parameter.
  - The signed-in user is an `Option<string>` parameter.
  - A failure injected into the start-up run is a parameter too.

## Model

| member | source | states |
|---|---|---|
| Annotations.RoundHalfEven | BeFit/Models/TrainingEntryCreateDto.cs:15-17 | `Convert.ToInt32` of a weight: the nearest integer, and on a tie the even one |
| Annotations.RangeAcceptsRealEvenBounds | BeFit/Models/TrainingEntry.cs:26-28 | `[Range(min, max)]` on a `double` with even bounds accepts exactly `[min - 0.5, max + 0.5]` |
| Text.Trim | BeFit.Mobile/ViewModels/ExerciseTypeDetailViewModel.cs:85 | `Trim()` removes only leading and trailing white space. It returns the part of the input that starts after the leading white space, empty exactly when the input is blank, and with no white space at either end |
| Text.TrimUtf16Length | BeFit.Mobile/ViewModels/ExerciseTypeDetailViewModel.cs:85 | trimming never makes the `Length` of a name larger |
| Text.Utf16Length | BeFit.Mobile/ViewModels/ExerciseTypeDetailViewModel.cs:119 | `string.Length` counts UTF-16 code units: between one and two per character |
| Text.Utf16LengthIsCountIff | BeFit.Mobile/ViewModels/ExerciseTypeDetailViewModel.cs:119 | `Length` equals the number of characters exactly when no character lies beyond U+FFFF |
| Text.OrdinalTotal | BeFit.Mobile/Services/DatabaseService.cs:42 | the BINARY collation compares any two names |
| Text.OrdinalTransitive | BeFit.Mobile/Services/DatabaseService.cs:42 | the BINARY collation order is transitive |
| Text.OrdinalAntisymmetric | BeFit.Mobile/Services/DatabaseService.cs:42 | two names that sort both ways are equal |
| Text.IntRoundTrip | BeFit.Mobile/Models/TrainingEntry.cs:52 | the decimal text of an id parses back to that id |
| Text.NatRoundTrip | BeFit.Mobile/Models/TrainingEntry.cs:52 | the digits of a natural number parse back to it |
| Time.Date | BeFit.Mobile/ViewModels/TrainingSessionDetailViewModel.cs:20 | `Date` is the midnight at or before the instant, less than a day earlier |
| Time.TimeOfDay | BeFit.Mobile/ViewModels/TrainingSessionDetailViewModel.cs:23 | `TimeOfDay` lies in `[0, 24 h)` |
| Time.TruncateToMinute | BeFit/Controllers/TrainingSessionsController.cs:68 | dropping seconds gives a whole minute at or before the instant, less than a minute earlier |
| Time.DatePlusTimeOfDay | BeFit.Mobile/ViewModels/TrainingSessionDetailViewModel.cs:71-72 | date plus time of day gives the instant back |
| Time.SplitMidnightPlus | BeFit.Mobile/ViewModels/TrainingSessionDetailViewModel.cs:96-97 | a midnight plus a time of day splits back into that midnight and that time |
| Tables.FirstWithKey | BeFit.Mobile/Services/DatabaseService.cs:51 | `FirstOrDefault(r => r.Id == id)`: a stored row with that key, and none exactly when no row has it |
| Tables.FirstWithKeyUnique | BeFit.Mobile/Services/DatabaseService.cs:51 | with unique keys, the lookup by a row's key finds that row |
| Tables.FirstWithKeyPermutation | BeFit.Mobile/ViewModels/TrainingEntryDetailViewModel.cs:105-111 | with unique keys, looking up in a reordered list finds the same row as in the table |
| Tables.ReplaceWithKey | BeFit.Mobile/Services/DatabaseService.cs:61 | `UpdateAsync`: same length, and the rows with the key are replaced while all others stay in place |
| Tables.RemoveWithKey | BeFit.Mobile/Services/DatabaseService.cs:72 | `DeleteAsync`: exactly the rows without the key remain, it shrinks when the key is present, and nothing changes otherwise |
| Tables.RemoveWithKeyUnique | BeFit.Mobile/Services/DatabaseService.cs:72 | deleting rows keeps primary keys unique |
| Tables.KeysAfterReplace | BeFit.Mobile/Services/DatabaseService.cs:61 | an update keeps keys unique and below the next autoincrement id |
| Tables.KeysAfterAppend | BeFit.Mobile/Services/DatabaseService.cs:62 | an insert under the next autoincrement id keeps keys unique |
| Tables.Where | BeFit/Controllers/TrainingSessionsController.cs:34-36 | `Where(p)`: exactly the rows satisfying `p` |
| Tables.WhereUnique | BeFit.Mobile/Services/DatabaseService.cs:130 | filtering keeps keys unique |
| Sorting.Sort | BeFit.Mobile/Services/DatabaseService.cs:97 | `OrderBy`: a permutation of the input, sorted by a total, transitive order |
| MobileModels.NewExerciseType | BeFit.Mobile/Models/ExerciseType.cs:12-17 | a new type has id 0 and an empty name that `[Required]` refuses |
| MobileModels.Validate | BeFit.Mobile/Models/TrainingSession.cs:25-33 | at most one result, naming `EndedAt`; there is one exactly when the end is not after the start |
| MobileModels.Duration | BeFit.Mobile/Models/TrainingSession.cs:39 | start plus duration is the end, and the duration is positive exactly when `Validate` passes |
| MobileModels.NewTrainingSession | BeFit.Mobile/Models/TrainingSession.cs:16-20 | a new session starts at the first clock reading and ends an hour after the second; it passes `Validate` exactly when the clock did not go back by an hour or more in between, and lasts at least an hour when the clock did not go back |
| MobileModels.NewTrainingEntry | BeFit.Mobile/Models/TrainingEntry.cs:24-37 | a new entry is weight 0, one set, one repetition, and passes all three ranges |
| MobileModels.DisplayLabel | BeFit.Mobile/Models/TrainingEntry.cs:50-52 | the label is the type's name when it is loaded; otherwise it is `Ćwiczenie #` followed by text that parses back to the type id |
| WebModels.NewExerciseType | BeFit/Models/ExerciseType.cs:9-12 | a new type has an empty name that `[Required]` refuses |
| WebModels.Validate | BeFit/Models/TrainingSession.cs:22-29 | at most one result, naming `EndedAt`; there is one exactly when the end is strictly before the start |
| WebModels.NewTrainingSession | BeFit/Models/TrainingSession.cs:10-11 | a new session's `UserId` is empty and fails `[Required]` |
| WebModels.ZeroLengthSessionChecksDisagree | BeFit/Models/TrainingSession.cs:24 | a session ending when it starts fails the mobile check and passes the web check |
| WebModels.NewTrainingEntry | BeFit/Models/TrainingEntry.cs:20-36 | a new entry has an empty `UserId`, and its sets and repetitions, 0, fail their ranges |
| WebModels.WeightCheckBounds | BeFit/Models/TrainingEntry.cs:26-28 | `[Range(0, 1000)]` on the weight accepts exactly `[-0.5, 1000.5]` |
| EfModel.FindRule | BeFit/Data/ApplicationDbContext.cs:25-47 | the delete rule of a dependent and principal pair is absent exactly when no relationship links them, and otherwise it is one of theirs |
| EfModel.DeleteRule | BeFit/Data/ApplicationDbContext.cs:25-47 | the same for the model's four relationships |
| EfModel.DeleteRules | BeFit/Data/ApplicationDbContext.cs:25-47 | sessions and entries cascade from users, entries cascade from sessions, exercise types restrict, and nothing depends on entries |
| EfModel.Columns | BeFit/Data/ApplicationDbContext.cs:49-57 | the columns of a table are its mapped properties under their column names, one for one |
| EfModel.ColumnsDistinct | BeFit/Data/ApplicationDbContext.cs:49-57 | no two properties of an entity map to the same column |
| EfModel.EntryColumnMapping | BeFit/Data/ApplicationDbContext.cs:49-57 | the entry table has `WeightKg` and `Reps`, not `Weight` and `Repetitions`, and no table repeats a column |
| WebStore.OwnedRows | BeFit/Controllers/TrainingSessionsController.cs:34-36 | the caller's rows are exactly the rows whose owner is the caller |
| WebStore.OwnedRowsIgnoreForeign | BeFit/Controllers/TrainingEntriesController.cs:35-38 | adding another user's row anywhere leaves the caller's listing unchanged |
| WebStore.FindOwned | BeFit/Controllers/TrainingSessionsController.cs:53-54 | a row with that id owned by the caller, and none exactly when no such row exists |
| WebStore.FindOwnedIsScopedLookup | BeFit/Controllers/TrainingSessionsController.cs:53-54 | with unique ids, the scoped lookup is the plain lookup by id, refused when the owner differs |
| WebStore.AppDbContext.constructor | BeFit/Data/ApplicationDbContext.cs:13-15 | an empty database for a set of accounts; every reference resolves |
| WebStore.AppDbContext.AddExerciseType | BeFit/Data/ApplicationDbContext.cs:21-23 | the insert succeeds exactly when no type has that name; the unique index holds afterwards |
| WebStore.AppDbContext.RemoveExerciseType | BeFit/Data/ApplicationDbContext.cs:37-41 | the delete succeeds exactly when no entry uses the type (restrict); nothing else changes |
| WebStore.AppDbContext.AddSession | BeFit/Data/ApplicationDbContext.cs:25-29 | the insert succeeds exactly when the owner is a user, and appends the session under the next id |
| WebStore.AppDbContext.UpdateSession | BeFit/Data/ApplicationDbContext.cs:25-29 | the update succeeds exactly when the owner is a user, and replaces the row with that id |
| WebStore.AppDbContext.RemoveSession | BeFit/Data/ApplicationDbContext.cs:31-35 | deleting a session deletes exactly its entries with it (cascade) |
| WebStore.AppDbContext.AddEntry | BeFit/Data/ApplicationDbContext.cs:31-47 | the insert succeeds exactly when its session, type and user exist |
| WebStore.AppDbContext.UpdateEntry | BeFit/Data/ApplicationDbContext.cs:31-47 | the update succeeds exactly when its session, type and user exist, and replaces the row with that id |
| WebStore.AppDbContext.RemoveEntry | BeFit/Data/ApplicationDbContext.cs:31-47 | exactly the entries with other ids remain; no other table changes |
| WebStore.AppDbContext.RemoveUser | BeFit/Data/ApplicationDbContext.cs:25-47 | removing a user removes their sessions, their entries and every entry of their sessions |
| WebStore.RemoveKeepsNamesUnique | BeFit/Data/ApplicationDbContext.cs:21-23 | deleting types keeps names unique |
| TrainingSessionsController.Index | BeFit/Controllers/TrainingSessionsController.cs:26-37 | NotFound without a user; otherwise exactly the caller's sessions |
| TrainingSessionsController.Details | BeFit/Controllers/TrainingSessionsController.cs:40-61 | a missing id, a missing user and another owner's session all give NotFound; a page shows the caller's session with that id |
| TrainingSessionsController.CreateForm | BeFit/Controllers/TrainingSessionsController.cs:64-75 | the form starts at the current minute and ends an hour later, and passes `Validate` for any owner |
| TrainingSessionsController.Create | BeFit/Controllers/TrainingSessionsController.cs:80-102 | appends the caller's session with the submitted times, in any order; a missing user row gives a server error and no change |
| TrainingSessionsController.BoundSession | BeFit/Controllers/TrainingSessionsController.cs:130 | the Edit form binds `Id`, `StartedAt` and `EndedAt`; `UserId` keeps the empty initial value |
| TrainingSessionsController.EditModelStateNeverValid | BeFit/Controllers/TrainingSessionsController.cs:151 | as written, no Edit form passes model validation |
| TrainingSessionsController.EditModelStateValidIff | BeFit/Controllers/TrainingSessionsController.cs:151 | the intended check passes exactly when the start is not after the end, and the check as written refuses every such form |
| TrainingSessionsController.Edit | BeFit/Controllers/TrainingSessionsController.cs:130-174 | as written: NotFound for a mismatched id or a session that is not the caller's; otherwise the bound form is shown again, and the database is never changed |
| TrainingSessionsController.EditCorrected | BeFit/Controllers/TrainingSessionsController.cs:130-174 | the action with the intended form check: the same NotFound cases; otherwise it saves exactly when start ≤ end, and changes only that session's times, keeping every id and owner |
| TrainingSessionsController.EditedCopyKeepsIdsAndOwners | BeFit/Controllers/TrainingSessionsController.cs:155-157 | writing back the stored session with new times changes no id and no owner, and no other session |
| TrainingSessionsController.DeleteConfirmed | BeFit/Controllers/TrainingSessionsController.cs:203-220 | deletes the caller's session and its entries; another user's id changes nothing |
| TrainingEntriesController.Index | BeFit/Controllers/TrainingEntriesController.cs:27-40 | NotFound without a user; otherwise exactly the caller's entries |
| TrainingEntriesController.Details | BeFit/Controllers/TrainingEntriesController.cs:43-66 | a missing id, a missing user and another owner's entry all give NotFound; a page shows the caller's entry |
| TrainingEntriesController.Create | BeFit/Controllers/TrainingEntriesController.cs:90-130 | the form comes back exactly when the ranges fail or the session is not the caller's; a missing exercise type gives a server error; otherwise the entry is appended for the caller |
| TrainingEntriesController.BoundEntry | BeFit/Controllers/TrainingEntriesController.cs:165 | the Edit form binds every field except `UserId`, which stays empty |
| TrainingEntriesController.EditModelStateNeverValid | BeFit/Controllers/TrainingEntriesController.cs:202 | as written, no Edit form passes model validation |
| TrainingEntriesController.EditModelStateValidIff | BeFit/Controllers/TrainingEntriesController.cs:202 | the intended check passes exactly for weight in `[-0.5, 1000.5]` and sets and repetitions in 1..100, all refused as written |
| TrainingEntriesController.Edit | BeFit/Controllers/TrainingEntriesController.cs:165-235 | as written: NotFound for a mismatched id or another user's entry; otherwise the bound form is shown again, whether or not the chosen session is the caller's, and the database is never changed |
| TrainingEntriesController.EditCorrected | BeFit/Controllers/TrainingEntriesController.cs:165-235 | the action with the intended form check: the same NotFound cases; the form comes back when the session is not the caller's or the ranges fail; otherwise it replaces only that entry, keeping ids and owners |
| TrainingEntriesController.EditedCopyKeepsIdsAndOwners | BeFit/Controllers/TrainingEntriesController.cs:206-212 | writing back the stored entry with new fields but its own id and owner changes no id and no owner, and no other entry |
| TrainingEntriesController.DeleteConfirmed | BeFit/Controllers/TrainingEntriesController.cs:266-283 | deletes the caller's entry with that id; any other id changes nothing |
| Stats.WindowStart | BeFit/Controllers/StatsController.cs:34 | the window starts exactly 28 days before now |
| Stats.CountedEntries | BeFit/Controllers/StatsController.cs:37-45 | exactly the caller's entries whose session is the caller's and started inside the window |
| Stats.CountedIff | BeFit/Controllers/StatsController.cs:37-45 | with unique session ids, an entry counts exactly when its session, found by id, is the caller's and started at or after `now - 28 days` |
| Stats.GroupOf | BeFit/Controllers/StatsController.cs:46 | an entry's group is its exercise type, and the null group exactly when the type does not exist |
| Stats.Label | BeFit/Controllers/StatsController.cs:49 | the row label is the type's name, or `Nieznany` for the null group |
| Stats.GroupKeys | BeFit/Controllers/StatsController.cs:46 | the groups are exactly the groups of the counted entries, each once |
| Stats.Group | BeFit/Controllers/StatsController.cs:46 | a group holds exactly the entries with that key |
| Stats.MaxWeight | BeFit/Controllers/StatsController.cs:53 | the maximum weight is reached by an entry and exceeded by none |
| Stats.SumWeightAtMost | BeFit/Controllers/StatsController.cs:52-53 | a sum of weights bounded by m is at most count × m |
| Stats.Aggregate | BeFit/Controllers/StatsController.cs:47-54 | a row's count is its group size (at least 1); its total is the sum of sets × repetitions over the group; its mean times the count is the weight sum; its maximum is attained; mean ≤ maximum |
| Stats.GroupsNonEmpty | BeFit/Controllers/StatsController.cs:46 | no group is empty |
| Stats.Rows | BeFit/Controllers/StatsController.cs:47-54 | one aggregated row per group, in group order |
| Stats.LabelLeqTotal | BeFit/Controllers/StatsController.cs:55 | ordering rows by label is total and transitive |
| Stats.Statistics | BeFit/Controllers/StatsController.cs:37-56 | the rows are a permutation of the per-group rows, sorted by label |
| Stats.Index | BeFit/Controllers/StatsController.cs:26-59 | NotFound without a user; otherwise the statistics of that user's last 28 days |
| Stats.OneRowPerGroup | BeFit/Controllers/StatsController.cs:46-55 | one row per group, every group's aggregate appears, and every row is one group's aggregate |
| Stats.RowBounds | BeFit/Controllers/StatsController.cs:50-53 | every row counts at least one entry, and its mean weight is at most its maximum |
| Stats.NoUnknownGroupWhenTypesResolve | BeFit/Controllers/StatsController.cs:49 | when every entry's type exists, there is no `Nieznany` row |
| Stats.TimesPerformedTotal | BeFit/Controllers/StatsController.cs:50 | the counts of all rows add up to the number of counted entries |
| Stats.RowsCountEveryEntry | BeFit/Controllers/StatsController.cs:46-50 | the grouping partitions the entries |
| MobileStore.ExerciseTypesByName | BeFit.Mobile/Services/DatabaseService.cs:42 | every stored type once, ascending by name |
| MobileStore.SessionsByStartDescending | BeFit.Mobile/Services/DatabaseService.cs:97 | every stored session once, latest start first |
| MobileStore.CountUsing | BeFit.Mobile/Services/DatabaseService.cs:81-84 | the count is positive exactly when some entry uses the type |
| MobileStore.EntriesOfSession | BeFit.Mobile/Services/DatabaseService.cs:167-169 | exactly the session's entries, each as often as it is stored |
| MobileStore.Attach | BeFit.Mobile/Services/DatabaseService.cs:154-155 | the navigation fields are the stored type and session with the entry's ids, and absent exactly when none is stored |
| MobileStore.AttachAll | BeFit.Mobile/Services/DatabaseService.cs:150-156 | each entry with its navigation fields attached, in order |
| MobileStore.AttachAllCounts | BeFit.Mobile/Services/DatabaseService.cs:150-156 | attaching keeps each entry's multiplicity |
| MobileStore.SessionlessLast | BeFit.Mobile/Services/DatabaseService.cs:158 | in the entry listing, entries without a session come last, and the rest run latest session first |
| MobileStore.EntriesBySessionStart | BeFit.Mobile/Services/DatabaseService.cs:158 | all entries once each, with navigation, sorted latest session first |
| MobileStore.DatabaseService.Init | BeFit.Mobile/Services/DatabaseService.cs:22-32 | opens and creates the three tables once; no row changes |
| MobileStore.DatabaseService.GetExerciseTypes | BeFit.Mobile/Services/DatabaseService.cs:39-43 | the types ordered by name |
| MobileStore.DatabaseService.GetExerciseType | BeFit.Mobile/Services/DatabaseService.cs:48-52 | the type with that id, if any |
| MobileStore.DatabaseService.SaveExerciseType | BeFit.Mobile/Services/DatabaseService.cs:57-64 | id 0 inserts under a fresh id and returns 1; otherwise it replaces the row with that id and returns the number of rows updated |
| MobileStore.DatabaseService.DeleteExerciseType | BeFit.Mobile/Services/DatabaseService.cs:69-73 | deletes the type with that id; other tables are unchanged, so entries may be left pointing at it |
| MobileStore.DatabaseService.IsExerciseTypeInUse | BeFit.Mobile/Services/DatabaseService.cs:78-85 | true exactly when some entry uses the type |
| MobileStore.DatabaseService.DeleteExerciseTypeIfUnused | BeFit.Mobile/ViewModels/ExerciseTypesViewModel.cs:81-98 | deletes exactly when the user confirms and no entry uses the type, so no entry loses its type |
| MobileStore.DatabaseService.GetTrainingSessions | BeFit.Mobile/Services/DatabaseService.cs:94-98 | the sessions, latest start first |
| MobileStore.DatabaseService.GetTrainingSession | BeFit.Mobile/Services/DatabaseService.cs:103-107 | the session with that id, if any |
| MobileStore.DatabaseService.SaveTrainingSession | BeFit.Mobile/Services/DatabaseService.cs:112-119 | id 0 inserts under a fresh id; otherwise it replaces the row with that id |
| MobileStore.DatabaseService.DeleteTrainingSession | BeFit.Mobile/Services/DatabaseService.cs:124-134 | deletes the session and exactly its entries |
| MobileStore.DatabaseService.GetTrainingEntries | BeFit.Mobile/Services/DatabaseService.cs:143-159 | all entries with navigation, latest session first |
| MobileStore.DatabaseService.GetTrainingEntriesForSession | BeFit.Mobile/Services/DatabaseService.cs:164-178 | the session's entries in table order, each with its type and without its session |
| MobileStore.DatabaseService.GetTrainingEntry | BeFit.Mobile/Services/DatabaseService.cs:183-195 | the entry with that id, with its type and session attached, if any |
| MobileStore.DatabaseService.SaveTrainingEntry | BeFit.Mobile/Services/DatabaseService.cs:200-207 | id 0 inserts under a fresh id; otherwise it replaces the row with that id |
| MobileStore.DatabaseService.DeleteTrainingEntry | BeFit.Mobile/Services/DatabaseService.cs:212-216 | deletes the entry with that id; other tables are unchanged |
| SchemaBootstrap.StatementsDistinctColumns | BeFit/Program.cs:102-126 | no two statements add the same column to the same table, and none adds `Weight` |
| SchemaBootstrap.DefaultsAreValid | BeFit/Program.cs:105-124 | the column defaults pass the entry ranges and equal the records' initial `UserId` |
| SchemaBootstrap.EfSchema | BeFit/Program.cs:27 | `EnsureCreated` on an empty database makes every table with the columns of the EF model |
| SchemaBootstrap.DueIff | BeFit/Program.cs:36-126 | each statement's condition as the code checks it; `Reps` is never checked |
| SchemaBootstrap.PlannedAdds | BeFit/Program.cs:36-126 | the statements issued are exactly those due, each on an existing table and each once |
| SchemaBootstrap.SessionScan | BeFit/Program.cs:42-59 | the session scan issues `UserId` exactly when the column is missing |
| SchemaBootstrap.EntryScan | BeFit/Program.cs:68-126 | the entry scan issues its four statements in source order under their conditions |
| SchemaBootstrap.Apply | BeFit/Program.cs:57-124 | applying statements keeps the set of tables and appends each added column to its table |
| SchemaBootstrap.ColumnAfter | BeFit/Program.cs:57-124 | a column is present after some statements exactly when it was present or one of them added it |
| SchemaBootstrap.ResumeAfterPartialRun | BeFit/Program.cs:143-147 | after a run stopped by an exception at statement k, the next start-up issues exactly the statements not yet applied |
| SchemaBootstrap.RunCovers | BeFit/Program.cs:102-126 | after a complete run every checked column exists, with `Weight` standing in for `WeightKg` |
| SchemaBootstrap.BootstrapIdempotent | BeFit/Program.cs:36-126 | a second start-up issues nothing |
| SchemaBootstrap.Database.EnsureCreated | BeFit/Program.cs:27 | creates the EF schema on an empty database and leaves an existing one alone |
| SchemaBootstrap.Database.ScanSessionColumns | BeFit/Program.cs:42-53 | reports whether the session table has `UserId` |
| SchemaBootstrap.Database.ScanEntryColumns | BeFit/Program.cs:68-100 | reports, for each of five names, whether the entry table has it |
| SchemaBootstrap.Database.Alter | BeFit/Program.cs:57-58 | an `ALTER TABLE … ADD COLUMN` either throws and changes nothing, or adds its column |
| SchemaBootstrap.Database.Step | BeFit/Program.cs:55-59 | one guarded statement: issued exactly when its condition holds, applied unless it throws |
| SchemaBootstrap.Database.BootstrapSessions | BeFit/Program.cs:36-60 | the session part applies the session plan, or stops at its failing statement |
| SchemaBootstrap.Database.BootstrapEntries | BeFit/Program.cs:62-127 | the entry part applies the rest of the plan, or stops at the failing statement |
| SchemaBootstrap.Database.TwoSteps | BeFit/Program.cs:102-114 | two consecutive guarded statements applied in order |
| SchemaBootstrap.Database.FourSteps | BeFit/Program.cs:102-126 | four consecutive guarded statements applied in order, or a stop at the failing one |
| SchemaBootstrap.Database.LastFourSteps | BeFit/Program.cs:102-126 | the four entry statements that end the plan: all applied, or the ones before the failing statement |
| SchemaBootstrap.Database.Bootstrap | BeFit/Program.cs:24-147 | start-up ends with the whole plan applied, or, when statement k throws, with exactly the statements before k applied and the error logged |
| SchemaBootstrap.EfSchemaColumns | BeFit/Data/ApplicationDbContext.cs:49-57 | the tables `EnsureCreated` makes have `WeightKg` and `Reps` |
| SchemaBootstrap.FreshDatabaseGainsUnusedRepetitions | BeFit/Program.cs:122-126 | on a database `EnsureCreated` has just made, the only statement issued adds `Repetitions`, a column the model never reads |
| SchemaBootstrap.RepsNeverAdded | BeFit/Program.cs:122-126 | start-up never adds `Reps`, the column the model maps `Repetitions` to |
| SchemaBootstrap.LegacyTableStillLacksReps | BeFit/Program.cs:122-126 | a legacy entry table without `Reps` still lacks it after start-up |
| SchemaBootstrap.WeightKgNotAddedBesideWeight | BeFit/Program.cs:103-108 | a table with `Weight` but no `WeightKg` still lacks `WeightKg` after start-up |
| SchemaBootstrap.PlannedAddsCorrected | BeFit/Program.cs:102-126 | the corrected plan is exactly the statements whose column is missing, `Reps` instead of `Repetitions`, each once |
| SchemaBootstrap.CorrectedPlanCoversModel | BeFit/Data/ApplicationDbContext.cs:49-57 | after the corrected plan, every column the EF model reads exists |
| SchemaBootstrap.CorrectedPlanOnFreshDatabase | BeFit/Program.cs:27 | the corrected plan issues nothing on a database `EnsureCreated` has just made |
| SchemaBootstrap.CorrectedPlanIdempotent | BeFit/Program.cs:36-126 | a second run of the corrected plan issues nothing |
| ExerciseTypeDetail.NameError | BeFit.Mobile/ViewModels/ExerciseTypeDetailViewModel.cs:109-126 | the required message exactly for a blank name, the length message exactly for a non-blank name whose `Length` (UTF-16 code units) is over 80, none exactly when the record's attributes accept the name |
| ExerciseTypeDetail.AstralNameTooLong | BeFit.Mobile/ViewModels/ExerciseTypeDetailViewModel.cs:119-123 | a name of 41 characters beyond U+FFFF has `Length` 82 and gets the length message |
| ExerciseTypeDetail.SavedType | BeFit.Mobile/ViewModels/ExerciseTypeDetailViewModel.cs:85 | the saved name is the trimmed name, still valid, and its `Length` is no larger than that of the name checked |
| ExerciseTypeDetail.ResaveKeepsName | BeFit.Mobile/ViewModels/ExerciseTypeDetailViewModel.cs:85 | trimming is idempotent, so loading and saving again keeps the name |
| ExerciseTypeDetail.ExerciseTypeDetailViewModel.constructor | BeFit.Mobile/ViewModels/ExerciseTypeDetailViewModel.cs:17-37 | a new page: id 0, empty name, the new-type title, no message |
| ExerciseTypeDetail.ExerciseTypeDetailViewModel.SetExerciseTypeId | BeFit.Mobile/ViewModels/ExerciseTypeDetailViewModel.cs:17-18 | setting the same id changes nothing; a new positive id switches to editing and loads that type's name |
| ExerciseTypeDetail.ExerciseTypeDetailViewModel.OnExerciseTypeIdChanged | BeFit.Mobile/ViewModels/ExerciseTypeDetailViewModel.cs:40-48 | a positive id sets the edit title and loads the name; any other id changes nothing |
| ExerciseTypeDetail.ExerciseTypeDetailViewModel.LoadExerciseType | BeFit.Mobile/ViewModels/ExerciseTypeDetailViewModel.cs:54-68 | the name of the stored type with the page's id; none stored keeps the name |
| ExerciseTypeDetail.ExerciseTypeDetailViewModel.ValidateInput | BeFit.Mobile/ViewModels/ExerciseTypeDetailViewModel.cs:109-126 | the message shown is `NameError(name)`, and the check passes exactly when there is none |
| ExerciseTypeDetail.ExerciseTypeDetailViewModel.SaveAsync | BeFit.Mobile/ViewModels/ExerciseTypeDetailViewModel.cs:74-95 | the page closes exactly when the name is valid; it then inserts or replaces the trimmed type, and otherwise stores nothing |
| TrainingSessionDetail.FormSession | BeFit.Mobile/ViewModels/TrainingSessionDetailViewModel.cs:93-100 | the saved session joins each date with its time, and the page's check accepts exactly the sessions `Validate` accepts |
| TrainingSessionDetail.SplitSession | BeFit.Mobile/ViewModels/TrainingSessionDetailViewModel.cs:69-72 | loading splits each instant into a midnight and a time of day, and saving that form stores the same session |
| TrainingSessionDetail.InitialFormAsWritten | BeFit.Mobile/ViewModels/TrainingSessionDetailViewModel.cs:20-29 | the four pickers of a new page from four clock readings; the end keeps today's date |
| TrainingSessionDetail.InitialFormAsWrittenValidIff | BeFit.Mobile/ViewModels/TrainingSessionDetailViewModel.cs:26-29 | a new page as written passes its own check exactly before 23:00; from 23:00 on, its end lies 23 h before its start |
| TrainingSessionDetail.InitialForm | BeFit.Mobile/ViewModels/TrainingSessionDetailViewModel.cs:20-29 | the corrected new form runs from now to an hour later, passes the check, and equals the form as written before 23:00 |
| TrainingSessionDetail.TrainingSessionDetailViewModel.constructor | BeFit.Mobile/ViewModels/TrainingSessionDetailViewModel.cs:16-46 | a new page as written: id 0, the four pickers from the four clock readings of the field initialisers (so from 23:00 on the form ends before it starts), the new-session title, no message |
| TrainingSessionDetail.TrainingSessionDetailViewModel.SetSessionId | BeFit.Mobile/ViewModels/TrainingSessionDetailViewModel.cs:16-17 | setting the same id changes nothing; a new positive id switches to editing and loads that session |
| TrainingSessionDetail.TrainingSessionDetailViewModel.OnSessionIdChanged | BeFit.Mobile/ViewModels/TrainingSessionDetailViewModel.cs:48-56 | a positive id sets the edit title and loads; any other id changes nothing |
| TrainingSessionDetail.TrainingSessionDetailViewModel.LoadTrainingSession | BeFit.Mobile/ViewModels/TrainingSessionDetailViewModel.cs:62-79 | the pickers show the split stored session; none stored keeps the form |
| TrainingSessionDetail.TrainingSessionDetailViewModel.ValidateInput | BeFit.Mobile/ViewModels/TrainingSessionDetailViewModel.cs:121-135 | passes exactly when the end is after the start, and shows the date message exactly when it fails |
| TrainingSessionDetail.TrainingSessionDetailViewModel.SaveAsync | BeFit.Mobile/ViewModels/TrainingSessionDetailViewModel.cs:85-107 | closes exactly when the form is valid; it then inserts or replaces a session that passes `Validate`, and otherwise stores nothing |
| TrainingEntryDetail.Errors | BeFit.Mobile/ViewModels/TrainingEntryDetailViewModel.cs:167-208 | each field's message is set exactly when its own check fails, and none is set exactly when the form is valid |
| TrainingEntryDetail.FormEntry | BeFit.Mobile/ViewModels/TrainingEntryDetailViewModel.cs:136-144 | a valid form saves the chosen session and type ids and the entered values, which pass the record's ranges |
| TrainingEntryDetail.PageStricterOnWeight | BeFit.Mobile/ViewModels/TrainingEntryDetailViewModel.cs:189-193 | the page refuses weights the record's `[Range]` accepts (1000.25, -0.25), and agrees on counts |
| TrainingEntryDetail.EditedRow | BeFit.Mobile/ViewModels/TrainingEntryDetailViewModel.cs:105-108 | the entry being edited: a stored entry with the page's positive id, or none |
| TrainingEntryDetail.LoadedForm | BeFit.Mobile/ViewModels/TrainingEntryDetailViewModel.cs:104-116 | with no stored entry under the page's positive id the form keeps its values; otherwise it shows that entry's weight, sets and repetitions, and each picker holds a stored row with the entry's session or type id exactly when one exists |
| TrainingEntryDetail.TrainingEntryDetailViewModel.constructor | BeFit.Mobile/ViewModels/TrainingEntryDetailViewModel.cs:17-65 | a new page: no selections, weight 0, one set, one repetition, no messages |
| TrainingEntryDetail.TrainingEntryDetailViewModel.SetEntryId | BeFit.Mobile/ViewModels/TrainingEntryDetailViewModel.cs:17-18 | setting the same id changes nothing; a new id reloads the pickers and the form as `LoadedForm` says and, for a positive id, switches to editing; the five messages are kept |
| TrainingEntryDetail.TrainingEntryDetailViewModel.OnEntryIdChanged | BeFit.Mobile/ViewModels/TrainingEntryDetailViewModel.cs:70-78 | a positive id sets the edit title; every id reloads the page |
| TrainingEntryDetail.TrainingEntryDetailViewModel.LoadData | BeFit.Mobile/ViewModels/TrainingEntryDetailViewModel.cs:84-122 | the pickers are the sorted sessions and types, the form is `LoadedForm` of the stored rows and the form it had, and no row changes |
| TrainingEntryDetail.TrainingEntryDetailViewModel.ShowEntry | BeFit.Mobile/ViewModels/TrainingEntryDetailViewModel.cs:105-115 | the selections are the stored session and type with the entry's ids, and the fields are its values |
| TrainingEntryDetail.TrainingEntryDetailViewModel.ValidateInput | BeFit.Mobile/ViewModels/TrainingEntryDetailViewModel.cs:167-208 | the messages shown are `Errors(...)`, and the check passes exactly when the form is valid |
| TrainingEntryDetail.TrainingEntryDetailViewModel.SaveAsync | BeFit.Mobile/ViewModels/TrainingEntryDetailViewModel.cs:128-153 | closes exactly when the form is valid; it then inserts or replaces `FormEntry`, and otherwise stores nothing; only the five messages of the page change |

## Left out

- **Asynchrony and UI:**
  - `async`/`await` is left out; every operation is one atomic step.
  - Alerts (`DisplayAlert`), Shell navigation (`GoToAsync`) and the Cancel commands are left out. Exceptions caught by the pages are left out, except the start-up catch, which is modelled.
  - Page code-behind, `AppShell`, `MainPage`, `MauiProgram` and `StringNotEmptyConverter` only wire the UI.
- **List pages:** the mobile list view-models (`ExerciseTypesViewModel`, `TrainingSessionsViewModel`, `TrainingEntriesViewModel`) only call the service and refill lists. Only the delete guard is modelled, as `MobileStore.DatabaseService.DeleteExerciseTypeIfUnused`.
- **Property-change notifications:** they are left out. `ObservableCollection` pickers are sequences. A generated setter is modelled as `SetEntryId` and its siblings: its change hook runs only when the value differs.
- **Web framework:**
  - Identity, role seeding, the HTTP pipeline, anti-forgery tokens and `[Authorize]` are left out.
  - The signed-in user is an `Option<string>`.
  - The controllers' GET forms for Create, Edit and Delete are modelled only through the `Details` lookup, because they only build `SelectList`s.
- **Database errors:**
  - `DbUpdateConcurrencyException` and `DbUpdateException` are not modelled.
  - A failed insert is a `ServerError` result.
- **Formatting:** date and number formatting in `DisplayText` and the views is left out. `MobileModels.DisplayLabel` models only the name part of an entry's text.
- **Numbers:**
  - Floating point is `real`: no NaN, no infinities and no rounding, and an average is exact.
  - `Stats.Aggregate`: `TotalRepetitions` is an unbounded sum, so the source's 32-bit `int` overflow is not modelled.
  - `Annotations.RoundHalfEven` does not model the overflow exception `Convert.ToInt32` throws outside the `int` range.
- **Clock:** the clock is a parameter.
  - `MobileModels.NewTrainingSession` takes its two readings of `DateTime.Now`.
  - The session page's constructor takes the four readings its field initialisers make and builds `TrainingSessionDetail.InitialFormAsWritten` from them. The corrected form is `TrainingSessionDetail.InitialForm` (see Findings).
- **Row order:** for rows with equal sort keys, the order SQLite or EF returns is unspecified. The model fixes one, a stable insertion sort, and its contracts state only sortedness and permutation.
- **Text:** messages are plain strings, or enums with their Polish text. There is no culture or normalisation. `Text.IsWhiteSpace` lists the Unicode white-space characters .NET recognises.
- **`SchemaBootstrap.Database.Bootstrap`:** it models the start-up code as written. The corrected plan is stated and proved as a specification (`PlannedAddsCorrected`) beside it.

## Findings

| source | as written | input that shows it | evidently intended | confidence | as-written member | corrected member |
|---|---|---|---|---|---|---|
| BeFit/Program.cs:122-126 | the repair checks for and adds a `Repetitions` column | a database that `EnsureCreated` has just made: the entry table has `Reps`, and start-up adds an unused `Repetitions`. A legacy entry table without `Reps` stays without it, and EF's reads of `Reps` fail | check for and add `Reps`, the column ApplicationDbContext.cs:54-57 maps `Repetitions` to | not executed | SchemaBootstrap.FreshDatabaseGainsUnusedRepetitions | SchemaBootstrap.CorrectedPlanOnFreshDatabase |
| BeFit/Program.cs:103-108 | no `WeightKg` is added when a `Weight` column exists | an entry table with `Weight` and no `WeightKg`: after start-up it still has no `WeightKg`, which EF reads for `Weight` | add `WeightKg` whenever it is missing | not executed | SchemaBootstrap.WeightKgNotAddedBesideWeight | SchemaBootstrap.CorrectedPlanCoversModel |
| BeFit/Controllers/TrainingSessionsController.cs:151 | the Edit action requires `ModelState.IsValid` on a form whose `[Bind]` omits the `[Required] UserId` | any Edit form, e.g. id 1, start 10:00, end 11:00: `UserId` is empty, so the form is shown again and nothing is saved | validate only the bound fields and `Validate`, then save | not executed | TrainingSessionsController.EditModelStateNeverValid | TrainingSessionsController.EditCorrected |
| BeFit/Controllers/TrainingEntriesController.cs:202 | the same for entries: `[Bind]` omits `UserId`, which is `[Required]` | any Edit form, e.g. weight 50, 3 sets of 10: the form is shown again and nothing is saved | validate only the bound fields, then save | not executed | TrainingEntriesController.EditModelStateNeverValid | TrainingEntriesController.EditCorrected |
| BeFit.Mobile/ViewModels/TrainingSessionDetailViewModel.cs:26-29 | a new session ends on today's date at the time of day one hour from now | the page opened any day at 23:30: it proposes 23:30 to 00:30 of the same day, 23 h before the start, and its own check refuses it | end one hour after the start, on the next day when that crosses midnight | not executed | TrainingSessionDetail.InitialFormAsWrittenValidIff | TrainingSessionDetail.InitialForm |
