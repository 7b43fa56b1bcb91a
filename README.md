# Workout store model

A Dafny model of the data layer of whoop-performance-tracker, a workout
logging app. The data layer has three parts:

- **The on-device store** (`lib/db.native.ts`). An SQLite database with two
  tables: `workouts(id, exercise, date)` and
  `sets(id, workout_id, weight?, reps?, distance?, seconds?)`. Both `id`
  columns are AUTOINCREMENT, and `workout_id` references `workouts(id)` with
  `ON DELETE CASCADE`. The model covers:
  - the transactional `addWorkout`, `deleteWorkout` and `resetDatabase`;
  - the look-ups `getWorkoutById`, `getWorkouts` (exercise compared with
    `COLLATE NOCASE`, newest first), `getSets` (id order), `getLastWorkout`
    and `getTodayWorkout`;
  - the three record queries;
  - the per-day history `getExerciseStatsHistory`.
- **The web fallback store** (`lib/db.web.ts`). A key-value store that maps
  `hist:<exercise>` to a list of `{date, weight, reps}` entries. It has
  `addWorkout`, which appends an entry, and a date-range
  `getExerciseStatsHistory`.
- **The backend workout routes** (`backend/routes/workouts.js`). Three
  Express handlers over PostgreSQL:
  - `POST /workouts` inserts one workout, then inserts all the sets with a
    single multi-row statement whose placeholder text and parameter array
    are computed. It does both inside one transaction.
  - `GET /workouts` lists the caller's workouts, newest first.
  - `DELETE /workouts/:id` deletes a workout only when its owner is the
    caller.

## Layout

| file | module | contents |
|---|---|---|
| `common.dfy` | `Common` | `Option` (SQL NULL / JavaScript `null`) and `Date` |
| `collation.dfy` | `Collation` | SQLite's `NOCASE` collation (ASCII case folding) |
| `seqs.dfy` | `Seqs` | the evaluator's building blocks: filter, stable sort descending, `find`, distinct ascending |
| `native_schema.dfy` | `NativeSchema` | rows of the two SQLite tables, their invariant (keys, counters, foreign key), and the row changes of insert and delete |
| `native_store.dfy` | `NativeStore` | the on-device database as a class: `AddWorkout`, `DeleteWorkout`, `ResetDatabase` |
| `native_queries.dfy` | `NativeQueries` | the read queries, the workout/set join, the record queries |
| `native_history.dfy` | `NativeHistory` | per-day aggregation and the `getExerciseStatsHistory` loop |
| `web_store.dfy` | `WebStore` | the `hist:<exercise>` store as a class with a map field |
| `sql_text.dfy` | `SqlText` | decimal rendering of numbers and how PostgreSQL reads `$n` placeholders out of statement text |
| `insert_builder.dfy` | `InsertBuilder` | the `VALUES` text and `params` array of the POST handler, and which rows PostgreSQL inserts from them |
| `workouts_route.dfy` | `WorkoutsRoute` | the three handlers on a model of the two PostgreSQL tables |

## Modelling choices

- **Dates.** The source stores workout dates as fixed-width `YYYY-MM-DD`
  strings and compares them as strings. The model uses the integer
  `YYYYMMDD`. Between two such dates it compares the same way. A range
  bound that is a full timestamp rather than a date is a different case
  (see `NativeHistory.GetExerciseStatsHistory` under Left out).
- **Numbers.** Weights, reps, distance and seconds are unbounded integers;
  nullable columns are `Option<int>`.
- **NOCASE.** SQLite folds only the ASCII letters `A`–`Z`, and so does
  `Collation.Fold`.
- **NULL semantics.** The model follows SQL:
  - `SUM` skips NULL terms and is NULL when every term is NULL.
  - `MAX` ignores NULL.
  - `s.weight = NULL` matches nothing, so `reps` becomes `0`
    (`RepsAtTopWeight`).
- **Ties.** `ORDER BY ... LIMIT 1` and `ORDER BY date DESC` leave the order
  of equal keys to the engine. The model picks table (id) order: the sort
  is stable, and each record query takes the first best set.
- **Failures.** A database that rejects a statement is modelled by a
  `failing` parameter that names the rejected statement. Both
  transactions work on copies of the tables. COMMIT publishes the copies;
  ROLLBACK drops them.
- **The PostgreSQL id sequence.** A sequence is not transactional. Once
  the workout INSERT has drawn an id, that id stays used even when the
  transaction rolls back (`RemoteDb.lastId`). A rejected workout INSERT
  is taken to fail before it draws the id, so `lastId` stays unchanged.
  A constraint violation detected after `nextval` would use up an id
  instead; the model does not capture that case.
- **The multi-row INSERT.** The route builds its INSERT as text, so the
  model also builds the text. `SqlText.Scan` reads the placeholder numbers
  out of that text: a `$` followed by a run of digits. Unlike PostgreSQL's
  lexer, it does not skip quoted literals, comments or dollar-quoted
  strings. The route's text contains none of these. The statement is
  accepted only if:
  - every placeholder names a parameter, and
  - every parameter is referenced.

  The second condition comes from binding, not lexing: PostgreSQL cannot
  infer the type of an unreferenced parameter, so it rejects the
  statement. An accepted statement inserts one row per five placeholders
  (`InsertBuilder.InsertedRows`). The parentheses and commas that group the
  placeholders into tuples are not checked. The tuple shape is instead
  established for the text `ValuesText` builds (`ScanTuple`,
  `ScanValues`). A statement with more than 65535 parameters
  (`InsertBuilder.MaxParams`) is rejected too, because the Bind message of
  PostgreSQL's wire protocol carries the parameter count in 16 bits. A
  POST with 16384 sets or more therefore answers 500. The main theorem,
  `InsertBuilder.InsertsIntendedRows`, states that the computed text and
  parameters insert exactly one row per input set, in input order, whenever
  they fit that limit. `StatementInsertsIntendedRows` carries this to the
  whole statement text, whose fixed prefix holds no `$`. Each row
  holds the new workout id and that set's fields.
- **JavaScript values.** Request-body values are `InsertBuilder.Json`, and
  `Truthy` is JavaScript's `!!`. The route's table model treats the
  `sets(workout_id)` column as a foreign key to `workouts(id)` with
  `ON DELETE CASCADE`, and `workouts(id)` as a serial column.
  `backend/routes/workouts.js` does not create its tables, so this part of
  the schema is an assumption of the model (see Left out).

## Model

| member | source | states |
|---|---|---|
| Collation.Fold | lib/db.native.ts:119 | NOCASE folding keeps the length, leaves no ASCII upper-case letter, and changes a character only by mapping `A`–`Z` to `a`–`z` |
| Collation.FoldIdempotent | lib/db.native.ts:119 | folding twice is folding once, so NOCASE equality is an equivalence on folded names |
| Collation.NoCaseEqPointwise | lib/db.native.ts:119 | two names are NOCASE-equal iff they have the same length and agree character by character after folding |
| Seqs.SortDesc | lib/db.native.ts:120 | `ORDER BY date DESC` yields a sequence sorted by descending key that is a permutation of its input |
| Seqs.Find | lib/db.native.ts:138 | `Array.prototype.find`: none iff no element satisfies the predicate, otherwise the first element that does |
| Seqs.FilterIsSubsequence | lib/db.web.ts:24 | `Array.prototype.filter` keeps a subsequence of its input, in order |
| Seqs.DistinctAscending | lib/db.native.ts:230-231 | `GROUP BY ... ORDER BY` on dates yields each distinct date once, in strictly ascending order, and no other value |
| NativeSchema.TablesValid | lib/db.native.ts:30-43 | the schema's guarantees: ids strictly ascending in rowid order and never above the AUTOINCREMENT counter, and every set's `workout_id` naming a stored workout |
| NativeSchema.NewSetRows | lib/db.native.ts:80-92 | one row per input, in input order; the k-th has id `firstId + k`, the new workout's id, and the k-th input's fields, a missing field stored as NULL |
| NativeSchema.InsertKeepsValid | lib/db.native.ts:30-43 | appending a workout with the next id and its set rows with the next set ids keeps ids ascending, within the counters, and every `workout_id` pointing at an existing workout |
| NativeSchema.RemoveWorkout | lib/db.native.ts:110-113 | `DELETE FROM workouts WHERE id = ?` keeps exactly the rows with another id, in their order |
| NativeSchema.CascadeSets | lib/db.native.ts:37-38 | `ON DELETE CASCADE` keeps exactly the sets that reference another workout, in their order |
| NativeSchema.DeleteKeepsValid | lib/db.native.ts:37-38 | deleting a workout with its cascade keeps the table invariant, including the foreign key |
| NativeStore.Store.constructor | lib/db.native.ts:29-45 | a fresh database has both tables empty and both counters at 0 |
| NativeStore.Store.AddWorkout | lib/db.native.ts:68-99 | commits iff no INSERT fails; on commit, one workout row with the next id and one set row per input, in input order, all referencing it; on failure, tables and counters as before |
| NativeStore.InsertSets | lib/db.native.ts:80-92 | the loop succeeds iff no set INSERT fails, and then appends exactly the new set rows and advances the set counter by their number |
| NativeStore.Store.DeleteWorkout | lib/db.native.ts:110-113 | the workout with that id goes; its sets go with it; counters are unchanged |
| NativeStore.Store.ResetDatabase | lib/db.native.ts:48-65 | in development, empties both tables and resets both counters; otherwise changes nothing |
| NativeStore.AddedWorkoutById | lib/db.native.ts:76-79 | after the insert, `getWorkoutById` of the new id returns the new row |
| NativeStore.ByIdAfterAppend | lib/db.native.ts:102-108 | a row appended with an id above every stored id is what `getWorkoutById` finds for that id |
| NativeStore.AddedSetsReadBack | lib/db.native.ts:125-131 | after the insert, `getSets` of the new id returns exactly the new set rows in input order, and `getSets` of any other workout is unchanged |
| NativeStore.GetSetsConcat | lib/db.native.ts:128 | the sets of a workout in two concatenated tables are those of each part, in order |
| NativeStore.DeleteRemovesWorkout | lib/db.native.ts:110-113 | after the delete, the id is not found, it has no sets, `getWorkouts` never returns it, and every other workout and set is kept |
| NativeStore.DeleteUnknownIsNoOp | lib/db.native.ts:110-113 | deleting an id no workout has changes neither table |
| NativeQueries.GetWorkoutById | lib/db.native.ts:102-108 | null iff no workout has the id, otherwise a stored row with that id |
| NativeQueries.GetWorkouts | lib/db.native.ts:115-123 | exactly the workouts whose exercise is NOCASE-equal to the argument, as a multiset, sorted by date descending |
| NativeQueries.GetWorkoutsNoCase | lib/db.native.ts:119 | NOCASE-equal exercise names give the same list |
| NativeQueries.GetSets | lib/db.native.ts:125-131 | exactly the sets with that `workout_id`, as a multiset |
| NativeQueries.GetSetsInIdOrder | lib/db.native.ts:128 | the sets come in strictly ascending id order |
| NativeQueries.GetLastWorkout | lib/db.native.ts:136-139 | null iff no matching workout is dated before today, otherwise a matching workout before today with the latest such date |
| NativeQueries.GetTodayWorkout | lib/db.native.ts:141-144 | null iff no matching workout is dated today, otherwise a matching workout dated today |
| NativeQueries.LatestMatch | lib/db.native.ts:136-144 | the first element of a date-descending list that satisfies a test has the latest date among those that satisfy it |
| NativeQueries.JoinOne | lib/db.native.ts:158 | one set joins with the dates of exactly the workouts it references that have the exercise |
| NativeQueries.Join | lib/db.native.ts:157-159 | the inner join holds a (set, date) pair iff the set is stored and references a stored workout of that exercise and date; workouts without sets contribute nothing (how often each pair occurs is `NativeHistory.JoinCountsEachSetOnce`) |
| NativeQueries.JoinNoCase | lib/db.native.ts:159 | under NOCASE, equal-folding exercise names give the same join |
| NativeQueries.Candidates | lib/db.native.ts:156-160 | the candidate (value, date) pairs are exactly the metrics that are not NULL in the joined rows |
| NativeQueries.Extreme | lib/db.native.ts:161-162 | `ORDER BY ... LIMIT 1`: none iff there is no candidate, otherwise a candidate at least as good as every other |
| NativeQueries.GetPersonalRecord | lib/db.native.ts:147-167 | null iff no joined set has the metric non-null; otherwise the value is some joined set's metric on the returned date and is at least (max) or at most (min) every non-null metric |
| NativeQueries.GetMaxWeightForReps | lib/db.native.ts:169-188 | null iff no joined set has exactly the target reps and a weight; otherwise the returned weight is attained by such a set on the returned date and no such set weighs more |
| NativeQueries.GetMaxRepsForWeight | lib/db.native.ts:190-209 | null iff no joined set has exactly the target weight and a rep count; otherwise the returned reps are attained by such a set on the returned date and no such set has more |
| NativeQueries.RecordFromCandidates | lib/db.native.ts:153-166 | the best candidate is a record of the join: it is attained by a joined set and bounds every other |
| NativeQueries.RecordsNoCase | lib/db.native.ts:159 | the three record queries give the same answer for NOCASE-equal exercise names |
| NativeHistory.SetsOn | lib/db.native.ts:229-230 | a set is in one date's group iff the join pairs it with that date |
| NativeHistory.SetsOnMultiset | lib/db.native.ts:229-230 | a date's group holds each set exactly as often as the joined rows pair it with that date |
| NativeHistory.SetsOnConcat | lib/db.native.ts:229-230 | grouping the rows of two joins is grouping each and concatenating |
| NativeHistory.JoinOneOfAbsent | lib/db.native.ts:158 | a set whose `workout_id` no workout has joins no row |
| NativeHistory.JoinOneOn | lib/db.native.ts:157-159 | with unique workout ids, one set contributes itself once to a date's group iff its workout has the exercise and that date, and nothing otherwise |
| NativeHistory.DaySetsAreSetsOfDay | lib/db.native.ts:224-230 | with unique workout ids, a date's group is the `sets` table filtered to the sets of a workout of the exercise on that date: each stored set once, in table order |
| NativeHistory.JoinCountsEachSetOnce | lib/db.native.ts:224-230 | with unique workout ids, the join and the date's group each hold a stored set as many times as the table does when its workout has the exercise and that date, and never otherwise |
| NativeHistory.DaySetsAreSetsOfDayIf | lib/db.native.ts:224-230 | the same for every date, whenever workout ids are unique |
| NativeHistory.Product | lib/db.native.ts:224 | `s.weight * s.reps` is non-NULL iff both factors are, and then it is their product |
| NativeHistory.AddSkippingNull | lib/db.native.ts:224 | inside SUM a NULL term is skipped: the sum is NULL iff both terms are, and a NULL term leaves the other |
| NativeHistory.Volume | lib/db.native.ts:224 | `SUM(s.weight * s.reps)` is NULL iff every product has a NULL factor |
| NativeHistory.VolumeConcat | lib/db.native.ts:224 | the SUM over two groups of sets is the NULL-skipping sum of the two SUMs |
| NativeHistory.TopWeight | lib/db.native.ts:225 | `MAX(s.weight)` is NULL iff every weight is NULL, otherwise a weight of the group that no weight exceeds |
| NativeHistory.DatesBetween | lib/db.native.ts:229-231 | the dates of the joined rows inside the inclusive range, one per row, in row order: as a set, exactly the in-range dates that have a joined set |
| NativeHistory.Aggregate | lib/db.native.ts:222-230 | each group row holds its date, the SUM of the products and the MAX weight of that date's sets |
| NativeHistory.GroupRows | lib/db.native.ts:220-234 | one row per date in the range with a set of the exact (case-sensitive) exercise, strictly ascending, none missing, with that day's volume and top weight; with unique workout ids, these are the SUM and MAX over the table's sets of that day, each counted once |
| NativeHistory.GroupRowsDays | lib/db.native.ts:228-231 | every group date is in range and had a set; every date in range with a set has a group |
| NativeHistory.RepsAtTopWeight | lib/db.native.ts:238-251 | 0 when the top weight is NULL; otherwise the reps (0 for NULL) of a set of that day weighing exactly the top weight, and 0 when no set of that day has that weight |
| NativeHistory.TopWeightAttained | lib/db.native.ts:238-245 | a non-NULL top weight is the weight of some set of that day, so the follow-up look-up finds a row |
| NativeHistory.IsStatsHistory | lib/db.native.ts:218-253 | the promise of the history query: one entry per trained date in the range, strictly ascending, none missing, with that day's volume, top weight and reps at the top weight; with unique workout ids the volume and top weight are taken over the table's sets of that day, each counted once |
| NativeHistory.GetExerciseStatsHistory | lib/db.native.ts:214-255 | the loop's list has one entry per trained date in the range, strictly ascending, each with that day's SUM volume and MAX weight (over each stored set of the day once, as the primary key makes workout ids unique) and the reps of a set at that weight, 0 when the weight is NULL |
| NativeHistory.PushStats | lib/db.native.ts:236-253 | the loop pushes, for each group row in order, its date and aggregates with the reps looked up for its top weight |
| NativeHistory.HistoryValues | lib/db.native.ts:236-253 | a list whose entries are the group rows completed with their reps has all the properties the loop promises |
| WebStore.KeyInjective | lib/db.web.ts:11 | distinct exercises have distinct keys `hist:<exercise>` |
| WebStore.Stored | lib/db.web.ts:12 | `getItem(key) ?? []`: the stored list, or the empty list when the key is absent |
| WebStore.EntryFor | lib/db.web.ts:13 | the pushed entry has the given date and the first set's weight and reps, none when there is no first set |
| WebStore.Store.constructor | lib/db.web.ts:4 | the store opens holding exactly the persisted lists, which are a parameter (empty on a first run) |
| WebStore.Store.AddWorkout | lib/db.web.ts:6-15 | the exercise's list (empty when not yet stored) gains exactly that entry at its end; every other key keeps its value |
| WebStore.GetExerciseStatsHistory | lib/db.web.ts:17-25 | exactly the stored entries dated within the inclusive range, kept with multiplicity and in stored order |
| WebStore.AddAppends | lib/db.web.ts:11-14 | after an add, the stored list is the earlier list with the new entry at its end |
| WebStore.AddKeepsOtherExercises | lib/db.web.ts:11-14 | an add for one exercise leaves the list of every other exercise unchanged |
| WebStore.EmptyHistory | lib/db.web.ts:23 | an exercise with nothing stored has an empty history |
| WebStore.HistoryAfterAdd | lib/db.web.ts:11-24 | after an add, the history is the earlier history, followed by the new entry exactly when its date is in range |
| SqlText.Digits | backend/routes/workouts.js:36 | a number renders as a non-empty run of decimal digits |
| SqlText.ValueOfDigits | backend/routes/workouts.js:36 | reading back the rendered digits gives the number |
| SqlText.Scan | backend/routes/workouts.js:47-51 | the placeholder numbers the database reads from statement text: each `$` followed by digits, left to right (its properties are the lemmas below) |
| SqlText.DigitRun | backend/routes/workouts.js:47-51 | the lexer's digit run is a maximal prefix of digits |
| SqlText.ScanConcat | backend/routes/workouts.js:47-51 | the placeholders of concatenated text are those of each part, when the second part does not continue a numeral |
| SqlText.ScanPlaceholder | backend/routes/workouts.js:36 | the text `$n` holds exactly the placeholder `n` |
| SqlText.ScanSkip | backend/routes/workouts.js:36 | a character other than `$` adds no placeholder |
| SqlText.NoDollarConcat | backend/routes/workouts.js:48-49 | two `$`-free texts joined are `$`-free |
| SqlText.ScanPlainPrefix | backend/routes/workouts.js:48-49 | a `$`-free text in front of a statement adds no placeholder to it |
| SqlText.ScanPlain | backend/routes/workouts.js:36 | text without `$` holds no placeholder |
| InsertBuilder.Truthy | backend/routes/workouts.js:44 | JavaScript `!!v`: false exactly for `undefined`, `null`, `false`, `0` and `""` |
| InsertBuilder.ValuesText | backend/routes/workouts.js:33-38 | the `values` text for n sets, whose placeholders, read left to right, are tuple 0's, then tuple 1's, and so on |
| InsertBuilder.SetParams | backend/routes/workouts.js:40-45 | four parameters per set, the last always a boolean that is true iff `is_top_set` is truthy |
| InsertBuilder.FlatParams | backend/routes/workouts.js:40-45 | `flatMap` gives four parameters per set |
| InsertBuilder.Params | backend/routes/workouts.js:39-46 | `params` has 1+4n entries and starts with the workout id |
| InsertBuilder.Indices | backend/routes/workouts.js:33-38 | the placeholder list of n tuples has 5n entries |
| InsertBuilder.Bind | backend/routes/workouts.js:47-51 | placeholder `$k` takes the k-th parameter |
| InsertBuilder.TupleRows | backend/routes/workouts.js:47-51 | a statement yields one row per five placeholders |
| InsertBuilder.InsertedRows | backend/routes/workouts.js:47-51 | PostgreSQL inserts only if there are at most 65535 parameters, every placeholder names a parameter and every parameter is used, and then one row per tuple |
| InsertBuilder.IntendedRows | backend/routes/workouts.js:39-51 | one row per input set, in input order, with the workout id, the set's exercise, reps and weight, and `!!is_top_set` |
| InsertBuilder.ScanPlaceholderList | backend/routes/workouts.js:36 | `$k1, $k2, ...` holds exactly the placeholders `k1, k2, ...` |
| InsertBuilder.ScanTuple | backend/routes/workouts.js:35-36 | tuple i holds exactly `$1, $(4i+2), $(4i+3), $(4i+4), $(4i+5)` |
| InsertBuilder.ScanValues | backend/routes/workouts.js:33-38 | the comma-joined tuples hold exactly the tuples' placeholders, tuple after tuple |
| InsertBuilder.IndicesAt | backend/routes/workouts.js:33-38 | entries 5i to 5i+4 of the placeholder list are tuple i's |
| InsertBuilder.TupleCount | backend/routes/workouts.js:36 | tuple i uses `$1` once, `$(4i+2)`–`$(4i+5)` once each, and nothing else |
| InsertBuilder.IndicesCount | backend/routes/workouts.js:33-38 | over n tuples, `$1` occurs n times, each of `$2`–`$(4n+1)` exactly once, and no other placeholder occurs |
| InsertBuilder.IndicesRange | backend/routes/workouts.js:33-38 | the placeholders are exactly 1 to 4n+1 |
| InsertBuilder.FlatParamsAt | backend/routes/workouts.js:40-45 | the flattened set fields have 4 entries per set, set i's j-th field at position 4i+j |
| InsertBuilder.ParamAt | backend/routes/workouts.js:39-46 | `params` has length 1+4n, starts with the workout id, and holds set i's exercise, reps, weight and `!!is_top_set` at 4i+1 to 4i+4 |
| InsertBuilder.AcceptsParams | backend/routes/workouts.js:36-46 | for at least one set, the built statement is accepted iff its 1+4n parameters are at most 65535; every placeholder lies in 1..params.length and every parameter is used |
| InsertBuilder.BindTuple | backend/routes/workouts.js:36-46 | tuple i binds to the workout id followed by set i's four parameters |
| InsertBuilder.IndicesWithin | backend/routes/workouts.js:36-46 | every placeholder of the first m tuples names a parameter |
| InsertBuilder.TupleRowsAppend | backend/routes/workouts.js:47-51 | one more tuple of placeholders yields one more row |
| InsertBuilder.RowOfTuple | backend/routes/workouts.js:36-46 | tuple i yields set i's intended row |
| InsertBuilder.TupleRowsOfIndices | backend/routes/workouts.js:33-51 | the first m tuples yield the intended rows of the first m sets |
| InsertBuilder.TupleRowsStep | backend/routes/workouts.js:33-51 | the rows of m−1 tuples extend to those of m tuples |
| InsertBuilder.InsertPrefixPlain | backend/routes/workouts.js:48-49 | the statement text in front of the `values` list holds no `$` |
| InsertBuilder.StatementInsertsIntendedRows | backend/routes/workouts.js:47-51 | the full statement text the handler sends, prefix and `values` list, inserts exactly the intended rows when 1+4n ≤ 65535, and is rejected otherwise |
| InsertBuilder.InsertsIntendedRows | backend/routes/workouts.js:32-51 | for a non-empty list of n sets, the built text and params insert exactly the intended rows when 1+4n ≤ 65535, and are rejected otherwise |
| WorkoutsRoute.TablesValid | backend/routes/workouts.js:26-30 | the assumed schema's guarantees: workout ids strictly ascending and within the sequence, and every set's `workout_id` a number naming a stored workout |
| WorkoutsRoute.ListWorkouts | backend/routes/workouts.js:66-77 | exactly the caller's workouts, as a multiset, sorted by date descending |
| WorkoutsRoute.RemoveOwned | backend/routes/workouts.js:83-86 | a row is kept iff it is not the one with both that id and that owner; id order is kept |
| WorkoutsRoute.CascadeOwned | backend/routes/workouts.js:83-86 | when a row was deleted, every set referencing another workout remains, as many times as it was stored, and no other; the remaining sets keep their order; otherwise all sets remain |
| WorkoutsRoute.ParseId | backend/routes/workouts.js:84 | the id text converts iff it is a non-empty run of decimal digits |
| WorkoutsRoute.ParseIdOfDigits | backend/routes/workouts.js:84 | the decimal rendering of an id converts back to that id |
| WorkoutsRoute.RemoteDb.constructor | backend/routes/workouts.js:7 | the database starts with empty tables and an unused id sequence |
| WorkoutsRoute.RemoteDb.PostWorkout | backend/routes/workouts.js:20-63 | 201 iff the workout INSERT succeeds and, when there are sets, the sets INSERT succeeds and has at most 65535 parameters (fewer than 16384 sets); on 201, one workout row with the next id and exactly the intended set rows appended; on 500, both tables as before |
| WorkoutsRoute.RemoteDb.DeleteWorkout | backend/routes/workouts.js:81-92 | 204 iff the statement runs; then only the workout with both that id and that owner is removed, and its sets with it; on 500, nothing changes |
| WorkoutsRoute.PostKeepsValid | backend/routes/workouts.js:24-57 | appending the new workout and its rows keeps ids unique, within the sequence, and every set pointing at a workout |
| WorkoutsRoute.DeleteKeepsValid | backend/routes/workouts.js:83-86 | the owner-scoped delete with its cascade keeps that invariant |
| WorkoutsRoute.UniqueIds | backend/routes/workouts.js:26-30 | in a valid table two rows with the same id are the same row |
| WorkoutsRoute.DeleteSparesOtherUsers | backend/routes/workouts.js:83-86 | a delete by one user never changes any other user's list |
| WorkoutsRoute.DeleteOfForeignIdIsNoOp | backend/routes/workouts.js:83-86 | deleting an id the caller does not own changes neither table |
| WorkoutsRoute.DeleteRemovesOwned | backend/routes/workouts.js:83-86 | after deleting an owned workout, no workout has that id and no set references it |
| WorkoutsRoute.PostIsListed | backend/routes/workouts.js:66-77 | a posted workout appears in its owner's list |
| WorkoutsRoute.PostSparesOtherUsers | backend/routes/workouts.js:66-77 | a post by one user leaves every other user's list unchanged |

## Left out

- The database drivers are left out: expo-sqlite and pg, the shared
  connection promise, `PRAGMA foreign_keys = ON`, pooling and
  `client.release`. The tables are plain state, and foreign keys are
  always enforced.
- Promises and async sequencing are left out. Every operation is atomic
  and runs alone, so interleavings and races are not modelled.
- The clock is left out: `todayStr()` reads the wall clock, so `today` is
  a parameter of `GetLastWorkout` and `GetTodayWorkout`.
- REAL arithmetic is left out. Weights, distances and seconds are
  integers, so rounding in `weight * reps` is not modelled.
- NativeHistory.GetExerciseStatsHistory: its bounds are calendar days. The
  only caller (`app/(tabs)/progress.tsx`) passes full ISO timestamps
  (`toISOString()`). Under BINARY text comparison, a date sorts before a
  timestamp of the same day, so the query then covers (startDay, endDay]:
  the start day is excluded and the end day included. With integer dates
  that is the model's inclusive range from the day after `startDay` to
  `endDay`. The model does not represent timestamp-valued bounds.
- Date parsing and validation are left out. A date is already the integer
  form of a well-formed `YYYY-MM-DD` string. This holds for the route's
  body `date` too.
- The exact order of rows with equal sort keys is the model's choice
  (table order). SQL leaves it open, and the route and store code rely only
  on the key order.
- Most of the GET handler's output shape is left out: `json_agg` of the
  LEFT JOINed sets, and the Express request and response objects.
  `ListWorkouts` returns the workout rows only.
- The GET handler's error path is left out. It has no `try` block, so a
  failing query is an unhandled rejection. The model assumes the query
  succeeds.
- Failures of `BEGIN`, `COMMIT` and `ROLLBACK` themselves are left out.
  Rejections of the POST handler's two INSERTs, and of the DELETE
  handler's statement, are modelled. The on-device `addWorkout` INSERTs
  may fail as well. The other statements are assumed to succeed:
  - the on-device `deleteWorkout` (`NativeStore.Store.DeleteWorkout`);
  - the read queries of both back ends;
  - the web store's `getItem` and `setItem` (`WebStore.Store.AddWorkout`).
- WorkoutsRoute.RemoteDb.PostWorkout: `sets` is taken to be an array of
  objects. Other request bodies are not modelled:
  - A `sets` whose `length` is falsy (a number, a boolean, `{}`, `""`)
    skips the sets INSERT, commits, and answers 201 with only the workout
    row.
  - A `null` `sets`, a `null` element, or a `sets` with a truthy `length`
    but no `map` makes the handler throw and answer 500.
- WorkoutsRoute.ParseId: PostgreSQL's text-to-integer cast also accepts
  surrounding spaces and a sign, and rejects values beyond 32 bits. The
  model accepts exactly the non-empty decimal digit strings.
- InsertBuilder.IntendedRows: the model keeps an absent field
  (`Undefined`) and `null` (`Null`) apart in the stored rows, and so does
  `WorkoutRow.note`. The pg driver sends both as SQL NULL, so the database
  stores the same value for both; the model does not equate them. Both
  are falsy for `is_top_set`, so the coerced flag is the same either way.
  Column type checks on the inserted values are left out.
- The PostgreSQL schema (`workouts.id` serial, `sets.workout_id`
  referencing it with `ON DELETE CASCADE`) is not defined in
  `backend/routes/workouts.js`. The model assumes it. This includes
  `WorkoutsRoute.CascadeOwned` and the sequence that keeps an id used after
  a rollback.
- Authentication is left out: `authRequired`, JWT checks and bcrypt. The
  caller's user id is a parameter.
- The HTTP clients, the UI screens that call these functions, the theme,
  the bundler configuration and the constant exercise list are not part of
  this model.
- NativeStore.Store.ResetDatabase: a failing DELETE inside the reset, and
  its ROLLBACK, are not modelled. The development switch `__DEV__` is a
  parameter.
- A set insert in `addWorkout` whose values the column types reject is
  folded into the `failing` parameter; column type checks are not
  modelled otherwise.
