# Gym tracker training analytics, modelled in Dafny

The gym tracker is a workout log. A lifter records sets (date, exercise,
weight, unit, reps, RPE, notes), and the app derives training analytics
from those rows. This project models the deterministic core of those
analytics as pure Dafny functions over immutable rows, and proves what each
computation promises:

- unit arithmetic (kg, lb and notch through a kilogram pivot), the Epley
  one-rep-max estimate, and set and session volume in kg;
- the keyword classifiers, the ordered input validation, and the weight and
  reps choice ladders of the entry form;
- the progress dashboard's session aggregation: one session per calendar
  date, with the heaviest set (or the least assisted set for assisted
  exercises), kg volume and most used unit;
- the entry form's copy-into-form defaulting, the ladder extension that
  keeps copied weights exact, and what gets submitted;
- personal-record cards, and the per-row rules of the CSV import;
- the helper scripts:
  - grouping of logs into sessions for the upload, and its summary;
  - the best 1RM report;
  - the popularity export;
  - the Arms to Biceps/Triceps migration;
  - the fuzzy exercise lookup and the step-adding run.

Weights are exact `real`s and dates are day numbers (`int`). Python's
`str.lower`/`strip` are modelled on ASCII letters and ASCII whitespace.
Database reads become sequence parameters. Database writes become returned
values (logs to insert, library entries to create, updates to issue).
Answers the program gets from outside (a widget's value, a database call's
success, the timestamp of the last copy) become parameters.

Modules, one per source component:

- `Wrappers`: `Option`.
- `Text`: lower-casing, stripping, substring search, character counts.
- `Seqs`: counting, filtering, sums, first index, first arg-max, stable
  sorting and de-duplication.
- `Records`: the workout-log and library-exercise rows.
- `Calculations`: utils/calculations.py.
- `Helpers`: utils/helpers.py.
- `SessionMetrics`: `calculate_session_metrics` in app.py.
- `EntryDefaults`: the log-workout form in app.py.
- `PersonalRecords`: `get_pr_records` in database/db_manager.py.
- `CsvImport`: `import_workout_from_csv` in database/db_manager.py.
- `SessionMigration`: database/migrate_workouts_to_supabase.py.
- `OneRepMax`: calculate_1rm.py.
- `Popularity`: export_exercise_names_by_popularity.py.
- `ArmsMigration`: migrate_arms_to_biceps_triceps.py.
- `ExerciseLookup`: database/check_and_add_exercises.py.

## Model

| member | source | states |
|---|---|---|
| Calculations.KgPerUnit | utils/calculations.py:49-54 | a unit has a kilogram factor exactly when it is kg, lb, notch or notch/plate, and that factor is positive |
| Calculations.Epley1RM | utils/calculations.py:7-25 | one rep or fewer (zero and negative included) returns the weight unchanged; from two reps on, a positive weight gives an estimate above the weight; zero weight estimates zero |
| Calculations.EpleyIncreasing | utils/calculations.py:22-25 | for a positive weight, more reps (from two on) give a strictly larger estimate |
| Calculations.ConvertUnit | utils/calculations.py:28-67 | identical unit strings return the value even when unrecognised; an unrecognised source unit returns the value whatever the target; a recognised source with an unrecognised target returns the kilogram value |
| Calculations.ConversionFactor | utils/calculations.py:49-67 | every conversion has a positive factor |
| Calculations.ConvertIsScaling | utils/calculations.py:49-67 | every conversion multiplies the value by that positive factor |
| Calculations.ConvertPreservesOrder | utils/calculations.py:49-67 | conversion preserves and reflects strict order, zero and positivity |
| Calculations.ConvertRoundTrip | utils/calculations.py:49-65 | between any two recognised units, converting there and back returns the original value |
| Calculations.UnitConstants | utils/calculations.py:51-54 | notch and notch/plate are aliases worth 2.5 kg; 1 lb is 0.453592 kg, in both directions |
| Calculations.StandardizeWeight | utils/calculations.py:70-81 | a recognised unit is scaled by its kilogram factor; anything else passes through |
| Calculations.TotalVolume | utils/calculations.py:98-111 | set volume is the kilogram weight times reps, and is non-negative for non-negative inputs |
| Calculations.SessionVolume | utils/calculations.py:114-130 | an empty session has volume 0, and sets with non-negative weight and reps give a non-negative total |
| Calculations.SessionVolumeIsSum | utils/calculations.py:124-130 | the session volume is the sum of the per-set volumes, a missing weight or reps counting 0 and a missing unit counting as kg |
| Calculations.SessionVolumeAppend | utils/calculations.py:124-130 | the volume of two runs of sets is the sum of their volumes |
| Calculations.MissingFieldAddsNothing | utils/calculations.py:126-129 | a set with no weight or no reps adds nothing to the session volume |
| Helpers.ExactKey | utils/helpers.py:55-56 | finds the mapping key equal to the normalised input, or reports that none is equal |
| Helpers.FirstPartialKey | utils/helpers.py:59-61 | finds the first key, in dictionary order, that is a substring of the input or has the input as a substring; none exactly when no key overlaps |
| Helpers.MapMuscleGroup | utils/helpers.py:28-64 | always returns one of the seven app muscle groups; an exact key wins, then the first overlapping key, then Other |
| Helpers.MappingTargetsAreGroups | utils/helpers.py:17-25 | every mapping target is a listed muscle group |
| Helpers.BlankMapsToChest | utils/helpers.py:52-61 | empty or all-whitespace input maps to Chest, because the empty string is a substring of "chest" |
| Helpers.InferExerciseType | utils/helpers.py:67-90 | always returns a listed exercise type; Other exactly when no rule keyword occurs in the lower-cased name; otherwise the type of a matching rule no later than any matching rule (Barbell, Dumbbell, Cable, Machine, Bodyweight priority) |
| Helpers.RuleTypesListed | utils/helpers.py:79-90 | every rule's type is a listed exercise type other than Other |
| Helpers.BarbellFirst | utils/helpers.py:79-80 | a barbell keyword decides Barbell whatever else the name holds |
| Helpers.SingleArmCableRowIsDumbbell | utils/helpers.py:81-84 | "Single-Arm Cable Row" is Dumbbell, since the Dumbbell rule precedes Cable |
| Helpers.LowerSingleArmIsDumbbell | utils/helpers.py:77-82 | any name lower-casing to "single-arm cable row" is Dumbbell |
| Helpers.NotContainsBarbell | utils/helpers.py:79 | "single-arm cable row" holds neither "barbell" nor "bb " |
| Helpers.IsAssistedExercise | utils/helpers.py:93-105 | true exactly when the lower-cased name contains "assist", "減重" or "輔助" ("assisted" adds nothing) |
| Helpers.AssistedCoversAssisted | utils/helpers.py:103 | any name containing "assisted" contains "assist" |
| Helpers.ValidateInput | utils/helpers.py:151-175 | valid exactly when weight and reps are non-negative, zero reps do not carry a positive weight, and the unit is recognised; otherwise the message of the first failed check in source order |
| Helpers.WeightOptions | utils/helpers.py:195-219 | every ladder starts at 0 and strictly increases; kg is 0 to 20 by 2.5 then 25 to 200 by 5 (45 rungs); lb is 0 to 450 by 5 (91 rungs); any other unit is 0 to 30 |
| Helpers.RepsOptions | utils/helpers.py:222-230 | the reps choices are exactly 0, 1, ..., 30, in order |
| SessionMetrics.GroupByDate | app.py:762-824 | cutting date-sorted rows where the date changes loses and reorders nothing, and gives non-empty groups of one date each |
| SessionMetrics.SortedGroupsIncrease | app.py:756-771 | over date-sorted rows the group dates strictly increase |
| SessionMetrics.PrimaryUnit | app.py:781-782 | the session unit is one used by a set of the session, and no unit is used more often |
| SessionMetrics.PlainSummary | app.py:796-806 | the reported set is the first one with the largest raw weight, and reps and 1RM come from that same set; volume is the session volume with each set in its own unit |
| SessionMetrics.AssistedSummary | app.py:777-794 | bodyweight in lb is converted into the session unit; the reported set is the first one with the least assistance; its effective weight, reps and 1RM are reported; volume reads every set's effective weight in the session unit |
| SessionMetrics.OwnUnitVolumeIsSessionVolume | app.py:800 | summing each set's own-unit kg volume is the session volume of the sets |
| SessionMetrics.SessionsPartitionHistory | app.py:750-824 | sorting then grouping gives one group per distinct date, in ascending date order, each holding as many rows as the history has on that date |
| SessionMetrics.SessionRows | app.py:756-824 | a session's rows are history rows, and every history row of its date is in it |
| SessionMetrics.SummaryReports | app.py:771-816 | a session summary reports on the history rows of its date: the heaviest set on the plain path, the least assisted set on the assisted path, a unit used that day, and the Epley estimate of the reported set |
| SessionMetrics.FilterGroupDate | app.py:762-771 | when groups are non-empty, each of one date, and their dates distinct, picking the concatenated rows of group i's date gives back group i |
| SessionMetrics.SessionSum | app.py:776-806 | a sum of any per-set term over a session equals that sum over the history rows of its date |
| SessionMetrics.SessionCount | app.py:781-782 | counting sets with any property over a session equals counting that date's history rows |
| SessionMetrics.SessionUnitMostUsed | app.py:781-782 | a session's unit is used by no fewer of that date's history rows than any other unit used that date |
| SessionMetrics.SessionVolumeOn | app.py:786-806 | a session's volume is the volume of that date's history rows: each set's own-unit volume on the plain path, each set's effective weight in the session unit on the assisted path |
| SessionMetrics.SessionReports | app.py:771-816 | a session summary reports that date's best set, a most used unit of that date, and that date's volume |
| SessionMetrics.CalculateSessionMetrics | app.py:748-871 | no history gives no sessions; otherwise one summary per logged date, in ascending date order; each counts exactly that date's rows, reports that date's heaviest (or least assisted) set with its reps and 1RM, has a unit no other unit outnumbers that date, and has the volume of that date's rows |
| EntryDefaults.DefaultNumSets | app.py:270-276 | a remembered set count wins, then the copied session's number of sets, then 3 |
| EntryDefaults.UnitIndex | app.py:289-306 | a stored unit selects its own radio position, "notch" selects notch/plate, and an unrecognised unit selects kg |
| EntryDefaults.DefaultUnitIndex | app.py:292-309 | a remembered unit wins, then the copied session's unit, then kg |
| EntryDefaults.EffectiveUnit | app.py:317-324 | weights are read in the copied unit only right after a copy; otherwise in the radio choice |
| EntryDefaults.CopiedWeights | app.py:333-343 | the collected weights are exactly the positive copied weights converted into the effective unit |
| EntryDefaults.AppendMissing | app.py:345-348 | appending the missing weights keeps the ladder as a prefix, adds exactly the new values, and adds no repetitions |
| EntryDefaults.SortLadder | app.py:351 | re-sorting a repetition-free ladder gives a strictly increasing ladder with the same values |
| EntryDefaults.ExtendedLadder | app.py:327-351 | the extended ladder strictly increases and holds exactly the base ladder plus every positive converted copied weight |
| EntryDefaults.CopiedWeightsOnLadder | app.py:330-351 | every positive copied default is already a ladder value before any set is laid out, so it is shown exactly and never snapped |
| EntryDefaults.DefaultWeight | app.py:375-391 | set i is pre-filled with the copied set's weight in the effective unit, else the previous workout's weight for the first set, else 0 |
| EntryDefaults.DefaultReps | app.py:421-428 | set i's reps default is the copied or previous reps when it is one of the choices, else 0, and it is always a choice |
| EntryDefaults.Clamp | app.py:409 | the adjusted position is kept within the list: below 0 selects the first, past the end selects the last |
| EntryDefaults.IndexOf | app.py:402 | `list.index`: the first position holding the value |
| EntryDefaults.WithDefault | app.py:395-398 | a positive missing default is added to the ladder, which still strictly increases |
| EntryDefaults.Row | app.py:372-439 | a form row's positive default weight sits at its index; a zero default selects the first choice; both adjusted indices are valid choices |
| EntryDefaults.Rows | app.py:363-439 | laying out the sets in turn gives one well-formed row per set, and a ladder value never disappears from later rows |
| EntryDefaults.FormDefaults | app.py:317-439 | the form has one row per set, each well formed for its own defaults and adjustments, and each offering every value of the extended ladder |
| EntryDefaults.SubmittedSets | app.py:457-463 | exactly the rows with positive weight and positive reps are submitted, in form order, with their 1-based position as set order and the effective unit |
| EntryDefaults.DefaultRpe | app.py:468 | a set, non-zero copied RPE is the default, else 7 |
| EntryDefaults.DefaultNotes | app.py:472 | non-empty copied notes are the default, else empty |
| EntryDefaults.Submit | app.py:479-494 | nothing entered is reported; otherwise the first set failing validation is reported by its set order and message and nothing is saved; otherwise every set is saved |
| EntryDefaults.KnownUnitAlwaysSaves | app.py:457-494 | in a recognised effective unit, whatever was entered is saved, since only positive weights and reps are submitted |
| EntryDefaults.UnknownUnitNeverSaves | app.py:457-494 | in an unrecognised effective unit, the first entered set is rejected as an unsupported unit |
| PersonalRecords.TopRow | database/db_manager.py:477-484 | the `ORDER BY key DESC, date DESC LIMIT 1` row: no row has a higher key, or the same key on a later date |
| PersonalRecords.DistinctDatesWith | database/db_manager.py:490-496 | `SELECT DISTINCT date ... WHERE key = v`: each date once, exactly the dates of rows with that value |
| PersonalRecords.DatesWith | database/db_manager.py:489-496 | the dates with that value, each once, newest first |
| PersonalRecords.RecordOf | database/db_manager.py:476-538 | the card's best weight, best reps and best volume (raw weight times reps) bound every row and are attained; the unit comes from a best-weight row on the latest date with that weight; each date list holds the newest-first dates of its best value |
| PersonalRecords.GetPrRecords | database/db_manager.py:458-540 | there is a card exactly for each exercise name with a logged row, computed from that exercise's rows only |
| PersonalRecords.CardsComeFromOwnRows | database/db_manager.py:477-486 | every logged exercise has a card, and its best weight and unit were logged together by that exercise |
| PersonalRecords.BestWeightDatesNonEmpty | database/db_manager.py:477-496 | a logged exercise has at least one best-weight date, and the newest of them is the date the unit came from |
| CsvImport.NormalizeUnit | database/db_manager.py:374-382 | the result is always a recognised unit; a recognised lower-cased, stripped cell is kept; otherwise notch or plate means notch/plate, then lb or pound means lb, else kg |
| CsvImport.NormalizeUnitIdempotent | database/db_manager.py:374-382 | normalising a normalised unit changes nothing |
| CsvImport.ReadNumber | database/db_manager.py:368-385 | an empty cell gives the default, a number is kept, and an unconvertible cell fails with the conversion's error |
| CsvImport.NoteOf | database/db_manager.py:388-390 | the note is the stripped text when non-empty, and absent otherwise; it is never empty |
| CsvImport.ProcessRow | database/db_manager.py:349-396 | checks run in the source's order: an empty date, then an unparsable date (its error), then a whitespace-only name, then the first unconvertible number among set order, weight and reps (its error), then a negative weight or reps; an empty name cell reads as "nan" and is accepted; an accepted row's log carries the row's date and stripped name and its cells' values, with a recognised unit and a non-empty note, and the entry it would create has the mapped muscle group and the inferred type |
| CsvImport.ReadCells | database/db_manager.py:367-396 | the first unreadable number among set order, weight and reps raises its error; then a negative weight or reps rejects; otherwise the row is accepted with its cells' log |
| CsvImport.LogOf | database/db_manager.py:367-391 | each log field is its cell's value, and empty cells give set order 1, weight 0.0 and reps 0; the unit is the normalised text and the note the stripped text |
| CsvImport.AcceptedLogs | database/db_manager.py:412-418 | the accepted logs number exactly the accepted rows |
| CsvImport.AcceptedCount | database/db_manager.py:393-418 | the outcomes hold exactly as many acceptances as there are rows that pass every check |
| CsvImport.AcceptedNameListed | database/db_manager.py:398-416 | the name of every accepted row is among the inserted logs' names |
| CsvImport.FirstOfNewName | database/db_manager.py:398-410 | a row accepted under a name no earlier row was accepted under is the first row of that name |
| CsvImport.CreatedExtend | database/db_manager.py:398-410 | a library entry made from the first row of its name stays so when more rows follow |
| CsvImport.ImportRows | database/db_manager.py:346-423 | each row adds one success or one error; each message names a rejected row by its sheet line, in line order; the inserted logs are the accepted rows' logs in row order; the library grows by exactly their names; one entry is created per new name, with the muscle group and type of the first row accepted under it |
| CsvImport.AdvanceKeeps | database/db_manager.py:347-423 | processing one more row keeps every one of those facts |
| CsvImport.ImportWorkoutFromCsv | database/db_manager.py:337-428 | a missing required column gives no successes and no errors, with one message naming the missing columns in order; otherwise the successes are the rows that pass every check and the errors the rest, each message names a rejected row by its line, the logs are the accepted rows' logs in order, and one library entry is created per new name from its first accepted row |
| SessionMigration.GroupWorkoutsBySession | database/migrate_workouts_to_supabase.py:65-93 | one session per distinct (date, exercise) key, ordered by first appearance; each holds exactly its key's sets in input order, with the rpe and notes of its first log |
| SessionMigration.AddStep | database/migrate_workouts_to_supabase.py:72-91 | one loop iteration keeps the grouping facts for the longer prefix |
| SessionMigration.NothingDroppedOrDuplicated | database/migrate_workouts_to_supabase.py:72-93 | the sessions' set counts add up to the number of logs |
| SessionMigration.Earliest | database/migrate_workouts_to_supabase.py:233-234 | the minimum is absent exactly when there are no sessions, and otherwise is the date of a session and no later than any |
| SessionMigration.Latest | database/migrate_workouts_to_supabase.py:235-236 | the maximum is absent exactly when there are no sessions, and otherwise is the date of a session and no earlier than any |
| SessionMigration.ExerciseCounts | database/migrate_workouts_to_supabase.py:222-227 | one entry per trained exercise, each name once, each counting that exercise's sessions |
| SessionMigration.CountsSumToSessions | database/migrate_workouts_to_supabase.py:225-227 | the per-exercise counts add up to the number of sessions |
| SessionMigration.SummarizeSessions | database/migrate_workouts_to_supabase.py:222-240 | the summary's date range is the min and max of the session dates, and its counts cover exactly the trained exercises and add up to the session count |
| SessionMigration.DateRangeCoversLogs | database/migrate_workouts_to_supabase.py:217-236 | every migrated log's date lies within the summary's date range |
| OneRepMax.EstimatePositive | calculate_1rm.py:49-54 | an analysed set's estimate is at least its positive weight |
| OneRepMax.Estimates | calculate_1rm.py:42-62 | one estimate per set with positive weight and reps, each from such a set, and every such set has one |
| OneRepMax.Track | calculate_1rm.py:38-74 | the tracked maximum bounds every analysed set's estimate; the reported set is the first to attain it, since ties do not replace |
| OneRepMax.FirstBestUnique | calculate_1rm.py:65-74 | at most one set is the first to attain the best estimate |
| OneRepMax.ReportedIffAnalysed | calculate_1rm.py:76-78 | a best set is reported exactly when some set is analysed |
| OneRepMax.TopFive | calculate_1rm.py:87-88 | the top list has five entries (fewer if fewer exist), highest first, drawn from the estimates, and nothing left out is higher than an entry kept |
| OneRepMax.Average | calculate_1rm.py:92 | the average times the number of analysed sets is their sum |
| OneRepMax.AverageBounded | calculate_1rm.py:92 | the average lies above 0 and at most the highest estimate |
| OneRepMax.BestFirstAmongEstimates | calculate_1rm.py:55-74 | the set the loop keeps is, in the estimate list, the first with the highest estimate |
| OneRepMax.ReportSound | calculate_1rm.py:64-94 | with an analysed set, the top list starts with the very set the loop keeps (the descending sort is stable), and the average lies between 0 and its estimate |
| OneRepMax.CalculateExercise1Rm | calculate_1rm.py:28-94 | no history and no valid sets are told apart; otherwise the best is the first set with the highest estimate; the top list holds the five highest estimates (all of them when fewer), highest first and headed by the best; the average is the mean of all estimates and lies between 0 and the best |
| Popularity.Metadata | export_exercise_names_by_popularity.py:39 | a name's metadata is the last library exercise with that name, absent exactly when none has it |
| Popularity.ZeroEntries | export_exercise_names_by_popularity.py:53-61 | exactly the library exercises without a count become 0-session entries |
| Popularity.MergedMembers | export_exercise_names_by_popularity.py:42-61 | the merged list holds every counted exercise's entry, and nothing that is not a counted entry or a 0-session entry |
| Popularity.MergedNamesOnce | export_exercise_names_by_popularity.py:42-61 | every counted name appears exactly once in the merged list |
| Popularity.ExportExerciseNamesByPopularity | export_exercise_names_by_popularity.py:24-75 | the returned count is the list length (every counted exercise plus every uncounted library exercise); entries never increase in sessions; each counted name appears once with its count; every uncounted library exercise appears with 0 sessions |
| Popularity.ExportSimpleList | export_exercise_names_by_popularity.py:78-106 | each counted name exactly once, in non-increasing count order, and the returned count is their number |
| ArmsMigration.CategorizeArmsExercise | migrate_arms_to_biceps_triceps.py:21-45 | the result is Biceps or Triceps, and it is Triceps exactly when the lower-cased name holds a triceps keyword |
| ArmsMigration.CategoryIgnoresCase | migrate_arms_to_biceps_triceps.py:28 | the category depends only on the lower-cased name |
| ArmsMigration.OverheadCurlIsTriceps | migrate_arms_to_biceps_triceps.py:36-42 | "Overhead Cable Curl" holds a biceps keyword, yet it is Triceps because triceps keywords are tested first |
| ArmsMigration.MigrateArmsExercises | migrate_arms_to_biceps_triceps.py:48-105 | nothing is migrated exactly when no exercise has the Arms group; otherwise each Arms exercise, in order, is re-filed by its category unless it is a dry run, which issues no update; the biceps and triceps tallies split the Arms count either way |
| ArmsMigration.ResolveUserInput | migrate_arms_to_biceps_triceps.py:133-138 | an argument of 36 characters with exactly four hyphens is a user id; anything else is looked up as an email |
| ArmsMigration.CanonicalUuidIsUserId | migrate_arms_to_biceps_triceps.py:133-134 | every canonical 8-4-4-4-12 UUID is taken as a user id |
| ExerciseLookup.FindLowered | database/check_and_add_exercises.py:26-32 | the scan finds nothing exactly when no name matches; otherwise it returns the stored name of the first match |
| ExerciseLookup.FindExerciseByName | database/check_and_add_exercises.py:23-32 | nothing is found exactly when no stored name equals the lower-cased target, contains it, or is contained in it; otherwise the stored casing of the first such name is returned |
| ExerciseLookup.FindReturnsFirstMatch | database/check_and_add_exercises.py:26-31 | whichever exercise matches first is the one returned |
| ExerciseLookup.FindIgnoresCase | database/check_and_add_exercises.py:25 | the lookup ignores the case of the target |
| ExerciseLookup.EmptyTargetFindsFirst | database/check_and_add_exercises.py:30-31 | an empty target finds the first exercise |
| ExerciseLookup.PartialBeforeExact | database/check_and_add_exercises.py:26-31 | an earlier partial match beats a later exact match: "Pull-Up" is returned for "Assisted Pull-Up" |
| ExerciseLookup.FirstMatchUnique | database/check_and_add_exercises.py:26-31 | there is at most one first match |
| ExerciseLookup.PlanAction | database/check_and_add_exercises.py:142-164 | a non-empty found name gets its steps updated; otherwise the exercise is created under its declared muscle group with the inferred type, not the declared one |
| ExerciseLookup.SingleArmCableRowCreatedAsDumbbell | database/check_and_add_exercises.py:117-122 | when absent, "Single-Arm Cable Row", declared Cable, is created as Dumbbell |
| ExerciseLookup.RecordStep | database/check_and_add_exercises.py:148-164 | counting one more attempt keeps the counters equal to the successful, created and failed attempts so far |
| ExerciseLookup.AddStepsWithCreation | database/check_and_add_exercises.py:134-171 | one call per planned exercise, in order; the counters are the successful, created and failed attempts, successes and errors add up to the exercises processed, and no more are created than succeed |

## Left out

- Streamlit widgets, session state, reruns, the rest timer, charts and HTML
  cards: user interface. The values they supply are parameters.
- SQLite and Supabase connections, queries and writes: database I/O.
  - Reads are row sequences.
  - Writes are returned values.
  - A failing database call is a boolean per attempt.
- The `sqlite3.IntegrityError` race in the CSV import: concurrent insertion
  by another process is not modelled. The library is a set that grows
  with each new name.
- `get_exercise_workout_counts` and `get_all_exercises` are not part of this
  model. Their results are parameters: a sequence of (name, count) pairs
  with distinct names, and a library sequence.
- Message wording, `print` output, JSON/text file writing and display
  formatting (`format_weight`, `format_date`, `parse_date`, f-string
  rounding): output formatting only. CSV errors are a datatype naming the
  line and the cause.
- Floating point: weights are exact reals. Ladder membership and record
  ties are real equality.
- `int()`/`float()` conversion of CSV cells: a numeric cell is already
  read (empty, a number, or a conversion error). `int()` truncation of a
  fractional cell is not modelled.
- `pd.to_datetime` parsing and time-of-day stripping: dates are day numbers,
  and a date cell is already parsed or already failed.
- The exercise steps text: it is passed through to the database call
  unchanged and not otherwise modelled.
- The effect of the update and create calls on the stored library (arms
  migration, step adding): the model returns the calls to make.
- Text.Lower: lower-cases ASCII letters only; Python's `str.lower` also
  folds non-ASCII upper-case letters ("É" to "é", the Kelvin sign to "k").
  So wherever the model lower-cases, a name with such letters can fail to
  match where Python matches: ExerciseLookup.FindExerciseByName misses
  "Élan Row" for the target "élan row", Helpers.MapMuscleGroup maps
  "BAC" followed by the Kelvin sign to Other instead of Back, and the
  keyword tests of Helpers.InferExerciseType, Helpers.IsAssistedExercise
  and ArmsMigration.CategorizeArmsExercise can miss keywords written with
  such letters.
- Text.Strip: strips ASCII whitespace only, a subset of Python's
  whitespace.
- SessionMetrics.CalculateSessionMetrics: pandas `sort_values` defaults to
  an unstable quicksort, and the model sorts stably. Sessions group by date
  either way, so only the order of sets inside a date can differ. That
  order decides which of several equally heavy sets is "first".
- SessionMetrics.PrimaryUnit: Python's `max(set(...), key=count)` breaks
  ties in set iteration order, which is unspecified. The model takes the
  unit of the earliest set among the most used units, and the contract
  states only that no unit is used more often.
- PersonalRecords.RecordOf: the unit is read from a best-weight row on the
  latest such date. When several rows tie on both weight and date, SQL
  leaves the choice open. The model takes the first, and the contract
  states only that the row has the best weight and the latest date.
- Null metadata in the popularity export: a library exercise whose muscle
  group or type is stored as null is read as missing, so it gets "Unknown". Python's
  `dict.get` would return `None` for a present null key.
- The `is_assisted` flag that app.py expects on a record card: the shown
  `get_pr_records` does not produce it, and the card has no such field.
