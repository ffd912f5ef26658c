/** The records every analysis reads: one row of `workout_logs`, and one
    exercise of the library. */
module Records {
  import opened Wrappers

  /** Calendar dates, as day numbers; only their order and equality matter. */
  type Date = int

  /** One logged set. Weights are exact reals; rpe and notes may be empty. */
  datatype WorkoutLog = WorkoutLog(
    exerciseName: string,
    date: Date,
    setOrder: int,
    weight: real,
    unit: string,
    reps: int,
    rpe: Option<int>,
    notes: Option<string>)

  /** One exercise of the library (a row of `exercises`); a field missing
      from the record is None. */
  datatype LibraryExercise = LibraryExercise(name: string, muscleGroup: Option<string>, exerciseType: Option<string>)

  /** Rows logged on day `d`. */
  function OnDate(d: Date): WorkoutLog -> bool
  {
    (r: WorkoutLog) => r.date == d
  }

  /** The sort key for ordering rows by date. */
  function DateKey(r: WorkoutLog): real
  {
    r.date as real
  }
}
