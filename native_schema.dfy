/**
 * The two tables of the on-device SQLite store (lib/db.native.ts): their
 * rows, the invariant the schema and AUTOINCREMENT maintain, and the rows one
 * `addWorkout` call inserts.
 */
module NativeSchema {
  import opened Common
  import opened Seqs

  /** A row of `workouts(id, exercise, date)`. */
  datatype Workout = Workout(id: nat, exercise: string, date: Date)

  /** A row of `sets(id, workout_id, weight, reps, distance, seconds)`; NULL columns are None. */
  datatype SetRecord = SetRecord(
    id: nat,
    workoutId: nat,
    weight: Option<int>,
    reps: Option<int>,
    distance: Option<int>,
    seconds: Option<int>)

  /**
   * One element of the `sets` argument of `addWorkout`. Every field is
   * optional, and a missing field is stored as NULL exactly as an explicit
   * null is (`s.weight ?? null`), so both are None here.
   */
  datatype SetInput = SetInput(weight: Option<int>, reps: Option<int>, distance: Option<int>, seconds: Option<int>)

  function WorkoutKey(w: Workout): int { w.id }

  function SetKey(s: SetRecord): int { s.id }

  function DateOf(w: Workout): int { w.date }

  /**
   * What the schema guarantees of the two tables, kept in rowid order:
   * primary keys are increasing and never above the table's
   * `sqlite_sequence` value (AUTOINCREMENT), and the NOT NULL foreign key
   * `sets.workout_id REFERENCES workouts(id)` holds for every set.
   */
  ghost predicate TablesValid(workouts: seq<Workout>, sets: seq<SetRecord>, workoutSeq: nat, setSeq: nat)
  {
    && StrictlyAscending(workouts, WorkoutKey)
    && (forall i :: 0 <= i < |workouts| ==> 1 <= workouts[i].id <= workoutSeq)
    && StrictlyAscending(sets, SetKey)
    && (forall i :: 0 <= i < |sets| ==> 1 <= sets[i].id <= setSeq)
    && (forall i :: 0 <= i < |sets| ==> HasWorkout(workouts, sets[i].workoutId))
  }

  /** Some workout of the table is numbered `id`. */
  predicate HasWorkout(workouts: seq<Workout>, id: nat)
  {
    exists w :: w in workouts && w.id == id
  }

  /** The `sets` row stored for input `s` (lib/db.native.ts:81-91). */
  function SetRow(id: nat, workoutId: nat, s: SetInput): SetRecord
  {
    SetRecord(id, workoutId, s.weight, s.reps, s.distance, s.seconds)
  }

  /**
   * The rows the loop of `addWorkout` inserts: one per input, in input order,
   * with consecutive AUTOINCREMENT ids starting at `firstId`, all referencing
   * `workoutId`, each carrying its input's four fields.
   */
  function NewSetRows(firstId: nat, workoutId: nat, inputs: seq<SetInput>): (r: seq<SetRecord>)
    ensures |r| == |inputs|
    ensures forall i :: 0 <= i < |inputs| ==> r[i] == SetRow(firstId + i, workoutId, inputs[i])
    decreases |inputs|
  {
    if inputs == [] then []
    else [SetRow(firstId, workoutId, inputs[0])] + NewSetRows(firstId + 1, workoutId, inputs[1..])
  }

  /** Inserting one more set extends the rows by that set's row. */
  lemma {:induction false} NewSetRowsSnoc(firstId: nat, workoutId: nat, inputs: seq<SetInput>, i: nat)
    requires i < |inputs|
    ensures NewSetRows(firstId, workoutId, inputs[..i + 1])
         == NewSetRows(firstId, workoutId, inputs[..i]) + [SetRow(firstId + i, workoutId, inputs[i])]
  {
    var a := NewSetRows(firstId, workoutId, inputs[..i + 1]);
    var b := NewSetRows(firstId, workoutId, inputs[..i]) + [SetRow(firstId + i, workoutId, inputs[i])];
    assert |a| == |b|;
    forall k | 0 <= k < |a|
      ensures a[k] == b[k]
    {
      if k < i {
        assert inputs[..i + 1][k] == inputs[..i][k];
      }
    }
  }

  /** A committed `addWorkout` keeps the schema's guarantees. */
  lemma InsertKeepsValid(
    workouts: seq<Workout>, sets: seq<SetRecord>, workoutSeq: nat, setSeq: nat,
    exercise: string, date: Date, inputs: seq<SetInput>)
    requires TablesValid(workouts, sets, workoutSeq, setSeq)
    ensures TablesValid(
      workouts + [Workout(workoutSeq + 1, exercise, date)],
      sets + NewSetRows(setSeq + 1, workoutSeq + 1, inputs),
      workoutSeq + 1, setSeq + |inputs|)
  {
    var w := Workout(workoutSeq + 1, exercise, date);
    InsertWorkoutKeys(workouts, workoutSeq, w);
    InsertSetKeys(sets, setSeq, NewSetRows(setSeq + 1, workoutSeq + 1, inputs));
    InsertSetsReference(workouts, sets, w, NewSetRows(setSeq + 1, workoutSeq + 1, inputs));
  }

  lemma InsertWorkoutKeys(workouts: seq<Workout>, workoutSeq: nat, w: Workout)
    requires StrictlyAscending(workouts, WorkoutKey)
    requires forall i :: 0 <= i < |workouts| ==> 1 <= workouts[i].id <= workoutSeq
    requires w.id == workoutSeq + 1
    ensures StrictlyAscending(workouts + [w], WorkoutKey)
    ensures forall i :: 0 <= i < |workouts + [w]| ==> 1 <= (workouts + [w])[i].id <= workoutSeq + 1
  {
    var ws := workouts + [w];
    forall i, j | 0 <= i < j < |ws|
      ensures WorkoutKey(ws[i]) < WorkoutKey(ws[j])
    {
      assert ws[i] == workouts[i];
      if j < |workouts| {
        assert ws[j] == workouts[j];
      }
    }
  }

  lemma InsertSetKeys(sets: seq<SetRecord>, setSeq: nat, added: seq<SetRecord>)
    requires StrictlyAscending(sets, SetKey)
    requires forall i :: 0 <= i < |sets| ==> 1 <= sets[i].id <= setSeq
    requires forall i :: 0 <= i < |added| ==> added[i].id == setSeq + 1 + i
    ensures StrictlyAscending(sets + added, SetKey)
    ensures forall i :: 0 <= i < |sets + added| ==> 1 <= (sets + added)[i].id <= setSeq + |added|
  {
    var ss := sets + added;
    forall i, j | 0 <= i < j < |ss|
      ensures SetKey(ss[i]) < SetKey(ss[j])
    {
      if j < |sets| {
        assert ss[i] == sets[i] && ss[j] == sets[j];
      } else if i < |sets| {
        assert ss[i] == sets[i] && ss[j] == added[j - |sets|];
      } else {
        assert ss[i] == added[i - |sets|] && ss[j] == added[j - |sets|];
      }
    }
  }

  lemma InsertSetsReference(workouts: seq<Workout>, sets: seq<SetRecord>, w: Workout, added: seq<SetRecord>)
    requires forall i :: 0 <= i < |sets| ==> HasWorkout(workouts, sets[i].workoutId)
    requires forall i :: 0 <= i < |added| ==> added[i].workoutId == w.id
    ensures forall i :: 0 <= i < |sets + added| ==> HasWorkout(workouts + [w], (sets + added)[i].workoutId)
  {
    var ws := workouts + [w];
    var ss := sets + added;
    assert w in ws;
    forall i | 0 <= i < |ss|
      ensures HasWorkout(ws, ss[i].workoutId)
    {
      if i < |sets| {
        var v :| v in workouts && v.id == sets[i].workoutId;
        assert v in ws && ss[i] == sets[i];
      } else {
        assert ss[i] == added[i - |sets|];
      }
    }
  }

  /** `DELETE FROM workouts WHERE id = ?` on the workouts table. */
  function RemoveWorkout(workouts: seq<Workout>, id: nat): (r: seq<Workout>)
    ensures forall w :: w in r <==> w in workouts && w.id != id
    ensures StrictlyAscending(workouts, WorkoutKey) ==> StrictlyAscending(r, WorkoutKey)
  {
    var p := (w: Workout) => w.id != id;
    FilterKeepsAscendingIf(workouts, p, WorkoutKey);
    Filter(workouts, p)
  }

  /** What `ON DELETE CASCADE` does to the sets table when workout `id` is deleted. */
  function CascadeSets(sets: seq<SetRecord>, id: nat): (r: seq<SetRecord>)
    ensures forall s :: s in r <==> s in sets && s.workoutId != id
    ensures StrictlyAscending(sets, SetKey) ==> StrictlyAscending(r, SetKey)
  {
    var p := (s: SetRecord) => s.workoutId != id;
    FilterKeepsAscendingIf(sets, p, SetKey);
    Filter(sets, p)
  }

  /** Deleting a workout and the sets that reference it keeps the schema's guarantees. */
  lemma DeleteKeepsValid(workouts: seq<Workout>, sets: seq<SetRecord>, workoutSeq: nat, setSeq: nat, id: nat)
    requires TablesValid(workouts, sets, workoutSeq, setSeq)
    ensures TablesValid(RemoveWorkout(workouts, id), CascadeSets(sets, id), workoutSeq, setSeq)
  {
    var ws := RemoveWorkout(workouts, id);
    var ss := CascadeSets(sets, id);
    forall i | 0 <= i < |ss|
      ensures HasWorkout(ws, ss[i].workoutId)
    {
      assert ss[i] in sets;
      var k :| 0 <= k < |sets| && sets[k] == ss[i];
      var v :| v in workouts && v.id == sets[k].workoutId;
      assert v in ws;
    }
    forall i | 0 <= i < |ws|
      ensures 1 <= ws[i].id <= workoutSeq
    {
      assert ws[i] in workouts;
    }
    forall i | 0 <= i < |ss|
      ensures 1 <= ss[i].id <= setSeq
    {
      assert ss[i] in sets;
    }
    assert StrictlyAscending(ws, WorkoutKey);
    assert StrictlyAscending(ss, SetKey);
  }
}
