/**
 * The writes of lib/db.native.ts on the two tables, as a class whose fields
 * are the tables and their `sqlite_sequence` counters. Every write runs as
 * one transaction: it either commits all of its rows or rolls back to the
 * state it started from.
 */
module NativeStore {
  import opened Common
  import opened Seqs
  import opened NativeSchema
  import opened NativeQueries

  class Store {
    var workouts: seq<Workout>
    var sets: seq<SetRecord>
    /** `sqlite_sequence` of `workouts`: the largest id AUTOINCREMENT has handed out. */
    var workoutSeq: nat
    /** `sqlite_sequence` of `sets`. */
    var setSeq: nat

    ghost predicate Valid()
      reads this
    {
      TablesValid(workouts, sets, workoutSeq, setSeq)
    }

    /** A freshly created database: both tables exist and are empty. */
    constructor ()
      ensures Valid()
      ensures workouts == [] && sets == [] && workoutSeq == 0 && setSeq == 0
    {
      workouts, sets, workoutSeq, setSeq := [], [], 0, 0;
    }

    /**
     * `addWorkout(exercise, date, inputs)`. `failing` names the INSERT the
     * database rejects, if any: 0 is the workout's, k + 1 that of the k-th
     * set. A rejected INSERT rolls the whole transaction back; otherwise it
     * commits one workout row with the next id and one set row per input, in
     * input order, all referencing that id.
     */
    method AddWorkout(exercise: string, date: Date, inputs: seq<SetInput>, failing: Option<nat>) returns (committed: bool)
      requires Valid()
      modifies this
      ensures Valid()
      ensures committed <==> failing.None? || failing.value > |inputs|
      ensures committed ==>
        && workoutSeq == old(workoutSeq) + 1
        && workouts == old(workouts) + [Workout(workoutSeq, exercise, date)]
        && setSeq == old(setSeq) + |inputs|
        && sets == old(sets) + NewSetRows(old(setSeq) + 1, workoutSeq, inputs)
      ensures !committed ==>
        workouts == old(workouts) && sets == old(sets) && workoutSeq == old(workoutSeq) && setSeq == old(setSeq)
    {
      // BEGIN: the transaction works on its own copy of the tables, which
      // COMMIT publishes and ROLLBACK discards.
      committed := failing != Some(0);
      if committed {
        var lastInsertRowId := workoutSeq + 1;
        var ss, sSeq;
        committed, ss, sSeq := InsertSets(sets, setSeq, lastInsertRowId, inputs, failing);
        if committed {
          // COMMIT
          InsertKeepsValid(workouts, sets, workoutSeq, setSeq, exercise, date, inputs);
          workouts := workouts + [Workout(lastInsertRowId, exercise, date)];
          workoutSeq := lastInsertRowId;
          sets, setSeq := ss, sSeq;
        }
      }
      // otherwise ROLLBACK: the tables keep their state from before BEGIN
    }

    /**
     * `deleteWorkout(id)`: `DELETE FROM workouts WHERE id = ?`, which the
     * `ON DELETE CASCADE` foreign key extends to every set of that workout.
     */
    method DeleteWorkout(id: nat)
      requires Valid()
      modifies this
      ensures Valid()
      ensures workouts == RemoveWorkout(old(workouts), id)
      ensures sets == CascadeSets(old(sets), id)
      ensures workoutSeq == old(workoutSeq) && setSeq == old(setSeq)
    {
      DeleteKeepsValid(workouts, sets, workoutSeq, setSeq, id);
      workouts := RemoveWorkout(workouts, id);
      sets := CascadeSets(sets, id);
    }

    /**
     * `resetDatabase()`: only in a development build (`dev`), empties both
     * tables and forgets their AUTOINCREMENT counters; otherwise does nothing.
     */
    method ResetDatabase(dev: bool)
      requires Valid()
      modifies this
      ensures Valid()
      ensures dev ==> workouts == [] && sets == [] && workoutSeq == 0 && setSeq == 0
      ensures !dev ==> workouts == old(workouts) && sets == old(sets) && workoutSeq == old(workoutSeq) && setSeq == old(setSeq)
    {
      if !dev {
        return;
      }
      sets := [];
      workouts := [];
      workoutSeq, setSeq := 0, 0;
    }
  }

  /**
   * The loop of `addWorkout` over its inputs (lib/db.native.ts:80-92): one
   * INSERT per input in order, each taking the next AUTOINCREMENT id. It stops
   * at the first INSERT the database rejects (`failing`, numbered from 1).
   */
  method InsertSets(sets: seq<SetRecord>, setSeq: nat, workoutId: nat, inputs: seq<SetInput>, failing: Option<nat>)
    returns (ok: bool, ss: seq<SetRecord>, sSeq: nat)
    ensures ok <==> failing.None? || failing.value == 0 || failing.value > |inputs|
    ensures ok ==> ss == sets + NewSetRows(setSeq + 1, workoutId, inputs) && sSeq == setSeq + |inputs|
  {
    ok, ss, sSeq := true, sets, setSeq;
    var i := 0;
    while i < |inputs|
      invariant 0 <= i <= |inputs|
      invariant failing.None? || failing.value == 0 || failing.value > i
      invariant sSeq == setSeq + i
      invariant ss == sets + NewSetRows(setSeq + 1, workoutId, inputs[..i])
    {
      if failing == Some(i + 1) {
        ok := false;
        return;
      }
      sSeq := sSeq + 1;
      ss := ss + [SetRow(sSeq, workoutId, inputs[i])];
      NewSetRowsSnoc(setSeq + 1, workoutId, inputs, i);
      i := i + 1;
    }
    assert inputs[..i] == inputs;
  }

  /** After a committed `addWorkout`, `getWorkoutById` of the new id finds the new workout. */
  lemma AddedWorkoutById(workouts: seq<Workout>, sets: seq<SetRecord>, workoutSeq: nat, setSeq: nat, exercise: string, date: Date)
    requires TablesValid(workouts, sets, workoutSeq, setSeq)
    ensures GetWorkoutById(workouts + [Workout(workoutSeq + 1, exercise, date)], workoutSeq + 1) == Some(Workout(workoutSeq + 1, exercise, date))
  {
    ByIdAfterAppend(workouts, Workout(workoutSeq + 1, exercise, date));
  }

  lemma {:induction false} ByIdAfterAppend(workouts: seq<Workout>, w: Workout)
    requires forall i :: 0 <= i < |workouts| ==> workouts[i].id < w.id
    ensures GetWorkoutById(workouts + [w], w.id) == Some(w)
  {
    if workouts == [] {
      assert workouts + [w] == [w];
    } else {
      assert (workouts + [w])[1..] == workouts[1..] + [w];
      ByIdAfterAppend(workouts[1..], w);
    }
  }

  /**
   * After a committed `addWorkout`, `getSets` of the new id returns exactly
   * the rows built from the inputs, in input order, and `getSets` of every
   * other workout is as before.
   */
  lemma AddedSetsReadBack(
    workouts: seq<Workout>, sets: seq<SetRecord>, workoutSeq: nat, setSeq: nat, inputs: seq<SetInput>, other: nat)
    requires TablesValid(workouts, sets, workoutSeq, setSeq)
    requires other != workoutSeq + 1
    ensures GetSets(sets + NewSetRows(setSeq + 1, workoutSeq + 1, inputs), workoutSeq + 1) == NewSetRows(setSeq + 1, workoutSeq + 1, inputs)
    ensures GetSets(sets + NewSetRows(setSeq + 1, workoutSeq + 1, inputs), other) == GetSets(sets, other)
  {
    var id := workoutSeq + 1;
    var added := NewSetRows(setSeq + 1, id, inputs);
    GetSetsConcat(sets, added, id);
    GetSetsConcat(sets, added, other);
    NoSetOfNewWorkout(workouts, sets, workoutSeq, setSeq);
    GetSetsNone(sets, id);
    GetSetsAll(added, id);
    GetSetsNone(added, other);
  }

  lemma NoSetOfNewWorkout(workouts: seq<Workout>, sets: seq<SetRecord>, workoutSeq: nat, setSeq: nat)
    requires TablesValid(workouts, sets, workoutSeq, setSeq)
    ensures forall i :: 0 <= i < |sets| ==> sets[i].workoutId <= workoutSeq
  {
    forall i | 0 <= i < |sets|
      ensures sets[i].workoutId <= workoutSeq
    {
      var v :| v in workouts && v.id == sets[i].workoutId;
      var k :| 0 <= k < |workouts| && workouts[k] == v;
    }
  }

  lemma GetSetsConcat(a: seq<SetRecord>, b: seq<SetRecord>, id: nat)
    ensures GetSets(a + b, id) == GetSets(a, id) + GetSets(b, id)
  {
    FilterConcat(a, b, (s: SetRecord) => s.workoutId == id);
  }

  lemma GetSetsAll(s: seq<SetRecord>, id: nat)
    requires forall i :: 0 <= i < |s| ==> s[i].workoutId == id
    ensures GetSets(s, id) == s
  {
    FilterAll(s, (r: SetRecord) => r.workoutId == id);
  }

  lemma GetSetsNone(s: seq<SetRecord>, id: nat)
    requires forall i :: 0 <= i < |s| ==> s[i].workoutId != id
    ensures GetSets(s, id) == []
  {
    FilterNone(s, (r: SetRecord) => r.workoutId == id);
  }

  /**
   * `deleteWorkout(id)` leaves no trace of the workout: `getWorkoutById` and
   * `getSets` find nothing for `id`, and no list of workouts contains it;
   * every other workout and every set of another workout is kept.
   */
  lemma DeleteRemovesWorkout(workouts: seq<Workout>, sets: seq<SetRecord>, id: nat, exercise: string)
    ensures GetWorkoutById(RemoveWorkout(workouts, id), id).None?
    ensures GetSets(CascadeSets(sets, id), id) == []
    ensures forall w :: w in GetWorkouts(RemoveWorkout(workouts, id), exercise) ==> w.id != id
    ensures forall w :: w in workouts && w.id != id ==> w in RemoveWorkout(workouts, id)
    ensures forall s :: s in sets && s.workoutId != id ==> s in CascadeSets(sets, id)
  {
    var remaining := CascadeSets(sets, id);
    assert forall i :: 0 <= i < |remaining| ==> remaining[i] in remaining;
    GetSetsNone(remaining, id);
  }

  /** Deleting an id that no workout has changes neither table. */
  lemma DeleteUnknownIsNoOp(workouts: seq<Workout>, sets: seq<SetRecord>, workoutSeq: nat, setSeq: nat, id: nat)
    requires TablesValid(workouts, sets, workoutSeq, setSeq)
    requires GetWorkoutById(workouts, id).None?
    ensures RemoveWorkout(workouts, id) == workouts
    ensures CascadeSets(sets, id) == sets
  {
    FilterAll(workouts, (w: Workout) => w.id != id);
    forall i | 0 <= i < |sets|
      ensures sets[i].workoutId != id
    {
      var v :| v in workouts && v.id == sets[i].workoutId;
      var k :| 0 <= k < |workouts| && workouts[k] == v;
    }
    FilterAll(sets, (s: SetRecord) => s.workoutId != id);
  }
}
