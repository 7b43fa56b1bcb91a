/**
 * The `/workouts` routes of the backend over the remote `workouts` and
 * `sets` tables: the transactional POST, the caller's listing, and the
 * owner-scoped DELETE. The caller is the already authenticated user id.
 */
module WorkoutsRoute {
  import opened Common
  import opened Seqs
  import opened SqlText
  import opened InsertBuilder

  /** A row of the remote `workouts` table. */
  datatype WorkoutRow = WorkoutRow(id: nat, userId: nat, date: Date, note: Json)

  /** The POST body after destructuring; an absent `sets` is the empty list. */
  datatype PostBody = PostBody(date: Date, note: Json, sets: seq<SetBody>)

  /** The statement of the POST transaction that the database rejects. */
  datatype PostStep = InsertWorkout | InsertSets

  function RowId(w: WorkoutRow): int
  {
    w.id
  }

  function RowDate(w: WorkoutRow): int
  {
    w.date
  }

  /** Some workout of the table is numbered `id`. */
  predicate HasWorkout(workouts: seq<WorkoutRow>, id: nat)
  {
    exists w :: w in workouts && w.id == id
  }

  /**
   * The remote tables' guarantees: workout ids are unique, ascending and at
   * most the last value the id sequence handed out, and every set names an
   * existing workout (foreign key).
   */
  ghost predicate TablesValid(workouts: seq<WorkoutRow>, sets: seq<SetRow>, lastId: nat)
  {
    && StrictlyAscending(workouts, RowId)
    && (forall i :: 0 <= i < |workouts| ==> 1 <= workouts[i].id <= lastId)
    && (forall i :: 0 <= i < |sets| ==>
          sets[i].workoutId.Num? && sets[i].workoutId.n >= 0 && HasWorkout(workouts, sets[i].workoutId.n))
  }

  /* ---------- GET /workouts ---------- */

  /** `SELECT w.* FROM workouts w WHERE w.user_id = $1 ORDER BY w.date DESC`, for the caller. */
  function ListWorkouts(workouts: seq<WorkoutRow>, userId: nat): (r: seq<WorkoutRow>)
    ensures SortedDesc(r, RowDate)
    ensures forall w :: multiset(r)[w] == if w.userId == userId then multiset(workouts)[w] else 0
    ensures forall w :: w in r <==> w in workouts && w.userId == userId
  {
    var p := (w: WorkoutRow) => w.userId == userId;
    FilterMultiset(workouts, p);
    SortDesc(Filter(workouts, p), RowDate)
  }

  /* ---------- DELETE /workouts/:id ---------- */

  /** The caller owns a workout numbered `id`. */
  predicate Owns(workouts: seq<WorkoutRow>, id: nat, userId: nat)
  {
    exists w :: w in workouts && w.id == id && w.userId == userId
  }

  /** `DELETE FROM workouts WHERE id = $1 AND user_id = $2`. */
  function RemoveOwned(workouts: seq<WorkoutRow>, id: nat, userId: nat): (r: seq<WorkoutRow>)
    ensures forall w :: w in r <==> w in workouts && !(w.id == id && w.userId == userId)
    ensures StrictlyAscending(workouts, RowId) ==> StrictlyAscending(r, RowId)
  {
    var p := (w: WorkoutRow) => !(w.id == id && w.userId == userId);
    FilterKeepsAscendingIf(workouts, p, RowId);
    Filter(workouts, p)
  }

  /** The `ON DELETE CASCADE` of `sets.workout_id`: the sets of a deleted workout go with it. */
  function CascadeOwned(sets: seq<SetRow>, workouts: seq<WorkoutRow>, id: nat, userId: nat): (r: seq<SetRow>)
    ensures Owns(workouts, id, userId) ==> forall s :: s in r <==> s in sets && s.workoutId != Num(id)
    ensures Owns(workouts, id, userId) ==>
      forall s :: multiset(r)[s] == if s.workoutId != Num(id) then multiset(sets)[s] else 0
    ensures IsSubsequence(r, sets)
    ensures !Owns(workouts, id, userId) ==> r == sets
  {
    var p := (s: SetRow) => s.workoutId != Num(id);
    FilterMultiset(sets, p);
    FilterIsSubsequence(sets, p);
    SubsequenceOfSelf(sets);
    if Owns(workouts, id, userId) then Filter(sets, (s: SetRow) => s.workoutId != Num(id)) else sets
  }

  /**
   * The `:id` path segment as the integer the statement compares with; None
   * when it is not a decimal numeral, where the database rejects the statement.
   */
  function ParseId(text: string): (r: Option<nat>)
    ensures r.Some? <==> text != [] && AllDigits(text)
  {
    if text != [] && AllDigits(text) then Some(Value(text)) else None
  }

  /** An id written out in decimal is read back as itself. */
  lemma ParseIdOfDigits(id: nat)
    ensures ParseId(Digits(id)) == Some(id)
  {
    ValueOfDigits(id);
  }

  class RemoteDb {
    var workouts: seq<WorkoutRow>
    var sets: seq<SetRow>
    /** The last value the `workouts.id` sequence handed out. */
    var lastId: nat

    ghost predicate Valid()
      reads this
    {
      TablesValid(workouts, sets, lastId)
    }

    constructor ()
      ensures Valid()
      ensures workouts == [] && sets == [] && lastId == 0
    {
      workouts, sets, lastId := [], [], 0;
    }

    /**
     * `POST /workouts` for `userId`. Inside one transaction it inserts the
     * workout, then, when there are sets, one multi-row INSERT of them;
     * `failing` names the statement the database rejects, and the multi-row
     * INSERT is also rejected when it has more than `MaxParams` parameters
     * (16384 sets or more). Any rejection rolls
     * back both tables and answers 500; otherwise the handler commits and
     * answers 201. The id sequence is not transactional: once the workout row
     * has taken its id, the id stays used even when the sets are rolled back.
     */
    method PostWorkout(userId: nat, body: PostBody, failing: Option<PostStep>) returns (status: nat)
      requires Valid()
      modifies this
      ensures Valid()
      ensures status == 201 || status == 500
      ensures status == 201 <==>
        failing != Some(InsertWorkout) && (|body.sets| == 0 || (failing.None? && 1 + 4 * |body.sets| <= MaxParams))
      ensures status == 201 ==>
        && workouts == old(workouts) + [WorkoutRow(old(lastId) + 1, userId, body.date, body.note)]
        && sets == old(sets) + IntendedRows(old(lastId) + 1, body.sets)
        && lastId == old(lastId) + 1
      ensures status == 500 ==> workouts == old(workouts) && sets == old(sets)
      ensures status == 500 ==> lastId == if failing == Some(InsertWorkout) then old(lastId) else old(lastId) + 1
    {
      if failing == Some(InsertWorkout) {
        status := 500;
        return;
      }
      var id := lastId + 1;
      var row := WorkoutRow(id, userId, body.date, body.note);
      var added: seq<SetRow> := [];
      if |body.sets| > 0 {
        var values := ValuesText(|body.sets|);
        var params := Params(id, body.sets);
        StatementInsertsIntendedRows(id, body.sets);
        var inserted := InsertedRows(InsertPrefix + values, params);
        if failing == Some(InsertSets) || inserted.None? {
          lastId := id;
          status := 500;
          return;
        }
        added := inserted.value;
      }
      assert added == IntendedRows(id, body.sets);
      assert failing.Some? ==> failing.value.InsertSets? && failing == Some(InsertSets);
      PostKeepsValid(workouts, sets, lastId, row, added);
      workouts, sets, lastId := workouts + [row], sets + added, id;
      status := 201;
    }

    /**
     * `DELETE /workouts/:id` for `userId`: removes the workout only when both
     * its id and its owner match, and with it its sets; answers 204 whether or
     * not a row matched, and 500 when the statement fails.
     */
    method DeleteWorkout(userId: nat, idText: string, failing: bool) returns (status: nat)
      requires Valid()
      modifies this
      ensures Valid()
      ensures status == 204 || status == 500
      ensures status == 204 <==> !failing && ParseId(idText).Some?
      ensures status == 204 ==>
        && workouts == RemoveOwned(old(workouts), ParseId(idText).value, userId)
        && sets == CascadeOwned(old(sets), old(workouts), ParseId(idText).value, userId)
      ensures status == 500 ==> workouts == old(workouts) && sets == old(sets)
      ensures lastId == old(lastId)
    {
      var id := ParseId(idText);
      if failing || id.None? {
        status := 500;
        return;
      }
      DeleteKeepsValid(workouts, sets, lastId, id.value, userId);
      workouts, sets := RemoveOwned(workouts, id.value, userId), CascadeOwned(sets, workouts, id.value, userId);
      status := 204;
    }
  }

  /* ---------- What the routes guarantee ---------- */

  /** A committed POST keeps the tables' guarantees. */
  lemma PostKeepsValid(workouts: seq<WorkoutRow>, sets: seq<SetRow>, lastId: nat, row: WorkoutRow, added: seq<SetRow>)
    requires TablesValid(workouts, sets, lastId)
    requires row.id == lastId + 1
    requires forall i :: 0 <= i < |added| ==> added[i].workoutId == Num(row.id)
    ensures TablesValid(workouts + [row], sets + added, lastId + 1)
  {
    var ws := workouts + [row];
    var ss := sets + added;
    assert row in ws;
    forall i | 0 <= i < |ss|
      ensures ss[i].workoutId.Num? && ss[i].workoutId.n >= 0 && HasWorkout(ws, ss[i].workoutId.n)
    {
      if i < |sets| {
        assert ss[i] == sets[i];
        assert HasWorkout(workouts, sets[i].workoutId.n);
        var v :| v in workouts && v.id == sets[i].workoutId.n;
        assert v in ws;
      } else {
        assert ss[i] == added[i - |sets|];
      }
    }
    forall i, j | 0 <= i < j < |ws|
      ensures RowId(ws[i]) < RowId(ws[j])
    {
      if j == |workouts| {
        assert ws[i] == workouts[i];
      }
    }
  }

  /** A DELETE keeps the tables' guarantees: only sets of the removed workout lose their parent. */
  lemma DeleteKeepsValid(workouts: seq<WorkoutRow>, sets: seq<SetRow>, lastId: nat, id: nat, userId: nat)
    requires TablesValid(workouts, sets, lastId)
    ensures TablesValid(RemoveOwned(workouts, id, userId), CascadeOwned(sets, workouts, id, userId), lastId)
  {
    var ws := RemoveOwned(workouts, id, userId);
    var ss := CascadeOwned(sets, workouts, id, userId);
    forall i | 0 <= i < |ws|
      ensures 1 <= ws[i].id <= lastId
    {
      assert ws[i] in workouts;
    }
    forall i | 0 <= i < |ss|
      ensures ss[i].workoutId.Num? && ss[i].workoutId.n >= 0 && HasWorkout(ws, ss[i].workoutId.n)
    {
      assert ss[i] in sets;
      var k :| 0 <= k < |sets| && sets[k] == ss[i];
      var wid := sets[k].workoutId.n;
      assert HasWorkout(workouts, wid);
      var v :| v in workouts && v.id == wid;
      if v.id == id && v.userId == userId {
        assert false;
      }
      assert v in ws;
    }
  }

  /** Ids are unique: two rows with the same id are the same row. */
  lemma UniqueIds(workouts: seq<WorkoutRow>, a: WorkoutRow, b: WorkoutRow)
    requires StrictlyAscending(workouts, RowId)
    requires a in workouts && b in workouts && a.id == b.id
    ensures a == b
  {
    var i :| 0 <= i < |workouts| && workouts[i] == a;
    var j :| 0 <= j < |workouts| && workouts[j] == b;
    assert i == j;
  }

  /** A DELETE never changes what another user's GET returns. */
  lemma DeleteSparesOtherUsers(workouts: seq<WorkoutRow>, id: nat, userId: nat, other: nat)
    requires other != userId
    ensures ListWorkouts(RemoveOwned(workouts, id, userId), other) == ListWorkouts(workouts, other)
  {
    FilterFilter(workouts, (w: WorkoutRow) => !(w.id == id && w.userId == userId),
                 (w: WorkoutRow) => w.userId == other);
  }

  /** A DELETE of an id the caller does not own, such as another user's workout, changes nothing. */
  lemma DeleteOfForeignIdIsNoOp(workouts: seq<WorkoutRow>, sets: seq<SetRow>, id: nat, userId: nat)
    requires !Owns(workouts, id, userId)
    ensures RemoveOwned(workouts, id, userId) == workouts
    ensures CascadeOwned(sets, workouts, id, userId) == sets
  {
    var p := (w: WorkoutRow) => !(w.id == id && w.userId == userId);
    forall i | 0 <= i < |workouts|
      ensures p(workouts[i])
    {
      assert workouts[i] in workouts;
    }
    FilterAll(workouts, p);
  }

  /** After a DELETE the caller owns no workout with that id, and none of its sets remain. */
  lemma DeleteRemovesOwned(workouts: seq<WorkoutRow>, sets: seq<SetRow>, lastId: nat, id: nat, userId: nat)
    requires TablesValid(workouts, sets, lastId)
    requires Owns(workouts, id, userId)
    ensures !Owns(RemoveOwned(workouts, id, userId), id, userId)
    ensures !HasWorkout(RemoveOwned(workouts, id, userId), id)
    ensures forall s :: s in CascadeOwned(sets, workouts, id, userId) ==> s.workoutId != Num(id)
  {
    var ws := RemoveOwned(workouts, id, userId);
    var o :| o in workouts && o.id == id && o.userId == userId;
    if HasWorkout(ws, id) {
      var v :| v in ws && v.id == id;
      UniqueIds(workouts, v, o);
      assert false;
    }
  }

  /** A committed POST shows up in the caller's GET. */
  lemma PostIsListed(workouts: seq<WorkoutRow>, row: WorkoutRow)
    ensures row in ListWorkouts(workouts + [row], row.userId)
  {
  }

  /** A committed POST changes no other user's GET. */
  lemma PostSparesOtherUsers(workouts: seq<WorkoutRow>, row: WorkoutRow, other: nat)
    requires other != row.userId
    ensures ListWorkouts(workouts + [row], other) == ListWorkouts(workouts, other)
  {
    var p := (w: WorkoutRow) => w.userId == other;
    FilterConcat(workouts, [row], p);
    FilterNone([row], p);
    assert Filter(workouts + [row], p) == Filter(workouts, p);
  }
}
