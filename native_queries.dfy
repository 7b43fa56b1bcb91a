/**
 * The read queries of lib/db.native.ts, each a function of the two tables:
 * lookups by id, the per-exercise workout list, the sets of a workout, the
 * "last" and "today" workouts, and the three record queries.
 */
module NativeQueries {
  import opened Common
  import opened Collation
  import opened Seqs
  import opened NativeSchema

  /** `SELECT * FROM workouts WHERE id = ? LIMIT 1`, null when no row has that id. */
  function GetWorkoutById(workouts: seq<Workout>, id: nat): (r: Option<Workout>)
    ensures r.None? <==> forall i :: 0 <= i < |workouts| ==> workouts[i].id != id
    ensures r.Some? ==> r.value in workouts && r.value.id == id
  {
    if workouts == [] then None
    else if workouts[0].id == id then Some(workouts[0])
    else GetWorkoutById(workouts[1..], id)
  }

  /** `SELECT * FROM workouts WHERE exercise = ? COLLATE NOCASE ORDER BY date DESC`. */
  function GetWorkouts(workouts: seq<Workout>, exercise: string): (r: seq<Workout>)
    ensures SortedDesc(r, DateOf)
    ensures forall w :: multiset(r)[w] == if NoCaseEq(w.exercise, exercise) then multiset(workouts)[w] else 0
    ensures forall w :: w in r <==> w in workouts && NoCaseEq(w.exercise, exercise)
  {
    var p := (w: Workout) => NoCaseEq(w.exercise, exercise);
    FilterMultiset(workouts, p);
    SortDesc(Filter(workouts, p), DateOf)
  }

  /** `SELECT * FROM sets WHERE workout_id = ? ORDER BY id`. */
  function GetSets(sets: seq<SetRecord>, workoutId: nat): (r: seq<SetRecord>)
    ensures forall s :: multiset(r)[s] == if s.workoutId == workoutId then multiset(sets)[s] else 0
    ensures forall s :: s in r <==> s in sets && s.workoutId == workoutId
  {
    var p := (s: SetRecord) => s.workoutId == workoutId;
    FilterMultiset(sets, p);
    Filter(sets, p)
  }

  /** The sets of a workout come in ascending id order (the table is kept in id order). */
  lemma GetSetsInIdOrder(sets: seq<SetRecord>, workoutId: nat)
    requires StrictlyAscending(sets, SetKey)
    ensures StrictlyAscending(GetSets(sets, workoutId), SetKey)
  {
    FilterKeepsAscending(sets, (s: SetRecord) => s.workoutId == workoutId, SetKey);
  }

  /**
   * `getLastWorkout`: the first workout of `getWorkouts` dated before
   * `today`, which is a latest such workout; null when there is none.
   */
  function GetLastWorkout(workouts: seq<Workout>, exercise: string, today: Date): (r: Option<Workout>)
    ensures r.None? <==> forall w :: w in workouts && NoCaseEq(w.exercise, exercise) ==> w.date >= today
    ensures r.Some? ==> r.value in workouts && NoCaseEq(r.value.exercise, exercise) && r.value.date < today
    ensures r.Some? ==> forall w :: w in workouts && NoCaseEq(w.exercise, exercise) && w.date < today ==> w.date <= r.value.date
  {
    var ordered := GetWorkouts(workouts, exercise);
    var r := Find(ordered, (w: Workout) => w.date < today);
    LatestMatch(ordered, (w: Workout) => w.date < today, r);
    r
  }

  /** `getTodayWorkout`: the first workout of `getWorkouts` dated `today`; null when there is none. */
  function GetTodayWorkout(workouts: seq<Workout>, exercise: string, today: Date): (r: Option<Workout>)
    ensures r.None? <==> forall w :: w in workouts && NoCaseEq(w.exercise, exercise) ==> w.date != today
    ensures r.Some? ==> r.value in workouts && NoCaseEq(r.value.exercise, exercise) && r.value.date == today
  {
    var ordered := GetWorkouts(workouts, exercise);
    var r := Find(ordered, (w: Workout) => w.date == today);
    assert r.None? <==> forall w :: w in ordered ==> w.date != today;
    r
  }

  /** In a list ordered by date descending, the first match is a latest match. */
  lemma LatestMatch(ordered: seq<Workout>, p: Workout -> bool, r: Option<Workout>)
    requires SortedDesc(ordered, DateOf)
    requires r == Find(ordered, p)
    ensures r.None? <==> forall w :: w in ordered ==> !p(w)
    ensures r.Some? ==> r.value in ordered && p(r.value)
    ensures r.Some? ==> forall w :: w in ordered && p(w) ==> w.date <= r.value.date
  {
    if r.Some? {
      var i :| 0 <= i < |ordered| && ordered[i] == r.value && p(ordered[i]) && forall j :: 0 <= j < i ==> !p(ordered[j]);
      forall w | w in ordered && p(w)
        ensures w.date <= r.value.date
      {
        var k :| 0 <= k < |ordered| && ordered[k] == w;
        assert i <= k;
        if i < k {
          assert DateOf(ordered[i]) >= DateOf(ordered[k]);
        }
      }
    }
  }

  /* ── records ───────────────────────────────────── */

  datatype Metric = Weight | Reps | Distance | Seconds

  datatype Direction = Max | Min

  /** A personal record: a value and the date of the workout it was set in. */
  datatype PR = PR(value: int, date: Date)

  /** The column `s.${metric}`. */
  function MetricOf(s: SetRecord, metric: Metric): Option<int>
  {
    match metric
    case Weight => s.weight
    case Reps => s.reps
    case Distance => s.distance
    case Seconds => s.seconds
  }

  /** One row of a `sets s JOIN workouts w ON w.id = s.workout_id`: the set and `w.date`. */
  datatype Joined = Joined(row: SetRecord, date: Date)

  /** `w.exercise = ?`, with `COLLATE NOCASE` when `noCase` holds. */
  predicate ExerciseMatches(name: string, exercise: string, noCase: bool)
  {
    if noCase then NoCaseEq(name, exercise) else name == exercise
  }

  /** Set `s` joins workout `w` of the exercise: `w.id = s.workout_id AND w.exercise = ?`. */
  predicate JoinsWith(w: Workout, s: SetRecord, exercise: string, noCase: bool)
  {
    w.id == s.workoutId && ExerciseMatches(w.exercise, exercise, noCase)
  }

  /** Set `s` is in the table and was recorded in a workout of `exercise` dated `date`. */
  ghost predicate RecordedOn(workouts: seq<Workout>, sets: seq<SetRecord>, exercise: string, noCase: bool, s: SetRecord, date: Date)
  {
    s in sets && exists w :: w in workouts && JoinsWith(w, s, exercise, noCase) && w.date == date
  }

  /** Some workout of `exercise` dated `date` is the one set `s` belongs to. */
  predicate WorkedOn(workouts: seq<Workout>, exercise: string, noCase: bool, date: Date, s: SetRecord)
  {
    exists w :: w in workouts && JoinsWith(w, s, exercise, noCase) && w.date == date
  }

  function JoinOne(workouts: seq<Workout>, s: SetRecord, exercise: string, noCase: bool): (r: seq<Joined>)
    ensures forall x :: x in r <==> x.row == s && exists w :: w in workouts && JoinsWith(w, s, exercise, noCase) && w.date == x.date
  {
    if workouts == [] then []
    else
      var w := workouts[0];
      var rest := JoinOne(workouts[1..], s, exercise, noCase);
      assert forall v :: v in workouts <==> v == w || v in workouts[1..];
      if JoinsWith(w, s, exercise, noCase) then [Joined(s, w.date)] + rest else rest
  }

  /**
   * The inner join of the sets with the workouts of `exercise`, in set
   * order. A workout without sets contributes no row.
   */
  function Join(workouts: seq<Workout>, sets: seq<SetRecord>, exercise: string, noCase: bool): (r: seq<Joined>)
    ensures forall x :: x in r <==> RecordedOn(workouts, sets, exercise, noCase, x.row, x.date)
  {
    if sets == [] then []
    else
      var rest := Join(workouts, sets[1..], exercise, noCase);
      var here := JoinOne(workouts, sets[0], exercise, noCase);
      assert forall s :: s in sets <==> s == sets[0] || s in sets[1..];
      here + rest
  }

  /** Joining depends on the exercise name only up to NOCASE. */
  lemma {:induction false} JoinNoCase(workouts: seq<Workout>, sets: seq<SetRecord>, a: string, b: string)
    requires NoCaseEq(a, b)
    ensures Join(workouts, sets, a, true) == Join(workouts, sets, b, true)
  {
    if sets != [] {
      JoinNoCase(workouts, sets[1..], a, b);
      JoinOneNoCase(workouts, sets[0], a, b);
    }
  }

  lemma {:induction false} JoinOneNoCase(workouts: seq<Workout>, s: SetRecord, a: string, b: string)
    requires NoCaseEq(a, b)
    ensures JoinOne(workouts, s, a, true) == JoinOne(workouts, s, b, true)
  {
    if workouts != [] {
      JoinOneNoCase(workouts[1..], s, a, b);
    }
  }

  /** The (value, date) pairs of the joined rows that `pick` selects a value from. */
  function Candidates(rows: seq<Joined>, pick: Joined -> Option<int>): (r: seq<PR>)
    ensures forall c :: c in r <==> exists x :: x in rows && pick(x) == Some(c.value) && x.date == c.date
  {
    if rows == [] then []
    else
      var rest := Candidates(rows[1..], pick);
      assert forall x :: x in rows <==> x == rows[0] || x in rows[1..];
      match pick(rows[0])
      case Some(v) => [PR(v, rows[0].date)] + rest
      case None => rest
  }

  /** `a` is at least as good as `b` for `ORDER BY ... DESC` (Max) or `ASC` (Min). */
  predicate AtLeastAsGood(a: int, b: int, what: Direction)
  {
    if what == Max then a >= b else a <= b
  }

  /** `ORDER BY value DESC|ASC LIMIT 1`; among equal values the first row is kept. */
  function Extreme(cs: seq<PR>, what: Direction): (r: Option<PR>)
    ensures r.None? <==> cs == []
    ensures r.Some? ==> r.value in cs
    ensures r.Some? ==> forall c :: c in cs ==> AtLeastAsGood(r.value.value, c.value, what)
  {
    if cs == [] then None
    else
      var rest := Extreme(cs[1..], what);
      assert forall c :: c in cs <==> c == cs[0] || c in cs[1..];
      if rest.Some? && !AtLeastAsGood(cs[0].value, rest.value.value, what) then rest
      else Some(cs[0])
  }

  /**
   * `getPersonalRecord(exercise, metric, what)`: the largest (Max) or smallest
   * (Min) non-null `metric` of any set of the exercise, with its workout's
   * date; null when no such set has the metric.
   */
  function GetPersonalRecord(workouts: seq<Workout>, sets: seq<SetRecord>, exercise: string, metric: Metric, what: Direction): (r: Option<PR>)
    ensures r.None? <==> forall s, d :: RecordedOn(workouts, sets, exercise, true, s, d) ==> MetricOf(s, metric).None?
    ensures r.Some? ==> exists s :: RecordedOn(workouts, sets, exercise, true, s, r.value.date) && MetricOf(s, metric) == Some(r.value.value)
    ensures r.Some? ==> forall s, d :: RecordedOn(workouts, sets, exercise, true, s, d) && MetricOf(s, metric).Some? ==>
      AtLeastAsGood(r.value.value, MetricOf(s, metric).value, what)
  {
    var pick := (x: Joined) => MetricOf(x.row, metric);
    var cs := Candidates(Join(workouts, sets, exercise, true), pick);
    var r := Extreme(cs, what);
    RecordFromCandidates(workouts, sets, exercise, pick, what, r);
    r
  }

  /**
   * `getMaxWeightForReps(exercise, targetReps)`: the heaviest weight of a set
   * with exactly `targetReps` reps and a weight, with its date; null when
   * there is no such set.
   */
  function GetMaxWeightForReps(workouts: seq<Workout>, sets: seq<SetRecord>, exercise: string, targetReps: int): (r: Option<PR>)
    ensures r.None? <==> forall s, d :: RecordedOn(workouts, sets, exercise, true, s, d) ==> !(s.reps == Some(targetReps) && s.weight.Some?)
    ensures r.Some? ==> exists s :: RecordedOn(workouts, sets, exercise, true, s, r.value.date) && s.reps == Some(targetReps) && s.weight == Some(r.value.value)
    ensures r.Some? ==> forall s, d :: RecordedOn(workouts, sets, exercise, true, s, d) && s.reps == Some(targetReps) && s.weight.Some? ==>
      s.weight.value <= r.value.value
  {
    var pick := (x: Joined) => if x.row.reps == Some(targetReps) then x.row.weight else None;
    var r := Extreme(Candidates(Join(workouts, sets, exercise, true), pick), Max);
    RecordFromCandidates(workouts, sets, exercise, pick, Max, r);
    r
  }

  /**
   * `getMaxRepsForWeight(exercise, targetWeight)`: the most reps of a set at
   * exactly `targetWeight` with a rep count, with its date; null when there
   * is no such set.
   */
  function GetMaxRepsForWeight(workouts: seq<Workout>, sets: seq<SetRecord>, exercise: string, targetWeight: int): (r: Option<PR>)
    ensures r.None? <==> forall s, d :: RecordedOn(workouts, sets, exercise, true, s, d) ==> !(s.weight == Some(targetWeight) && s.reps.Some?)
    ensures r.Some? ==> exists s :: RecordedOn(workouts, sets, exercise, true, s, r.value.date) && s.weight == Some(targetWeight) && s.reps == Some(r.value.value)
    ensures r.Some? ==> forall s, d :: RecordedOn(workouts, sets, exercise, true, s, d) && s.weight == Some(targetWeight) && s.reps.Some? ==>
      s.reps.value <= r.value.value
  {
    var pick := (x: Joined) => if x.row.weight == Some(targetWeight) then x.row.reps else None;
    var r := Extreme(Candidates(Join(workouts, sets, exercise, true), pick), Max);
    RecordFromCandidates(workouts, sets, exercise, pick, Max, r);
    r
  }

  /** What a record query promises, for any way `pick` reads a value off a joined row. */
  lemma RecordFromCandidates(workouts: seq<Workout>, sets: seq<SetRecord>, exercise: string, pick: Joined -> Option<int>, what: Direction, r: Option<PR>)
    requires r == Extreme(Candidates(Join(workouts, sets, exercise, true), pick), what)
    ensures r.None? <==> forall s, d :: RecordedOn(workouts, sets, exercise, true, s, d) ==> pick(Joined(s, d)).None?
    ensures r.Some? ==> exists s :: RecordedOn(workouts, sets, exercise, true, s, r.value.date) && pick(Joined(s, r.value.date)) == Some(r.value.value)
    ensures r.Some? ==> forall s, d :: RecordedOn(workouts, sets, exercise, true, s, d) && pick(Joined(s, d)).Some? ==>
      AtLeastAsGood(r.value.value, pick(Joined(s, d)).value, what)
  {
    var rows := Join(workouts, sets, exercise, true);
    var cs := Candidates(rows, pick);
    if r.None? {
      forall s, d | RecordedOn(workouts, sets, exercise, true, s, d)
        ensures pick(Joined(s, d)).None?
      {
        CandidateOf(rows, pick, Joined(s, d));
      }
    } else {
      var x :| x in rows && pick(x) == Some(r.value.value) && x.date == r.value.date;
      assert RecordedOn(workouts, sets, exercise, true, x.row, r.value.date);
      forall s, d | RecordedOn(workouts, sets, exercise, true, s, d) && pick(Joined(s, d)).Some?
        ensures AtLeastAsGood(r.value.value, pick(Joined(s, d)).value, what)
      {
        CandidateOf(rows, pick, Joined(s, d));
      }
    }
  }

  /** A joined row that `pick` reads a value off yields a candidate. */
  lemma CandidateOf(rows: seq<Joined>, pick: Joined -> Option<int>, x: Joined)
    requires x in rows
    ensures pick(x).Some? ==> PR(pick(x).value, x.date) in Candidates(rows, pick)
  {
  }

  /** Exercise names are matched up to case: `"squat"` and `"Squat"` list the same workouts. */
  lemma GetWorkoutsNoCase(workouts: seq<Workout>, a: string, b: string)
    requires NoCaseEq(a, b)
    ensures GetWorkouts(workouts, a) == GetWorkouts(workouts, b)
  {
    FilterSame(workouts, (w: Workout) => NoCaseEq(w.exercise, a), (w: Workout) => NoCaseEq(w.exercise, b));
  }

  /** Exercise names are matched up to case by all three record queries. */
  lemma RecordsNoCase(workouts: seq<Workout>, sets: seq<SetRecord>, a: string, b: string, metric: Metric, what: Direction, target: int)
    requires NoCaseEq(a, b)
    ensures GetPersonalRecord(workouts, sets, a, metric, what) == GetPersonalRecord(workouts, sets, b, metric, what)
    ensures GetMaxWeightForReps(workouts, sets, a, target) == GetMaxWeightForReps(workouts, sets, b, target)
    ensures GetMaxRepsForWeight(workouts, sets, a, target) == GetMaxRepsForWeight(workouts, sets, b, target)
  {
    JoinNoCase(workouts, sets, a, b);
  }
}
