/**
 * `getExerciseStatsHistory` of lib/db.native.ts: one row per day that has
 * sets of the exercise, with the day's volume, top weight and the reps done
 * at that weight. The grouping query is modelled as a function; the loop that
 * looks up the reps of each day and pushes the result is a method.
 */
module NativeHistory {
  import opened Common
  import opened Seqs
  import opened NativeSchema
  import opened NativeQueries

  /** An element of the returned array. `volume` and `topWeight` are SQL aggregates and may be NULL. */
  datatype DayStats = DayStats(date: Date, volume: Option<int>, topWeight: Option<int>, reps: int)

  /** A row of the grouping query (lib/db.native.ts:220-234). */
  datatype GroupRow = GroupRow(date: Date, volume: Option<int>, topWeight: Option<int>)

  /** The sets of the joined rows dated `d`, in row order: the group of `d`, one set per joined row. */
  function SetsOn(rows: seq<Joined>, d: Date): (r: seq<SetRecord>)
    ensures forall s :: s in r <==> Joined(s, d) in rows
  {
    if rows == [] then []
    else
      var rest := SetsOn(rows[1..], d);
      assert forall x :: x in rows <==> x == rows[0] || x in rows[1..];
      if rows[0].date == d then [rows[0].row] + rest else rest
  }

  /** A day's group holds each set as often as the joined rows pair it with that day. */
  lemma {:induction false} SetsOnMultiset(rows: seq<Joined>, d: Date)
    ensures forall s :: multiset(SetsOn(rows, d))[s] == multiset(rows)[Joined(s, d)]
  {
    if rows != [] {
      SetsOnMultiset(rows[1..], d);
      assert rows == [rows[0]] + rows[1..];
    }
  }

  /** Grouping distributes over concatenated rows. */
  lemma {:induction false} SetsOnConcat(a: seq<Joined>, b: seq<Joined>, d: Date)
    ensures SetsOn(a + b, d) == SetsOn(a, d) + SetsOn(b, d)
  {
    if a == [] {
      assert a + b == b;
    } else {
      assert (a + b)[0] == a[0];
      assert (a + b)[1..] == a[1..] + b;
      SetsOnConcat(a[1..], b, d);
    }
  }

  /**
   * The sets table filtered to the sets of a workout of `exercise` (exact
   * match) dated `d`: each stored set once, in table order.
   */
  function SetsOfDay(workouts: seq<Workout>, sets: seq<SetRecord>, exercise: string, d: Date): seq<SetRecord>
  {
    Filter(sets, (s: SetRecord) => WorkedOn(workouts, exercise, false, d, s))
  }

  /**
   * When workout ids are unique, a set joins at most one workout, so the
   * group of a day holds each of that day's stored sets exactly once and in
   * table order: the join neither drops nor repeats a set.
   */
  lemma {:induction false} DaySetsAreSetsOfDay(workouts: seq<Workout>, sets: seq<SetRecord>, exercise: string, d: Date)
    requires StrictlyAscending(workouts, WorkoutKey)
    ensures DaySets(workouts, sets, exercise, d) == SetsOfDay(workouts, sets, exercise, d)
  {
    var p := (s: SetRecord) => WorkedOn(workouts, exercise, false, d, s);
    if sets != [] {
      DaySetsAreSetsOfDay(workouts, sets[1..], exercise, d);
      JoinOneOn(workouts, sets[0], exercise, d);
      SetsOnConcat(JoinOne(workouts, sets[0], exercise, false), Join(workouts, sets[1..], exercise, false), d);
      assert Filter(sets, p) == (if p(sets[0]) then [sets[0]] else []) + Filter(sets[1..], p);
    }
  }

  /**
   * Under unique workout ids the join holds each stored set of a day's
   * workout of `exercise` once per copy in the table, paired with that day,
   * and holds no other pair.
   */
  lemma JoinCountsEachSetOnce(workouts: seq<Workout>, sets: seq<SetRecord>, exercise: string, s: SetRecord, d: Date)
    requires StrictlyAscending(workouts, WorkoutKey)
    ensures multiset(Join(workouts, sets, exercise, false))[Joined(s, d)]
         == if WorkedOn(workouts, exercise, false, d, s) then multiset(sets)[s] else 0
    ensures multiset(DaySets(workouts, sets, exercise, d))[s]
         == if WorkedOn(workouts, exercise, false, d, s) then multiset(sets)[s] else 0
  {
    SetsOnMultiset(Join(workouts, sets, exercise, false), d);
    DaySetsAreSetsOfDay(workouts, sets, exercise, d);
    FilterMultiset(sets, (x: SetRecord) => WorkedOn(workouts, exercise, false, d, x));
  }

  lemma DaySetsAreSetsOfDayIf(workouts: seq<Workout>, sets: seq<SetRecord>, exercise: string)
    ensures StrictlyAscending(workouts, WorkoutKey) ==>
      forall d :: DaySets(workouts, sets, exercise, d) == SetsOfDay(workouts, sets, exercise, d)
  {
    if StrictlyAscending(workouts, WorkoutKey) {
      forall d
        ensures DaySets(workouts, sets, exercise, d) == SetsOfDay(workouts, sets, exercise, d)
      {
        DaySetsAreSetsOfDay(workouts, sets, exercise, d);
      }
    }
  }

  /** Under unique workout ids, one set contributes itself to a day's group iff its workout is of that day. */
  lemma {:induction false} JoinOneOn(workouts: seq<Workout>, s: SetRecord, exercise: string, d: Date)
    requires StrictlyAscending(workouts, WorkoutKey)
    ensures SetsOn(JoinOne(workouts, s, exercise, false), d) == if WorkedOn(workouts, exercise, false, d, s) then [s] else []
  {
    if workouts != [] {
      var w := workouts[0];
      var tail := workouts[1..];
      assert StrictlyAscending(tail, WorkoutKey) by {
        forall i, j | 0 <= i < j < |tail|
          ensures WorkoutKey(tail[i]) < WorkoutKey(tail[j])
        {
          assert tail[i] == workouts[i + 1] && tail[j] == workouts[j + 1];
        }
      }
      assert forall v :: v in workouts <==> v == w || v in tail;
      if JoinsWith(w, s, exercise, false) {
        forall i | 0 <= i < |tail|
          ensures tail[i].id != s.workoutId
        {
          assert WorkoutKey(workouts[0]) < WorkoutKey(workouts[i + 1]);
        }
        JoinOneOfAbsent(tail, s, exercise);
        assert JoinOne(workouts, s, exercise, false) == [Joined(s, w.date)];
      } else {
        JoinOneOn(tail, s, exercise, d);
      }
    }
  }

  /** A set whose workout id no workout has joins nothing. */
  lemma {:induction false} JoinOneOfAbsent(workouts: seq<Workout>, s: SetRecord, exercise: string)
    requires forall i :: 0 <= i < |workouts| ==> workouts[i].id != s.workoutId
    ensures JoinOne(workouts, s, exercise, false) == []
  {
    if workouts != [] {
      JoinOneOfAbsent(workouts[1..], s, exercise);
    }
  }

  /** The sets of workouts of `exercise` (matched case-sensitively) dated `d`. */
  function DaySets(workouts: seq<Workout>, sets: seq<SetRecord>, exercise: string, d: Date): seq<SetRecord>
  {
    SetsOn(Join(workouts, sets, exercise, false), d)
  }

  /** `s.weight * s.reps`: NULL when either factor is NULL. */
  function Product(s: SetRecord): (r: Option<int>)
    ensures r.Some? <==> s.weight.Some? && s.reps.Some?
    ensures r.Some? ==> r.value == s.weight.value * s.reps.value
  {
    if s.weight.Some? && s.reps.Some? then Some(s.weight.value * s.reps.value) else None
  }

  /** SQL addition inside SUM: a NULL term is skipped; NULL only if both are. */
  function AddSkippingNull(a: Option<int>, b: Option<int>): (r: Option<int>)
    ensures r.None? <==> a.None? && b.None?
    ensures a.None? ==> r == b
    ensures b.None? ==> r == a
  {
    match (a, b)
    case (None, _) => b
    case (_, None) => a
    case (Some(x), Some(y)) => Some(x + y)
  }

  /** `SUM(s.weight * s.reps)`: NULL products are skipped, and a group whose every product is NULL sums to NULL. */
  function Volume(ss: seq<SetRecord>): (r: Option<int>)
    ensures r.None? <==> forall i :: 0 <= i < |ss| ==> Product(ss[i]).None?
  {
    if ss == [] then None else AddSkippingNull(Product(ss[0]), Volume(ss[1..]))
  }

  /** The volume of two groups together is the SQL sum of their volumes. */
  lemma {:induction false} VolumeConcat(a: seq<SetRecord>, b: seq<SetRecord>)
    ensures Volume(a + b) == AddSkippingNull(Volume(a), Volume(b))
  {
    if a == [] {
      assert a + b == b;
    } else {
      assert (a + b)[0] == a[0];
      assert (a + b)[1..] == a[1..] + b;
      VolumeConcat(a[1..], b);
    }
  }

  /** `MAX(s.weight)`: NULL weights are skipped; NULL when every weight is NULL. */
  function TopWeight(ss: seq<SetRecord>): (r: Option<int>)
    ensures r.None? <==> forall i :: 0 <= i < |ss| ==> ss[i].weight.None?
    ensures r.Some? ==> exists i :: 0 <= i < |ss| && ss[i].weight == r
    ensures r.Some? ==> forall i :: 0 <= i < |ss| && ss[i].weight.Some? ==> ss[i].weight.value <= r.value
  {
    if ss == [] then None
    else
      var rest := TopWeight(ss[1..]);
      assert forall i :: 1 <= i < |ss| ==> ss[i] == ss[1..][i - 1];
      var r :=
        if ss[0].weight.None? then rest
        else if rest.Some? && rest.value > ss[0].weight.value then rest
        else ss[0].weight;
      assert r.Some? && r != ss[0].weight ==> exists i :: 0 <= i < |ss[1..]| && ss[1..][i].weight == r;
      r
  }

  /** Some set of `exercise` (exact match) was recorded on day `d`. */
  ghost predicate Trained(workouts: seq<Workout>, sets: seq<SetRecord>, exercise: string, d: Date)
  {
    exists s :: RecordedOn(workouts, sets, exercise, false, s, d)
  }

  /** The dates of the joined rows that lie in `[start, end]` (`w.date BETWEEN ? AND ?`). */
  function DatesBetween(rows: seq<Joined>, start: Date, end: Date): (r: seq<Date>)
    ensures forall d :: d in r <==> start <= d <= end && exists s :: Joined(s, d) in rows
  {
    if rows == [] then []
    else
      var rest := DatesBetween(rows[1..], start, end);
      assert forall x :: x in rows <==> x == rows[0] || x in rows[1..];
      if start <= rows[0].date <= end then [rows[0].date] + rest else rest
  }

  /**
   * The grouping query: the days in `[start, end]` with at least one set of
   * `exercise` (exact match, no NOCASE), in ascending order, each with the
   * SUM and MAX over that day's sets.
   */
  function GroupRows(workouts: seq<Workout>, sets: seq<SetRecord>, exercise: string, start: Date, end: Date): (r: seq<GroupRow>)
    ensures forall i, j :: 0 <= i < j < |r| ==> r[i].date < r[j].date
    ensures forall i :: 0 <= i < |r| ==> start <= r[i].date <= end && Trained(workouts, sets, exercise, r[i].date)
    ensures forall s, d :: RecordedOn(workouts, sets, exercise, false, s, d) && start <= d <= end ==> exists i :: 0 <= i < |r| && r[i].date == d
    ensures forall i :: 0 <= i < |r| ==> r[i].volume == Volume(DaySets(workouts, sets, exercise, r[i].date))
    ensures forall i :: 0 <= i < |r| ==> r[i].topWeight == TopWeight(DaySets(workouts, sets, exercise, r[i].date))
    ensures StrictlyAscending(workouts, WorkoutKey) ==> forall i :: 0 <= i < |r| ==>
      r[i].volume == Volume(SetsOfDay(workouts, sets, exercise, r[i].date))
      && r[i].topWeight == TopWeight(SetsOfDay(workouts, sets, exercise, r[i].date))
  {
    DaySetsAreSetsOfDayIf(workouts, sets, exercise);
    var rows := Join(workouts, sets, exercise, false);
    var days := DistinctAscending(DatesBetween(rows, start, end));
    var r := Aggregate(rows, days);
    GroupRowsDays(workouts, sets, exercise, start, end, rows, days, r);
    r
  }

  /** One aggregated row per day of `days`, in that order. */
  function Aggregate(rows: seq<Joined>, days: seq<Date>): (r: seq<GroupRow>)
    ensures |r| == |days|
    ensures forall i :: 0 <= i < |r| ==> r[i].date == days[i]
    ensures forall i :: 0 <= i < |r| ==> r[i].volume == Volume(SetsOn(rows, days[i])) && r[i].topWeight == TopWeight(SetsOn(rows, days[i]))
  {
    if days == [] then []
    else [GroupRow(days[0], Volume(SetsOn(rows, days[0])), TopWeight(SetsOn(rows, days[0])))] + Aggregate(rows, days[1..])
  }

  lemma GroupRowsDays(workouts: seq<Workout>, sets: seq<SetRecord>, exercise: string, start: Date, end: Date,
                      rows: seq<Joined>, days: seq<Date>, r: seq<GroupRow>)
    requires rows == Join(workouts, sets, exercise, false)
    requires days == DistinctAscending(DatesBetween(rows, start, end))
    requires r == Aggregate(rows, days)
    ensures forall i :: 0 <= i < |r| ==> start <= r[i].date <= end && Trained(workouts, sets, exercise, r[i].date)
    ensures forall s, d :: RecordedOn(workouts, sets, exercise, false, s, d) && start <= d <= end ==> exists i :: 0 <= i < |r| && r[i].date == d
  {
    forall i | 0 <= i < |r|
      ensures start <= r[i].date <= end && Trained(workouts, sets, exercise, r[i].date)
    {
      assert days[i] in days;
      var s :| Joined(s, days[i]) in rows;
      assert RecordedOn(workouts, sets, exercise, false, s, r[i].date);
    }
    forall s, d | RecordedOn(workouts, sets, exercise, false, s, d) && start <= d <= end
      ensures exists i :: 0 <= i < |r| && r[i].date == d
    {
      assert Joined(s, d) in rows;
      assert d in days;
      var i :| 0 <= i < |days| && days[i] == d;
      assert r[i].date == d;
    }
  }

  /**
   * The follow-up query of each day: the reps of the first set of that day
   * whose weight equals `topWeight`, or 0 when there is none or its reps are
   * NULL (`repsRow?.reps ?? 0`). `s.weight = NULL` holds of no row, so a NULL
   * top weight gives 0.
   */
  function RepsAtTopWeight(workouts: seq<Workout>, sets: seq<SetRecord>, exercise: string, d: Date, topWeight: Option<int>): (r: int)
    ensures topWeight.None? ==> r == 0
    ensures topWeight.Some? && (exists s :: RecordedOn(workouts, sets, exercise, false, s, d) && s.weight == topWeight) ==>
      exists s :: RecordedOn(workouts, sets, exercise, false, s, d) && s.weight == topWeight && r == s.reps.GetOr(0)
    ensures !(exists s :: RecordedOn(workouts, sets, exercise, false, s, d) && s.weight == topWeight) ==> r == 0
  {
    var rows := Join(workouts, sets, exercise, false);
    var hit := Find(rows, (x: Joined) => x.date == d && topWeight.Some? && x.row.weight == topWeight);
    if hit.None? then
      assert forall s :: RecordedOn(workouts, sets, exercise, false, s, d) ==> Joined(s, d) in rows;
      0
    else
      assert hit.value in rows;
      hit.value.row.reps.GetOr(0)
  }

  /**
   * What `getExerciseStatsHistory` promises of its result `out`: one entry per
   * date in `[startISO, endISO]` on which `exercise` (compared exactly) has a
   * set, strictly ascending and none missing; each entry carries that day's
   * SUM volume and MAX weight, and reps 0 when the top weight is NULL, and
   * otherwise the reps (0 when NULL) of one of that day's sets lifted at
   * exactly the top weight. When workout ids are unique, as the primary key
   * makes them, the aggregates are taken over each stored set of the day once.
   */
  ghost predicate IsStatsHistory(workouts: seq<Workout>, sets: seq<SetRecord>, exercise: string, startISO: Date, endISO: Date,
                                 out: seq<DayStats>)
  {
    && (forall i, j :: 0 <= i < j < |out| ==> out[i].date < out[j].date)
    && (forall i :: 0 <= i < |out| ==>
          startISO <= out[i].date <= endISO && Trained(workouts, sets, exercise, out[i].date))
    && (forall s, d :: RecordedOn(workouts, sets, exercise, false, s, d) && startISO <= d <= endISO ==>
          exists i :: 0 <= i < |out| && out[i].date == d)
    && (forall i :: 0 <= i < |out| ==> out[i].volume == Volume(DaySets(workouts, sets, exercise, out[i].date)))
    && (forall i :: 0 <= i < |out| ==> out[i].topWeight == TopWeight(DaySets(workouts, sets, exercise, out[i].date)))
    && (StrictlyAscending(workouts, WorkoutKey) ==> forall i :: 0 <= i < |out| ==>
          out[i].volume == Volume(SetsOfDay(workouts, sets, exercise, out[i].date))
          && out[i].topWeight == TopWeight(SetsOfDay(workouts, sets, exercise, out[i].date)))
    && (forall i :: 0 <= i < |out| && out[i].topWeight.None? ==> out[i].reps == 0)
    && (forall i :: 0 <= i < |out| && out[i].topWeight.Some? ==>
          exists s :: RecordedOn(workouts, sets, exercise, false, s, out[i].date)
                      && s.weight == out[i].topWeight && out[i].reps == s.reps.GetOr(0))
  }

  /**
   * `getExerciseStatsHistory(exercise, startISO, endISO)`: for every day in
   * `[startISO, endISO]` with at least one set of `exercise`, once and in
   * ascending order, the day's volume (SUM of weight * reps), its top weight
   * (MAX of weight) and the reps of a set of that day lifted at the top
   * weight (0 when the top weight is NULL or those reps are NULL).
   */
  method GetExerciseStatsHistory(workouts: seq<Workout>, sets: seq<SetRecord>, exercise: string, startISO: Date, endISO: Date)
    returns (out: seq<DayStats>)
    ensures IsStatsHistory(workouts, sets, exercise, startISO, endISO, out)
  {
    var rows := GroupRows(workouts, sets, exercise, startISO, endISO);
    out := PushStats(workouts, sets, exercise, rows);
    HistoryValues(workouts, sets, exercise, startISO, endISO, out);
  }

  /** The `for (const row of rows)` loop: looks up each group's reps and pushes the entry. */
  method PushStats(workouts: seq<Workout>, sets: seq<SetRecord>, exercise: string, rows: seq<GroupRow>)
    returns (out: seq<DayStats>)
    ensures |out| == |rows|
    ensures forall k :: 0 <= k < |rows| ==> out[k] == StatsOf(workouts, sets, exercise, rows[k])
  {
    out := [];
    var i := 0;
    while i < |rows|
      invariant 0 <= i <= |rows|
      invariant |out| == i
      invariant forall k :: 0 <= k < i ==> out[k] == StatsOf(workouts, sets, exercise, rows[k])
    {
      out := out + [StatsOf(workouts, sets, exercise, rows[i])];
      i := i + 1;
    }
  }

  /** One output row of the history: the group's date and aggregates, with the reps looked up for its top weight. */
  function StatsOf(workouts: seq<Workout>, sets: seq<SetRecord>, exercise: string, row: GroupRow): DayStats
  {
    DayStats(row.date, row.volume, row.topWeight, RepsAtTopWeight(workouts, sets, exercise, row.date, row.topWeight))
  }

  /** What the output rows mean, given that they are the groups with their reps. */
  lemma HistoryValues(workouts: seq<Workout>, sets: seq<SetRecord>, exercise: string, startISO: Date, endISO: Date,
                      out: seq<DayStats>)
    requires |out| == |GroupRows(workouts, sets, exercise, startISO, endISO)|
    requires forall k :: 0 <= k < |out| ==>
      out[k] == StatsOf(workouts, sets, exercise, GroupRows(workouts, sets, exercise, startISO, endISO)[k])
    ensures IsStatsHistory(workouts, sets, exercise, startISO, endISO, out)
  {
    var rows := GroupRows(workouts, sets, exercise, startISO, endISO);
    DaySetsAreSetsOfDayIf(workouts, sets, exercise);
    forall s, d | RecordedOn(workouts, sets, exercise, false, s, d) && startISO <= d <= endISO
      ensures exists i :: 0 <= i < |out| && out[i].date == d
    {
      var i :| 0 <= i < |rows| && rows[i].date == d;
      assert out[i].date == d;
    }
    forall k | 0 <= k < |out| && out[k].topWeight.Some?
      ensures exists s :: RecordedOn(workouts, sets, exercise, false, s, out[k].date) && s.weight == out[k].topWeight && out[k].reps == s.reps.GetOr(0)
    {
      TopWeightAttained(workouts, sets, exercise, out[k].date);
    }
  }

  /** A non-NULL top weight of a day is the weight of one of that day's sets. */
  lemma TopWeightAttained(workouts: seq<Workout>, sets: seq<SetRecord>, exercise: string, d: Date)
    requires TopWeight(DaySets(workouts, sets, exercise, d)).Some?
    ensures exists s :: RecordedOn(workouts, sets, exercise, false, s, d) && s.weight == TopWeight(DaySets(workouts, sets, exercise, d))
  {
    var day := DaySets(workouts, sets, exercise, d);
    var i :| 0 <= i < |day| && day[i].weight == TopWeight(day);
    assert day[i] in day;
    assert Joined(day[i], d) in Join(workouts, sets, exercise, false);
  }
}
