/**
 * The browser fallback of the store (lib/db.web.ts): a key-value store in
 * which the key `hist:<exercise>` holds the list of that exercise's entries.
 */
module WebStore {
  import opened Common
  import opened Seqs

  /** What `addWorkout` is given per set. */
  datatype SetInput = SetInput(weight: Option<int>, reps: Option<int>)

  /**
   * A stored `{ date, ...sets[0] }`. A field the first set lacks, or that is
   * null, is None; an empty `sets` leaves both None.
   */
  datatype Entry = Entry(date: Date, weight: Option<int>, reps: Option<int>)

  /** The key of an exercise's list: `hist:${exercise}`. */
  function Key(exercise: string): string
  {
    "hist:" + exercise
  }

  /** Different exercises have different keys. */
  lemma KeyInjective(a: string, b: string)
    ensures Key(a) == Key(b) ==> a == b
  {
    if Key(a) == Key(b) {
      assert a == Key(a)[5..];
      assert b == Key(b)[5..];
    }
  }

  /** `(await store.getItem(key)) ?? []`. */
  function Stored(items: map<string, seq<Entry>>, key: string): (r: seq<Entry>)
    ensures key in items ==> r == items[key]
    ensures key !in items ==> r == []
  {
    if key in items then items[key] else []
  }

  /** `{ date: dateISO, ...sets[0] }`. */
  function EntryFor(dateISO: Date, sets: seq<SetInput>): (e: Entry)
    ensures e.date == dateISO
    ensures sets != [] ==> e.weight == sets[0].weight && e.reps == sets[0].reps
    ensures sets == [] ==> e.weight.None? && e.reps.None?
  {
    if sets == [] then Entry(dateISO, None, None) else Entry(dateISO, sets[0].weight, sets[0].reps)
  }

  class Store {
    var items: map<string, seq<Entry>>

    /**
     * `localforage.createInstance({ name: 'whoop-db' })`: the instance opens
     * on whatever lists earlier sessions persisted under its keys, empty for
     * a first run.
     */
    constructor (persisted: map<string, seq<Entry>>)
      ensures items == persisted
    {
      items := persisted;
    }

    /**
     * `addWorkout(exercise, dateISO, sets)`: reads the exercise's list, pushes
     * one entry built from the date and the first set, and writes the list
     * back under the same key. Only that key changes.
     */
    method AddWorkout(exercise: string, dateISO: Date, sets: seq<SetInput>)
      modifies this
      ensures items == old(items)[Key(exercise) := Stored(old(items), Key(exercise)) + [EntryFor(dateISO, sets)]]
    {
      var key := Key(exercise);
      var hist := Stored(items, key);
      hist := hist + [EntryFor(dateISO, sets)];
      items := items[key := hist];
    }
  }

  /** `getExerciseStatsHistory(exercise, isoStart, isoEnd)`: the stored entries with `isoStart <= date <= isoEnd`. */
  function GetExerciseStatsHistory(items: map<string, seq<Entry>>, exercise: string, isoStart: Date, isoEnd: Date): (r: seq<Entry>)
    ensures forall e :: e in r <==> e in Stored(items, Key(exercise)) && isoStart <= e.date <= isoEnd
    ensures forall e :: multiset(r)[e] == if isoStart <= e.date <= isoEnd then multiset(Stored(items, Key(exercise)))[e] else 0
    ensures IsSubsequence(r, Stored(items, Key(exercise)))
  {
    var hist := Stored(items, Key(exercise));
    var inRange := (h: Entry) => h.date >= isoStart && h.date <= isoEnd;
    FilterMultiset(hist, inRange);
    FilterIsSubsequence(hist, inRange);
    Filter(hist, inRange)
  }

  /** Adding keeps every earlier entry of the exercise, in order, and appends exactly one. */
  lemma AddAppends(items: map<string, seq<Entry>>, exercise: string, dateISO: Date, sets: seq<SetInput>)
    ensures var after := items[Key(exercise) := Stored(items, Key(exercise)) + [EntryFor(dateISO, sets)]];
      && |Stored(after, Key(exercise))| == |Stored(items, Key(exercise))| + 1
      && Stored(after, Key(exercise))[..|Stored(items, Key(exercise))|] == Stored(items, Key(exercise))
      && Stored(after, Key(exercise))[|Stored(items, Key(exercise))|] == EntryFor(dateISO, sets)
  {
  }

  /** Adding to one exercise leaves the list of every other exercise unchanged. */
  lemma AddKeepsOtherExercises(items: map<string, seq<Entry>>, exercise: string, other: string, dateISO: Date, sets: seq<SetInput>)
    requires other != exercise
    ensures var after := items[Key(exercise) := Stored(items, Key(exercise)) + [EntryFor(dateISO, sets)]];
      Stored(after, Key(other)) == Stored(items, Key(other))
  {
    KeyInjective(exercise, other);
  }

  /** An exercise with nothing stored has an empty history over every range. */
  lemma EmptyHistory(items: map<string, seq<Entry>>, exercise: string, isoStart: Date, isoEnd: Date)
    requires Key(exercise) !in items
    ensures GetExerciseStatsHistory(items, exercise, isoStart, isoEnd) == []
  {
  }

  /**
   * The history after adding is the history before, followed by the new
   * entry exactly when its date lies in the range.
   */
  lemma HistoryAfterAdd(items: map<string, seq<Entry>>, exercise: string, dateISO: Date, sets: seq<SetInput>, isoStart: Date, isoEnd: Date)
    ensures var after := items[Key(exercise) := Stored(items, Key(exercise)) + [EntryFor(dateISO, sets)]];
      GetExerciseStatsHistory(after, exercise, isoStart, isoEnd)
        == GetExerciseStatsHistory(items, exercise, isoStart, isoEnd)
           + (if isoStart <= dateISO <= isoEnd then [EntryFor(dateISO, sets)] else [])
  {
    var inRange := (h: Entry) => h.date >= isoStart && h.date <= isoEnd;
    var hist := Stored(items, Key(exercise));
    FilterConcat(hist, [EntryFor(dateISO, sets)], inRange);
  }
}
