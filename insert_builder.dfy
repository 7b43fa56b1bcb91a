/**
 * The multi-row INSERT of the workout POST handler: the `VALUES` text with
 * its `$n` placeholders, the parameter array that goes with it, and how
 * PostgreSQL binds the two into the rows it inserts.
 */
module InsertBuilder {
  import opened Common
  import opened SqlText

  /** A JavaScript value as it arrives in a JSON request body (absent fields are `Undefined`). */
  datatype Json = Undefined | Null | Bool(b: bool) | Num(n: int) | Str(s: string) | Composite

  /**
   * JavaScript truthiness, `!!v`: exactly `undefined`, `null`, `false`, `0`
   * and `""` are falsy; arrays and objects are always truthy.
   */
  function Truthy(v: Json): (b: bool)
    ensures !b <==> v in {Undefined, Null, Bool(false), Num(0), Str("")}
  {
    match v
    case Undefined => false
    case Null => false
    case Bool(b) => b
    case Num(n) => n != 0
    case Str(s) => s != ""
    case Composite => true
  }

  /** One element of the body's `sets` array. */
  datatype SetBody = SetBody(exercise: Json, reps: Json, weightKg: Json, isTopSet: Json)

  /** A row of the remote `sets` table: workout_id, exercise, reps, weight_kg, is_top_set. */
  datatype SetRow = SetRow(workoutId: Json, exercise: Json, reps: Json, weightKg: Json, isTopSet: Json)

  /** `$k` for each number `k` of `ks`. */
  function Placeholders(ks: seq<nat>): (r: seq<string>)
    ensures |r| == |ks|
  {
    if ks == [] then [] else Placeholders(ks[..|ks| - 1]) + [Placeholder(ks[|ks| - 1])]
  }

  /** Tuple `i` of the `VALUES` list, `($1, $<4i+2>, $<4i+3>, $<4i+4>, $<4i+5>)`. */
  function TupleText(i: nat): string
  {
    "(" + JoinText(Placeholders(TupleIndices(i)), ", ") + ")"
  }

  /** `sets.map((_, i) => ...)`: the tuples for the first `n` sets. */
  function TupleTexts(n: nat): (r: seq<string>)
    ensures |r| == n
  {
    if n == 0 then [] else TupleTexts(n - 1) + [TupleText(n - 1)]
  }

  /** `Array.prototype.join`. */
  function JoinText(parts: seq<string>, sep: string): string
  {
    if |parts| == 0 then ""
    else if |parts| == 1 then parts[0]
    else JoinText(parts[..|parts| - 1], sep) + sep + parts[|parts| - 1]
  }

  /**
   * The `values` text for `n` sets: one tuple per set, joined with commas.
   * Read left to right, its placeholders are tuple 0's, then tuple 1's, and so on.
   */
  function ValuesText(n: nat): (r: string)
    ensures Scan(r) == Indices(n)
  {
    ScanValues(n);
    JoinText(TupleTexts(n), ",")
  }

  /** The four parameters one set contributes, with `is_top_set` coerced to a boolean. */
  function SetParams(s: SetBody): (r: seq<Json>)
    ensures |r| == 4
    ensures r[3].Bool? && (r[3].b <==> Truthy(s.isTopSet))
  {
    [s.exercise, s.reps, s.weightKg, Bool(Truthy(s.isTopSet))]
  }

  /** `sets.flatMap(...)`. */
  function FlatParams(sets: seq<SetBody>): (r: seq<Json>)
    ensures |r| == 4 * |sets|
  {
    if sets == [] then [] else SetParams(sets[0]) + FlatParams(sets[1..])
  }

  /** `[workoutId].concat(sets.flatMap(...))`. */
  function Params(workoutId: int, sets: seq<SetBody>): (r: seq<Json>)
    ensures |r| == 1 + 4 * |sets|
    ensures r[0] == Num(workoutId)
  {
    [Num(workoutId)] + FlatParams(sets)
  }

  /** The placeholder numbers of tuple `i`. */
  function TupleIndices(i: nat): seq<nat>
  {
    [1, 4 * i + 2, 4 * i + 3, 4 * i + 4, 4 * i + 5]
  }

  /** The placeholder numbers of the first `n` tuples, in text order. */
  function Indices(n: nat): (r: seq<nat>)
    ensures |r| == 5 * n
  {
    if n == 0 then [] else Indices(n - 1) + TupleIndices(n - 1)
  }

  /* ---------- How PostgreSQL binds the statement ---------- */

  /** Every placeholder number names one of `count` parameters. */
  predicate Within(idx: seq<nat>, count: nat)
  {
    forall j :: 0 <= j < |idx| ==> 1 <= idx[j] <= count
  }

  /** Substitutes parameter `k - 1` for each placeholder `k`. */
  function Bind(idx: seq<nat>, params: seq<Json>): (r: seq<Json>)
    requires Within(idx, |params|)
    ensures |r| == |idx|
    ensures forall j :: 0 <= j < |idx| ==> r[j] == params[idx[j] - 1]
  {
    seq(|idx|, j requires 0 <= j < |idx| => params[idx[j] - 1])
  }

  /**
   * The most parameters one statement can carry: the Bind message of the
   * PostgreSQL wire protocol sends the parameter count as a 16-bit integer.
   */
  const MaxParams: nat := 65535

  /**
   * The statement is accepted exactly when there are at most `MaxParams`
   * parameters and its placeholders are numbered 1 to |params| with none skipped.
   */
  predicate Accepts(idx: seq<nat>, params: seq<Json>)
  {
    && |params| <= MaxParams
    && Within(idx, |params|)
    && (forall k :: 1 <= k <= |params| ==> k in idx)
  }

  /** The row one five-column tuple binds to. */
  function RowOf(v: seq<Json>): SetRow
    requires |v| == 5
  {
    SetRow(v[0], v[1], v[2], v[3], v[4])
  }

  /**
   * The rows a list of placeholders binds to, five placeholders (one tuple)
   * per row; None when the list does not split into tuples of five.
   */
  function TupleRows(idx: seq<nat>, params: seq<Json>): (r: Option<seq<SetRow>>)
    requires Within(idx, |params|)
    ensures r.Some? ==> 5 * |r.value| == |idx|
    decreases |idx|
  {
    if |idx| == 0 then Some([])
    else if |idx| < 5 then None
    else
      match TupleRows(idx[..|idx| - 5], params)
      case None => None
      case Some(rows) => Some(rows + [RowOf(Bind(idx[|idx| - 5..], params))])
  }

  /**
   * The rows `INSERT INTO sets (...) VALUES <text>` inserts with `params`;
   * None when the database rejects the statement.
   */
  function InsertedRows(text: string, params: seq<Json>): (r: Option<seq<SetRow>>)
    ensures r.Some? ==> Accepts(Scan(text), params) && 5 * |r.value| == |Scan(text)|
  {
    var idx := Scan(text);
    if Accepts(idx, params) then TupleRows(idx, params) else None
  }

  /** The rows the handler means to insert: set `i` under the new workout's id. */
  function IntendedRows(workoutId: int, sets: seq<SetBody>): (r: seq<SetRow>)
    ensures |r| == |sets|
    ensures forall i :: 0 <= i < |sets| ==>
      r[i] == SetRow(Num(workoutId), sets[i].exercise, sets[i].reps, sets[i].weightKg,
                     Bool(Truthy(sets[i].isTopSet)))
  {
    seq(|sets|, i requires 0 <= i < |sets| =>
      SetRow(Num(workoutId), sets[i].exercise, sets[i].reps, sets[i].weightKg,
             Bool(Truthy(sets[i].isTopSet))))
  }

  /* ---------- The text holds exactly the intended placeholders ---------- */

  /** Appending `, $k` to text adds the placeholder `k`. */
  lemma ScanNextPlaceholder(prefix: string, k: nat)
    ensures Scan(prefix + ", " + Placeholder(k)) == Scan(prefix) + [k]
  {
    ScanPlaceholder(k);
    ScanPlain(", ");
    ScanConcat(prefix, ", ");
    ScanConcat(prefix + ", ", Placeholder(k));
  }

  /** A comma-separated list of placeholders scans as its numbers. */
  lemma {:induction false} ScanPlaceholderList(ks: seq<nat>)
    ensures Scan(JoinText(Placeholders(ks), ", ")) == ks
  {
    var n := |ks|;
    if n == 1 {
      ScanPlaceholder(ks[0]);
    } else if n > 1 {
      var ps := Placeholders(ks);
      assert ps[..n - 1] == Placeholders(ks[..n - 1]);
      ScanPlaceholderList(ks[..n - 1]);
      ScanNextPlaceholder(JoinText(ps[..n - 1], ", "), ks[n - 1]);
      assert ks == ks[..n - 1] + [ks[n - 1]];
    }
  }

  lemma ScanTuple(i: nat)
    ensures Scan(TupleText(i)) == TupleIndices(i)
  {
    var list := JoinText(Placeholders(TupleIndices(i)), ", ");
    ScanPlaceholderList(TupleIndices(i));
    ScanSkip('(', list);
    assert "(" + list == ['('] + list;
    ScanPlain(")");
    ScanConcat("(" + list, ")");
  }

  /** The placeholders of the joined tuples, read left to right, are tuple 0's, then tuple 1's, and so on. */
  lemma {:induction false} ScanValues(n: nat)
    ensures Scan(JoinText(TupleTexts(n), ",")) == Indices(n)
  {
    if n == 1 {
      ScanTuple(0);
      assert Indices(1) == TupleIndices(0);
    } else if n > 1 {
      var before := JoinText(TupleTexts(n - 1), ",");
      assert TupleTexts(n)[..n - 1] == TupleTexts(n - 1);
      ScanValues(n - 1);
      ScanTuple(n - 1);
      ScanPlain(",");
      ScanConcat(before, ",");
      assert TupleText(n - 1)[0] == '(';
      ScanConcat(before + ",", TupleText(n - 1));
    }
  }

  /** Tuple `i` occupies positions 5i to 5i+4 of the placeholder list. */
  lemma {:induction false} IndicesAt(n: nat, i: nat)
    requires i < n
    ensures Indices(n)[5 * i..5 * i + 5] == TupleIndices(i)
  {
    if i < n - 1 {
      IndicesAt(n - 1, i);
      assert Indices(n)[..5 * (n - 1)] == Indices(n - 1);
    }
  }

  /** How often `k` occurs in `s`. */
  function Occurrences(s: seq<nat>, k: nat): nat
  {
    if s == [] then 0 else Occurrences(s[..|s| - 1], k) + (if s[|s| - 1] == k then 1 else 0)
  }

  lemma {:induction false} OccurrencesConcat(a: seq<nat>, b: seq<nat>, k: nat)
    ensures Occurrences(a + b, k) == Occurrences(a, k) + Occurrences(b, k)
    decreases |b|
  {
    if b == [] {
      assert a + b == a;
    } else {
      assert (a + b)[..|a + b| - 1] == a + b[..|b| - 1];
      OccurrencesConcat(a, b[..|b| - 1], k);
    }
  }

  lemma {:induction false} OccurrencesIn(s: seq<nat>, k: nat)
    ensures k in s <==> Occurrences(s, k) > 0
  {
    if s != [] {
      OccurrencesIn(s[..|s| - 1], k);
      assert s == s[..|s| - 1] + [s[|s| - 1]];
    }
  }

  lemma TupleCount(i: nat, k: nat)
    ensures Occurrences(TupleIndices(i), k) == (if k == 1 || 4 * i + 2 <= k <= 4 * i + 5 then 1 else 0)
  {
    var a, b, c, d := 4 * i + 2, 4 * i + 3, 4 * i + 4, 4 * i + 5;
    assert [1, a, b, c, d][..4] == [1, a, b, c];
    assert [1, a, b, c][..3] == [1, a, b];
    assert [1, a, b][..2] == [1, a];
    assert [1, a][..1] == [1];
    assert [1][..0] == [];
    assert Occurrences([1], k) == (if k == 1 then 1 else 0);
    assert Occurrences([1, a], k) == Occurrences([1], k) + (if a == k then 1 else 0);
    assert Occurrences([1, a, b], k) == Occurrences([1, a], k) + (if b == k then 1 else 0);
    assert Occurrences([1, a, b, c], k) == Occurrences([1, a, b], k) + (if c == k then 1 else 0);
    assert Occurrences([1, a, b, c, d], k) == Occurrences([1, a, b, c], k) + (if d == k then 1 else 0);
  }

  /**
   * `$1` (the workout id) appears once per tuple, every number from 2 to
   * 4n+1 exactly once, and no other number at all.
   */
  lemma {:induction false} IndicesCount(n: nat, k: nat)
    ensures Occurrences(Indices(n), k) == (if k == 1 then n else if 2 <= k <= 4 * n + 1 then 1 else 0)
  {
    if n > 0 {
      IndicesCount(n - 1, k);
      TupleCount(n - 1, k);
      OccurrencesConcat(Indices(n - 1), TupleIndices(n - 1), k);
    }
  }

  /** So the placeholder numbers of `n > 0` tuples are exactly 1 to 4n+1. */
  lemma IndicesRange(n: nat, k: nat)
    requires n > 0
    ensures k in Indices(n) <==> 1 <= k <= 4 * n + 1
  {
    IndicesCount(n, k);
    OccurrencesIn(Indices(n), k);
  }

  /* ---------- The parameters line up with the placeholders ---------- */

  lemma {:induction false} FlatParamsAt(sets: seq<SetBody>)
    ensures |FlatParams(sets)| == 4 * |sets|
    ensures forall i, j :: 0 <= i < |sets| && 0 <= j < 4 ==>
      FlatParams(sets)[4 * i + j] == SetParams(sets[i])[j]
  {
    if sets != [] {
      FlatParamsAt(sets[1..]);
      var f := FlatParams(sets);
      forall i, j | 0 <= i < |sets| && 0 <= j < 4
        ensures f[4 * i + j] == SetParams(sets[i])[j]
      {
        if i > 0 {
          assert f[4 * i + j] == FlatParams(sets[1..])[4 * (i - 1) + j];
        }
      }
    }
  }

  /**
   * `params` has 1+4n entries: the workout id first, then at 4i+1 to 4i+4
   * set i's exercise, reps, weight and coerced top-set flag.
   */
  lemma ParamAt(workoutId: int, sets: seq<SetBody>, i: nat, j: nat)
    requires i < |sets| && j < 4
    ensures |Params(workoutId, sets)| == 1 + 4 * |sets|
    ensures Params(workoutId, sets)[0] == Num(workoutId)
    ensures Params(workoutId, sets)[4 * i + 1 + j] == SetParams(sets[i])[j]
  {
    FlatParamsAt(sets);
    assert Params(workoutId, sets)[4 * i + 1 + j] == FlatParams(sets)[4 * i + j];
  }

  /** The handler's placeholders and parameters satisfy the database's numbering rule. */
  lemma AcceptsParams(workoutId: int, sets: seq<SetBody>)
    requires |sets| > 0
    ensures Accepts(Indices(|sets|), Params(workoutId, sets)) <==> 1 + 4 * |sets| <= MaxParams
  {
    var n := |sets|;
    var params := Params(workoutId, sets);
    var idx := Indices(n);
    IndicesWithin(workoutId, sets, n);
    FlatParamsAt(sets);
    forall k | 1 <= k <= |params|
      ensures k in idx
    {
      IndicesRange(n, k);
    }
  }

  /** Binding tuple `i` yields set `i`'s row. */
  lemma BindTuple(workoutId: int, sets: seq<SetBody>, i: nat)
    requires i < |sets|
    ensures Within(TupleIndices(i), |Params(workoutId, sets)|)
    ensures Bind(TupleIndices(i), Params(workoutId, sets))
         == [Num(workoutId)] + SetParams(sets[i])
  {
    var params := Params(workoutId, sets);
    ParamAt(workoutId, sets, i, 0);
    ParamAt(workoutId, sets, i, 1);
    ParamAt(workoutId, sets, i, 2);
    ParamAt(workoutId, sets, i, 3);
    var v := Bind(TupleIndices(i), params);
    assert v[0] == params[0];
    assert v[1] == params[4 * i + 1 + 0];
    assert v[2] == params[4 * i + 1 + 1];
    assert v[3] == params[4 * i + 1 + 2];
    assert v[4] == params[4 * i + 1 + 3];
  }

  lemma IndicesBound(m: nat, j: nat)
    requires j < |Indices(m)|
    ensures 1 <= Indices(m)[j] <= 4 * m + 1
  {
    IndicesRange(m, Indices(m)[j]);
  }

  lemma IndicesWithin(workoutId: int, sets: seq<SetBody>, m: nat)
    requires m <= |sets|
    ensures Within(Indices(m), |Params(workoutId, sets)|)
  {
    FlatParamsAt(sets);
    forall j | 0 <= j < |Indices(m)|
      ensures 1 <= Indices(m)[j] <= 4 * |sets| + 1
    {
      IndicesBound(m, j);
    }
  }

  lemma IntendedRowsSnoc(workoutId: int, sets: seq<SetBody>, m: nat)
    requires 0 < m <= |sets|
    ensures IntendedRows(workoutId, sets[..m])
         == IntendedRows(workoutId, sets[..m - 1])
            + [SetRow(Num(workoutId), sets[m - 1].exercise, sets[m - 1].reps, sets[m - 1].weightKg,
                      Bool(Truthy(sets[m - 1].isTopSet)))]
  {
  }

  /** One more tuple of placeholders binds one more row. */
  lemma TupleRowsAppend(a: seq<nat>, t: seq<nat>, params: seq<Json>, before: seq<SetRow>, row: SetRow)
    requires |t| == 5 && Within(a, |params|) && Within(t, |params|)
    requires TupleRows(a, params) == Some(before)
    requires RowOf(Bind(t, params)) == row
    ensures Within(a + t, |params|)
    ensures TupleRows(a + t, params) == Some(before + [row])
  {
    var at := a + t;
    assert at[..|at| - 5] == a;
    assert at[|at| - 5..] == t;
  }

  lemma RowOfTuple(workoutId: int, sets: seq<SetBody>, i: nat)
    requires i < |sets|
    ensures Within(TupleIndices(i), |Params(workoutId, sets)|)
    ensures RowOf(Bind(TupleIndices(i), Params(workoutId, sets)))
         == SetRow(Num(workoutId), sets[i].exercise, sets[i].reps, sets[i].weightKg,
                   Bool(Truthy(sets[i].isTopSet)))
  {
    BindTuple(workoutId, sets, i);
  }

  /** The first `m` tuples are in range and bind to the rows of the first `m` sets. */
  predicate RowsMatch(workoutId: int, sets: seq<SetBody>, m: nat)
    requires m <= |sets|
  {
    Within(Indices(m), |Params(workoutId, sets)|) &&
    TupleRows(Indices(m), Params(workoutId, sets)) == Some(IntendedRows(workoutId, sets[..m]))
  }

  lemma {:induction false} TupleRowsOfIndices(workoutId: int, sets: seq<SetBody>, m: nat)
    requires m <= |sets|
    ensures RowsMatch(workoutId, sets, m)
  {
    if m == 0 {
      assert sets[..0] == [];
    } else {
      TupleRowsOfIndices(workoutId, sets, m - 1);
      TupleRowsStep(workoutId, sets, m);
    }
  }

  lemma TupleRowsStep(workoutId: int, sets: seq<SetBody>, m: nat)
    requires 0 < m <= |sets|
    requires RowsMatch(workoutId, sets, m - 1)
    ensures RowsMatch(workoutId, sets, m)
  {
    var row := SetRow(Num(workoutId), sets[m - 1].exercise, sets[m - 1].reps, sets[m - 1].weightKg,
                      Bool(Truthy(sets[m - 1].isTopSet)));
    assert Within(TupleIndices(m - 1), |Params(workoutId, sets)|)
        && RowOf(Bind(TupleIndices(m - 1), Params(workoutId, sets))) == row by {
      RowOfTuple(workoutId, sets, m - 1);
    }
    assert Within(Indices(m), |Params(workoutId, sets)|)
        && TupleRows(Indices(m), Params(workoutId, sets))
           == Some(IntendedRows(workoutId, sets[..m - 1]) + [row]) by {
      TupleRowsAppend(Indices(m - 1), TupleIndices(m - 1), Params(workoutId, sets),
                      IntendedRows(workoutId, sets[..m - 1]), row);
    }
    IntendedRowsSnoc(workoutId, sets, m);
  }

  /**
   * The statement the handler builds for a non-empty `sets` is accepted
   * exactly when its 1 + 4n parameters fit the protocol's limit, and then
   * inserts exactly one row per set, each under the new workout's id with
   * that set's exercise, reps, weight and boolean top-set flag.
   */
  lemma InsertsIntendedRows(workoutId: int, sets: seq<SetBody>)
    requires |sets| > 0
    ensures InsertedRows(ValuesText(|sets|), Params(workoutId, sets))
         == if 1 + 4 * |sets| <= MaxParams then Some(IntendedRows(workoutId, sets)) else None
  {
    var n := |sets|;
    ScanValues(n);
    AcceptsParams(workoutId, sets);
    TupleRowsOfIndices(workoutId, sets, n);
    assert sets[..n] == sets;
  }

  /** The statement text in front of the `values` list. */
  const InsertPrefix: string :=
    "INSERT INTO sets " + "(workout_id, exercise, " + "reps, weight_kg, " + "is_top_set)" + "\n         " + "VALUES "

  lemma InsertPrefixPlain()
    ensures NoDollar(InsertPrefix)
  {
    var a, b, c, d, e, f :=
      "INSERT INTO sets ", "(workout_id, exercise, ", "reps, weight_kg, ", "is_top_set)", "\n         ", "VALUES ";
    assert NoDollar(a) && NoDollar(b) && NoDollar(c) && NoDollar(d) && NoDollar(e) && NoDollar(f);
    NoDollarConcat(a, b);
    NoDollarConcat(a + b, c);
    NoDollarConcat(a + b + c, d);
    NoDollarConcat(a + b + c + d, e);
    NoDollarConcat(a + b + c + d + e, f);
  }

  /**
   * The text the handler actually sends, the fixed prefix followed by the
   * `values` list, inserts what the `values` list alone does: the prefix
   * holds no placeholder.
   */
  lemma StatementInsertsIntendedRows(workoutId: int, sets: seq<SetBody>)
    requires |sets| > 0
    ensures InsertedRows(InsertPrefix + ValuesText(|sets|), Params(workoutId, sets))
         == if 1 + 4 * |sets| <= MaxParams then Some(IntendedRows(workoutId, sets)) else None
  {
    InsertPrefixPlain();
    ScanPlainPrefix(InsertPrefix, ValuesText(|sets|));
    InsertsIntendedRows(workoutId, sets);
  }
}
