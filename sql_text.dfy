/**
 * Decimal numerals and the `$n` placeholders of a PostgreSQL statement: how
 * the route writes a placeholder number into SQL text, and which numbers the
 * database reads back out of it.
 */
module SqlText {

  predicate IsDigit(c: char)
  {
    '0' <= c <= '9'
  }

  predicate AllDigits(s: string)
  {
    forall i :: 0 <= i < |s| ==> IsDigit(s[i])
  }

  /** JavaScript's `${n}` for a natural number: its decimal numeral, without leading zeros. */
  function Digits(n: nat): (s: string)
    ensures |s| >= 1 && AllDigits(s)
  {
    var last := [('0' as int + n % 10) as char];
    if n < 10 then last else Digits(n / 10) + last
  }

  /** The number a numeral denotes. */
  function Value(s: string): nat
    requires AllDigits(s)
  {
    if s == [] then 0 else Value(s[..|s| - 1]) * 10 + (s[|s| - 1] as int - '0' as int)
  }

  /** Reading a written number gives the number back. */
  lemma {:induction false} ValueOfDigits(n: nat)
    ensures Value(Digits(n)) == n
  {
    var s := Digits(n);
    if n >= 10 {
      ValueOfDigits(n / 10);
      assert s[..|s| - 1] == Digits(n / 10);
    }
  }

  /** The length of the run of digits `s` starts with. */
  function DigitRun(s: string): (k: nat)
    ensures k <= |s|
    ensures AllDigits(s[..k])
    ensures k < |s| ==> !IsDigit(s[k])
  {
    if s == [] || !IsDigit(s[0]) then 0
    else
      var k := 1 + DigitRun(s[1..]);
      assert s[..k] == [s[0]] + s[1..][..k - 1];
      k
  }

  /** The placeholder numbers of `s`, left to right: every `$` followed by digits. */
  function Scan(s: string): seq<nat>
    decreases |s|
  {
    if s == [] then []
    else if s[0] == '$' && DigitRun(s[1..]) > 0 then
      var k := DigitRun(s[1..]);
      assert s[1..1 + k] == s[1..][..k];
      [Value(s[1..1 + k])] + Scan(s[1 + k..])
    else Scan(s[1..])
  }

  /** Text that cannot continue a numeral it is appended to. */
  predicate StartsOutsideNumeral(s: string)
  {
    s == [] || !IsDigit(s[0])
  }

  lemma {:induction false} DigitRunConcat(x: string, y: string)
    requires StartsOutsideNumeral(y)
    ensures DigitRun(x + y) == DigitRun(x)
  {
    if x == [] {
      assert x + y == y;
    } else {
      assert (x + y)[0] == x[0];
      if IsDigit(x[0]) {
        assert (x + y)[1..] == x[1..] + y;
        DigitRunConcat(x[1..], y);
      }
    }
  }

  lemma {:induction false} DigitRunAll(s: string)
    requires AllDigits(s)
    ensures DigitRun(s) == |s|
  {
    if s != [] {
      DigitRunAll(s[1..]);
    }
  }

  /** Text split where a numeral cannot continue scans as its two halves. */
  lemma {:induction false} ScanConcat(a: string, b: string)
    requires StartsOutsideNumeral(b)
    ensures Scan(a + b) == Scan(a) + Scan(b)
    decreases |a|
  {
    if a == [] {
      assert a + b == b;
    } else if a[0] == '$' && DigitRun(a[1..]) > 0 {
      ScanConcat(a[1 + DigitRun(a[1..])..], b);
      ScanConcatPlaceholder(a, b);
    } else {
      ScanConcat(a[1..], b);
      ScanConcatSkip(a, b);
    }
  }

  /** The step of `ScanConcat` past a placeholder that opens `a`. */
  lemma {:induction false} ScanConcatPlaceholder(a: string, b: string)
    requires StartsOutsideNumeral(b)
    requires a != [] && a[0] == '$' && DigitRun(a[1..]) > 0
    requires Scan(a[1 + DigitRun(a[1..])..] + b) == Scan(a[1 + DigitRun(a[1..])..]) + Scan(b)
    ensures Scan(a + b) == Scan(a) + Scan(b)
  {
    var k := DigitRun(a[1..]);
    ScanHead(a, k);
    ScanHeadConcat(a, b, k);
    ConsConcat(Scan(a + b), Value(a[1..1 + k]), Scan(a[1 + k..]), Scan(b), Scan(a));
  }

  /** A placeholder opening `a` still opens `a + b`, and the scan then goes on in the rest of `a` followed by `b`. */
  lemma {:induction false} ScanHeadConcat(a: string, b: string, k: nat)
    requires StartsOutsideNumeral(b)
    requires a != [] && a[0] == '$' && DigitRun(a[1..]) == k > 0
    ensures AllDigits(a[1..1 + k])
    ensures Scan(a + b) == [Value(a[1..1 + k])] + Scan(a[1 + k..] + b)
  {
    SliceOfConcat(a, b, 1, 1 + k);
    DropOfConcat(a, b, 1);
    DropOfConcat(a, b, 1 + k);
    DigitRunConcat(a[1..], b);
    ScanHead(a + b, k);
  }

  /** A slice inside `x` is the same slice of `x + y`. */
  lemma SliceOfConcat(x: string, y: string, i: nat, j: nat)
    requires i <= j <= |x|
    ensures (x + y)[i..j] == x[i..j]
  {
  }

  /** Dropping a prefix of `x` from `x + y` leaves the rest of `x`, then `y`. */
  lemma DropOfConcat(x: string, y: string, i: nat)
    requires i <= |x|
    ensures (x + y)[i..] == x[i..] + y
  {
  }

  /** The step of `ScanConcat` past a character of `a` that opens no placeholder. */
  lemma {:induction false} ScanConcatSkip(a: string, b: string)
    requires StartsOutsideNumeral(b)
    requires a != [] && !(a[0] == '$' && DigitRun(a[1..]) > 0)
    requires Scan(a[1..] + b) == Scan(a[1..]) + Scan(b)
    ensures Scan(a + b) == Scan(a) + Scan(b)
  {
    DropOfConcat(a, b, 1);
    DigitRunConcat(a[1..], b);
    ScanTail(a + b);
    ScanTail(a);
  }

  /** Text not opening with a placeholder scans as its tail. */
  lemma ScanTail(s: string)
    requires s != [] && !(s[0] == '$' && DigitRun(s[1..]) > 0)
    ensures Scan(s) == Scan(s[1..])
  {
  }

  /** Regrouping `[n] + (y + z)` as `([n] + y) + z`, with each side named. */
  lemma ConsConcat(x: seq<nat>, n: nat, y: seq<nat>, z: seq<nat>, w: seq<nat>)
    requires x == [n] + (y + z) && w == [n] + y
    ensures x == w + z
  {
  }

  /** Text opening with a placeholder `$n` scans as `n`, then the rest. */
  lemma ScanHead(s: string, k: nat)
    requires s != [] && s[0] == '$' && DigitRun(s[1..]) == k > 0
    ensures AllDigits(s[1..1 + k])
    ensures Scan(s) == [Value(s[1..1 + k])] + Scan(s[1 + k..])
  {
    assert s[1..1 + k] == s[1..][..k];
  }

  /** The placeholder `$n`. */
  function Placeholder(n: nat): string
  {
    "$" + Digits(n)
  }

  /** A written placeholder is read back as its own number. */
  lemma ScanPlaceholder(n: nat)
    ensures Scan(Placeholder(n)) == [n]
  {
    var p := Placeholder(n);
    DigitRunAll(Digits(n));
    assert p[1..] == Digits(n);
    assert p[1..1 + |Digits(n)|] == Digits(n);
    assert p[1 + |Digits(n)|..] == [];
    ValueOfDigits(n);
  }

  /** A character other than `$` in front of text adds no placeholder. */
  lemma ScanSkip(c: char, s: string)
    requires c != '$'
    ensures Scan([c] + s) == Scan(s)
  {
    assert ([c] + s)[1..] == s;
  }

  /** `s` holds no `$`, so no placeholder can start in it. */
  predicate NoDollar(s: string)
  {
    forall i :: 0 <= i < |s| ==> s[i] != '$'
  }

  lemma NoDollarConcat(a: string, b: string)
    requires NoDollar(a) && NoDollar(b)
    ensures NoDollar(a + b)
  {
    forall i | 0 <= i < |a + b|
      ensures (a + b)[i] != '$'
    {
      if i >= |a| {
        assert (a + b)[i] == b[i - |a|];
      }
    }
  }

  /** Text without `$` in front of a statement adds no placeholder to it. */
  lemma {:induction false} ScanPlainPrefix(prefix: string, s: string)
    requires NoDollar(prefix)
    ensures Scan(prefix + s) == Scan(s)
  {
    if prefix != [] {
      assert forall i :: 0 <= i < |prefix[1..]| ==> prefix[1..][i] == prefix[i + 1];
      ScanPlainPrefix(prefix[1..], s);
      assert prefix + s == [prefix[0]] + (prefix[1..] + s);
      ScanSkip(prefix[0], prefix[1..] + s);
    } else {
      assert prefix + s == s;
    }
  }

  /** Text without `$` holds no placeholder. */
  lemma {:induction false} ScanPlain(s: string)
    requires forall i :: 0 <= i < |s| ==> s[i] != '$'
    ensures Scan(s) == []
  {
    if s != [] {
      ScanPlain(s[1..]);
    }
  }
}
