/**
 * SQLite's built-in NOCASE collation: two strings are equal when they are
 * equal after folding the 26 upper-case ASCII letters to lower case. No other
 * character is folded.
 */
module Collation {

  predicate IsAsciiUpper(c: char)
  {
    'A' <= c <= 'Z'
  }

  function FoldChar(c: char): (f: char)
    ensures !IsAsciiUpper(f)
    ensures f == c || (IsAsciiUpper(c) && f as int == c as int + 32)
  {
    if IsAsciiUpper(c) then (c as int + 32) as char else c
  }

  /** The string NOCASE compares in place of `s`. */
  function Fold(s: string): (r: string)
    ensures |r| == |s|
    ensures forall i :: 0 <= i < |r| ==> !IsAsciiUpper(r[i])
    ensures forall i :: 0 <= i < |r| ==> r[i] == s[i] || (IsAsciiUpper(s[i]) && r[i] as int == s[i] as int + 32)
  {
    if s == [] then [] else [FoldChar(s[0])] + Fold(s[1..])
  }

  /** `a = b COLLATE NOCASE`. */
  predicate NoCaseEq(a: string, b: string)
  {
    Fold(a) == Fold(b)
  }

  /** Folding twice is folding once: a folded name is its own NOCASE key. */
  lemma {:induction false} FoldIdempotent(s: string)
    ensures Fold(Fold(s)) == Fold(s)
  {
    if s != [] {
      FoldIdempotent(s[1..]);
    }
  }

  /**
   * NOCASE equality is decided character by character: equal lengths, and at
   * every position both characters fold to the same character.
   */
  lemma NoCaseEqPointwise(a: string, b: string)
    ensures NoCaseEq(a, b) <==> |a| == |b| && forall i :: 0 <= i < |a| ==> FoldChar(a[i]) == FoldChar(b[i])
  {
    FoldAt(a);
    FoldAt(b);
    if |a| == |b| && forall i :: 0 <= i < |a| ==> FoldChar(a[i]) == FoldChar(b[i]) {
      assert forall i :: 0 <= i < |a| ==> Fold(a)[i] == Fold(b)[i];
    }
  }

  lemma {:induction false} FoldAt(s: string)
    ensures |Fold(s)| == |s|
    ensures forall i :: 0 <= i < |s| ==> Fold(s)[i] == FoldChar(s[i])
  {
    if s != [] {
      FoldAt(s[1..]);
      assert forall i :: 1 <= i < |s| ==> Fold(s)[i] == Fold(s[1..])[i - 1];
    }
  }
}
