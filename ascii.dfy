/**
 * The string operations the sorter applies to task titles: `str.lower()`,
 * `str.upper()` and `str.isupper()` on one character, and the
 * first-letter capitalisation of `capitalize_item`. Case mapping is
 * restricted to the ASCII letters.
 */
module Ascii {

  /** Python's `c.isupper()` for a one-character string. */
  predicate IsUpper(c: char) {
    'A' <= c <= 'Z'
  }

  predicate IsLower(c: char) {
    'a' <= c <= 'z'
  }

  /** Python's `c.lower()` for a one-character string. */
  function ToLower(c: char): (r: char)
    ensures !IsUpper(r)
    ensures !IsUpper(c) ==> r == c
    ensures IsUpper(c) ==> IsLower(r) && r as int - 'a' as int == c as int - 'A' as int
  {
    if IsUpper(c) then (c as int + 32) as char else c
  }

  /** Python's `c.upper()` for a one-character string. */
  function ToUpper(c: char): (r: char)
    ensures !IsLower(r)
    ensures !IsLower(c) ==> r == c
    ensures IsLower(c) ==> IsUpper(r) && r as int - 'A' as int == c as int - 'a' as int
    ensures ToLower(r) == ToLower(c)
  {
    if IsLower(c) then (c as int - 32) as char else c
  }

  /** Python's `s.lower()`: every character mapped through ToLower, nothing else changed. */
  function Lower(s: string): (r: string)
    ensures |r| == |s|
    ensures forall i :: 0 <= i < |s| ==> r[i] == ToLower(s[i])
  {
    if |s| == 0 then [] else [ToLower(s[0])] + Lower(s[1..])
  }

  /** The title `capitalize_item` writes back: `s[0].upper() + s[1:]`. */
  function Capitalized(s: string): (r: string)
    requires |s| > 0
    ensures |r| == |s| && r[1..] == s[1..]
    ensures !IsLower(r[0])
    ensures !IsLower(s[0]) ==> r == s
  {
    [ToUpper(s[0])] + s[1..]
  }

  /** Lower-casing is idempotent: a normalised title is its own normal form. */
  lemma {:induction false} LowerIdempotent(s: string)
    ensures Lower(Lower(s)) == Lower(s)
  {
    if |s| > 0 {
      LowerIdempotent(s[1..]);
      assert Lower(s)[1..] == Lower(s[1..]);
    }
  }

  /** Two titles have the same normal form exactly when they agree letter for letter up to case. */
  lemma {:induction false} LowerEqualIff(a: string, b: string)
    ensures Lower(a) == Lower(b) <==> |a| == |b| && forall i :: 0 <= i < |a| ==> ToLower(a[i]) == ToLower(b[i])
  {
    if |a| == |b| && forall i :: 0 <= i < |a| ==> ToLower(a[i]) == ToLower(b[i]) {
      assert forall i :: 0 <= i < |a| ==> Lower(a)[i] == Lower(b)[i];
    }
  }

  /** Capitalising a title never changes its lower-cased form. */
  lemma CapitalizedSameLower(s: string)
    requires |s| > 0
    ensures Lower(Capitalized(s)) == Lower(s)
  {
    var r := Capitalized(s);
    assert r[0] == ToUpper(s[0]);
    assert forall i :: 1 <= i < |s| ==> r[i] == r[1..][i - 1] == s[i];
    LowerEqualIff(r, s);
  }

  /** Capitalising twice is capitalising once. */
  lemma CapitalizedIdempotent(s: string)
    requires |s| > 0
    ensures Capitalized(Capitalized(s)) == Capitalized(s)
  {
  }
}
