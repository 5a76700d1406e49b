/**
 * Whitespace and trimming, as the contact form uses them: every field value is
 * trimmed before it is checked, and the email pattern forbids whitespace.
 * ECMAScript's `String.prototype.trim` and the regular-expression class `\s`
 * use the same set of characters (WhiteSpace and LineTerminator), so one
 * predicate serves both.
 */
module Text {

  /** WhiteSpace and LineTerminator code points of ECMAScript (section 12.2 and 12.3 of ECMA-262). */
  predicate IsWhitespace(c: char) {
    || c == '\t' || c == '\U{B}' || c == '\U{C}' || c == ' ' || c == '\U{A0}' || c == '\U{FEFF}'
    || c == '\n' || c == '\r' || c == '\U{2028}' || c == '\U{2029}'
    || c == '\U{1680}' || ('\U{2000}' <= c <= '\U{200A}')
    || c == '\U{202F}' || c == '\U{205F}' || c == '\U{3000}'
  }

  predicate AllWhitespace(s: string) {
    forall i :: 0 <= i < |s| ==> IsWhitespace(s[i])
  }

  predicate NoWhitespace(s: string) {
    forall i :: 0 <= i < |s| ==> !IsWhitespace(s[i])
  }

  /** The first index at or after `i` that does not hold whitespace, or `|s|`. */
  function SkipBlanksForward(s: string, i: nat): (k: nat)
    requires i <= |s|
    ensures i <= k <= |s|
    ensures forall m :: i <= m < k ==> IsWhitespace(s[m])
    ensures k < |s| ==> !IsWhitespace(s[k])
    decreases |s| - i
  {
    if i < |s| && IsWhitespace(s[i]) then SkipBlanksForward(s, i + 1) else i
  }

  /** The least `k >= lo` such that `s[k..j]` is all whitespace. */
  function SkipBlanksBackward(s: string, lo: nat, j: nat): (k: nat)
    requires lo <= j <= |s|
    ensures lo <= k <= j
    ensures forall m :: k <= m < j ==> IsWhitespace(s[m])
    ensures k > lo ==> !IsWhitespace(s[k - 1])
    decreases j
  {
    if j > lo && IsWhitespace(s[j - 1]) then SkipBlanksBackward(s, lo, j - 1) else j
  }

  /** The slice `s[lo..hi]` has only whitespace on either side and none at either end. */
  ghost predicate TrimBounds(s: string, lo: int, hi: int) {
    && 0 <= lo <= hi <= |s|
    && (forall i :: 0 <= i < lo ==> IsWhitespace(s[i]))
    && (forall i :: hi <= i < |s| ==> IsWhitespace(s[i]))
    && (lo < hi ==> !IsWhitespace(s[lo]) && !IsWhitespace(s[hi - 1]))
  }

  /** `r` is what trimming `s` must give: a slice of `s` cut at the right bounds. */
  ghost predicate IsTrimOf(r: string, s: string) {
    exists lo, hi :: TrimBounds(s, lo, hi) && r == s[lo..hi]
  }

  /** `value.trim()`: drop the leading and the trailing whitespace. */
  function Trim(s: string): string {
    var lo := SkipBlanksForward(s, 0);
    s[lo..SkipBlanksBackward(s, lo, |s|)]
  }

  /** Trimming cuts `s` at its trim bounds. */
  lemma TrimIsTrimOf(s: string)
    ensures IsTrimOf(Trim(s), s)
  {
    var lo := SkipBlanksForward(s, 0);
    var hi := SkipBlanksBackward(s, lo, |s|);
    assert TrimBounds(s, lo, hi);
  }

  /** The bounds of a trim are determined by the string alone. */
  lemma TrimBoundsUnique(s: string, lo1: int, hi1: int, lo2: int, hi2: int)
    requires TrimBounds(s, lo1, hi1) && TrimBounds(s, lo2, hi2)
    ensures s[lo1..hi1] == s[lo2..hi2]
  {
    if lo1 < hi1 && lo2 < hi2 {
      assert lo1 == lo2 && hi1 == hi2;
    }
  }

  /** There is only one trimmed form of a string, so `IsTrimOf` pins `Trim` down. */
  lemma TrimOfUnique(r1: string, r2: string, s: string)
    requires IsTrimOf(r1, s) && IsTrimOf(r2, s)
    ensures r1 == r2
  {
    var lo1, hi1 :| TrimBounds(s, lo1, hi1) && r1 == s[lo1..hi1];
    var lo2, hi2 :| TrimBounds(s, lo2, hi2) && r2 == s[lo2..hi2];
    TrimBoundsUnique(s, lo1, hi1, lo2, hi2);
  }

  /** Trimming gives the empty string exactly when the string is all whitespace. */
  lemma TrimEmptyIffBlank(s: string)
    ensures Trim(s) == [] <==> AllWhitespace(s)
  {
    var r := Trim(s);
    TrimIsTrimOf(s);
    var lo, hi :| TrimBounds(s, lo, hi) && r == s[lo..hi];
    if r != [] {
      assert !IsWhitespace(s[lo]);
    }
  }

  /** Trimming twice is trimming once. */
  lemma TrimIdempotent(s: string)
    ensures Trim(Trim(s)) == Trim(s)
  {
    var r := Trim(s);
    TrimIsTrimOf(s);
    var lo, hi :| TrimBounds(s, lo, hi) && r == s[lo..hi];
    assert TrimBounds(r, 0, |r|);
    assert r[0..|r|] == r;
    TrimIsTrimOf(r);
    TrimOfUnique(Trim(r), r, r);
  }

  /** A string with no whitespace at all is its own trimmed form. */
  lemma TrimUnblank(s: string)
    requires NoWhitespace(s)
    ensures Trim(s) == s
  {
    assert TrimBounds(s, 0, |s|);
    assert s[0..|s|] == s;
    TrimIsTrimOf(s);
    TrimOfUnique(Trim(s), s, s);
  }
}
