/**
 * The contact form's email pattern `^[^\s@]+@[^\s@]+\.[^\s@]+$` (script.js:122).
 * `MatchesRegex` is the language the regular expression denotes: three runs of
 * characters that are neither whitespace nor '@', joined by an '@' and a '.'.
 * `Matches` decides it without search, and `EmailShape` restates it as the
 * plain rules a reader expects of an address.
 */
module EmailPattern {
  import opened Text

  /** The character class `[^\s@]`. */
  predicate IsPatternChar(c: char) {
    !IsWhitespace(c) && c != '@'
  }

  /** `[^\s@]+`: a non-empty run of pattern characters. */
  predicate IsRun(t: string) {
    |t| > 0 && forall i :: 0 <= i < |t| ==> IsPatternChar(t[i])
  }

  /** The strings the anchored regular expression accepts. */
  ghost predicate MatchesRegex(s: string) {
    exists i, j :: 0 < i < j < |s| && s[i] == '@' && s[j] == '.'
      && IsRun(s[..i]) && IsRun(s[i + 1..j]) && IsRun(s[j + 1..])
  }

  /** Index of the first `c` in `s` at or after `i`, or `|s|` when there is none. */
  function IndexOf(s: string, c: char, i: nat): (k: nat)
    requires i <= |s|
    ensures i <= k <= |s|
    ensures k < |s| ==> s[k] == c
    ensures forall m :: i <= m < k ==> s[m] != c
    decreases |s| - i
  {
    if i == |s| || s[i] == c then i else IndexOf(s, c, i + 1)
  }

  /** A run with a '.' that is neither its first nor its last character. */
  predicate IsDottedRun(d: string) {
    |d| >= 3 && IsRun(d) && '.' in d[1..|d| - 1]
  }

  /** `s` is a run, an '@' at `at`, and a dotted run. */
  predicate SplitAt(s: string, at: nat) {
    at < |s| && IsRun(s[..at]) && IsDottedRun(s[at + 1..])
  }

  /** `emailRegex.test(s)`: split at the first '@' and check both sides. */
  function Matches(s: string): bool {
    SplitAt(s, IndexOf(s, '@', 0))
  }

  /** Splitting at the first '@' decides the regular expression. */
  lemma MatchesIffRegex(s: string)
    ensures Matches(s) <==> MatchesRegex(s)
  {
    if SplitAt(s, IndexOf(s, '@', 0)) {
      SplitImpliesRegex(s, IndexOf(s, '@', 0));
    }
    if MatchesRegex(s) {
      RegexImpliesSplit(s);
    }
  }

  lemma SplitImpliesRegex(s: string, at: nat)
    requires SplitAt(s, at) && s[at] == '@'
    ensures MatchesRegex(s)
  {
    var d := s[at + 1..];
    var k :| 1 <= k < |d| - 1 && d[k] == '.' by {
      assert '.' in d[1..|d| - 1];
      var m :| 0 <= m < |d| - 2 && d[1..|d| - 1][m] == '.';
      assert d[m + 1] == '.';
    }
    var j := at + 1 + k;
    RunOfSlice(d, 0, k);
    RunOfSlice(d, k + 1, |d|);
    assert s[j] == '.';
    assert s[at + 1..j] == d[0..k];
    assert s[j + 1..] == d[k + 1..|d|];
  }

  lemma RegexImpliesSplit(s: string)
    requires MatchesRegex(s)
    ensures SplitAt(s, IndexOf(s, '@', 0))
  {
    var i, j :| 0 < i < j < |s| && s[i] == '@' && s[j] == '.'
      && IsRun(s[..i]) && IsRun(s[i + 1..j]) && IsRun(s[j + 1..]);
    FirstAt(s, i);
    DottedAfter(s, i, j);
  }

  /** The first '@' of `s` is at `i` when the run before `i` has none. */
  lemma FirstAt(s: string, i: nat)
    requires i < |s| && s[i] == '@' && IsRun(s[..i])
    ensures IndexOf(s, '@', 0) == i
  {
    forall m | 0 <= m < i ensures s[m] != '@' {
      assert s[m] == s[..i][m];
    }
  }

  /** What follows the '@' of a match is a dotted run. */
  lemma DottedAfter(s: string, i: int, j: int)
    requires 0 <= i < j < |s| && s[j] == '.'
    requires IsRun(s[i + 1..j]) && IsRun(s[j + 1..])
    ensures IsDottedRun(s[i + 1..])
  {
    var d := s[i + 1..];
    var k := j - i - 1;
    assert d[k] == '.';
    assert d[..k] == s[i + 1..j];
    assert d[k + 1..] == s[j + 1..];
    RunJoin(d, k);
    assert d[1..|d| - 1][k - 1] == '.';
  }

  /** Two runs joined by one pattern character form a run. */
  lemma RunJoin(d: string, k: int)
    requires 0 <= k < |d| && IsPatternChar(d[k])
    requires IsRun(d[..k]) && IsRun(d[k + 1..])
    ensures IsRun(d)
  {
    forall m | 0 <= m < |d| ensures IsPatternChar(d[m]) {
      if m < k {
        assert d[m] == d[..k][m];
      } else if m > k {
        assert d[m] == d[k + 1..][m - k - 1];
      }
    }
  }

  /** `d` has a '.' that is neither its first nor its last character. */
  ghost predicate HasInnerDot(d: string) {
    exists k :: 0 < k < |d| - 1 && d[k] == '.'
  }

  /** The rules the pattern amounts to, stated without runs. */
  ghost predicate EmailShape(s: string) {
    && NoWhitespace(s)
    && exists i :: 0 < i < |s| && s[i] == '@' && HasInnerDot(s[i + 1..])
         && (forall k :: 0 <= k < |s| && s[k] == '@' ==> k == i)
  }

  /** A slice whose every character is a pattern character is a run. */
  lemma RunOfSlice(s: string, lo: int, hi: int)
    requires 0 <= lo < hi <= |s|
    requires forall m :: lo <= m < hi ==> IsPatternChar(s[m])
    ensures IsRun(s[lo..hi])
  {
    forall m | 0 <= m < hi - lo ensures IsPatternChar(s[lo..hi][m]) {
      assert s[lo..hi][m] == s[lo + m];
    }
  }

  /** Every character of a string the pattern accepts is a pattern character, except the '@' and '.' it splits at. */
  lemma RegexChars(s: string, i: int, j: int)
    requires 0 < i < j < |s| && s[i] == '@' && s[j] == '.'
    requires IsRun(s[..i]) && IsRun(s[i + 1..j]) && IsRun(s[j + 1..])
    ensures forall k :: 0 <= k < |s| && k != i && k != j ==> IsPatternChar(s[k])
  {
    forall k | 0 <= k < |s| && k != i && k != j ensures IsPatternChar(s[k]) {
      if k < i {
        assert s[k] == s[..i][k];
      } else if k < j {
        assert s[k] == s[i + 1..j][k - i - 1];
      } else {
        assert s[k] == s[j + 1..][k - j - 1];
      }
    }
  }

  /**
   * An address matches exactly when it has no whitespace, exactly one '@' with
   * something before it, and a '.' strictly inside the part after the '@'.
   */
  lemma RegexIffShape(s: string)
    ensures MatchesRegex(s) <==> EmailShape(s)
  {
    if MatchesRegex(s) {
      RegexImpliesShape(s);
    }
    if EmailShape(s) {
      ShapeImpliesRegex(s);
    }
  }

  lemma RegexImpliesShape(s: string)
    requires MatchesRegex(s)
    ensures EmailShape(s)
  {
    var i, j :| 0 < i < j < |s| && s[i] == '@' && s[j] == '.'
      && IsRun(s[..i]) && IsRun(s[i + 1..j]) && IsRun(s[j + 1..]);
    RegexChars(s, i, j);
    assert NoWhitespace(s) by {
      forall k | 0 <= k < |s| ensures !IsWhitespace(s[k]) {
        if k != i && k != j {
          assert IsPatternChar(s[k]);
        }
      }
    }
    assert forall k :: 0 <= k < |s| && s[k] == '@' ==> k == i by {
      forall k | 0 <= k < |s| && k != i && k != j ensures s[k] != '@' {
        assert IsPatternChar(s[k]);
      }
    }
    assert s[i + 1..][j - i - 1] == '.';
    assert HasInnerDot(s[i + 1..]);
  }

  lemma ShapeImpliesRegex(s: string)
    requires EmailShape(s)
    ensures MatchesRegex(s)
  {
    var i :| 0 < i < |s| && s[i] == '@' && HasInnerDot(s[i + 1..])
      && (forall k :: 0 <= k < |s| && s[k] == '@' ==> k == i);
    var d := s[i + 1..];
    var k :| 0 < k < |d| - 1 && d[k] == '.';
    var j := i + 1 + k;
    assert s[j] == '.';
    RunOfSlice(s, 0, i);
    RunOfSlice(s, i + 1, j);
    RunOfSlice(s, j + 1, |s|);
    assert s[0..i] == s[..i];
    assert s[j + 1..|s|] == s[j + 1..];
  }
}
