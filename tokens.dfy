/**
 * The first half of `getFileName` in spit.go: turning a typed token into the
 * fragment that is globbed for. Two regular expressions are involved:
 * `\w+-[0-9]+` (searched anywhere in the token) and `^[0-9]+$` (the whole token).
 */
module Tokens {
  import opened Wrappers
  import opened Text
  import opened Glob

  /** Every character of `s[lo..hi]` is a word character. */
  predicate WordSpan(s: string, lo: int, hi: int)
    requires 0 <= lo <= hi <= |s|
  {
    forall m :: lo <= m < hi ==> IsWordChar(s[m])
  }

  /** Every character of `s[lo..hi]` is a digit. */
  predicate DigitSpan(s: string, lo: int, hi: int)
    requires 0 <= lo <= hi <= |s|
  {
    forall m :: lo <= m < hi ==> IsDigit(s[m])
  }

  /**
   * The language of `\w+-[0-9]+`: `s[i..j]` is one or more word characters,
   * a hyphen, and one or more digits.
   */
  ghost predicate MatchAt(s: string, i: int, j: int) {
    0 <= i && j <= |s| &&
    exists k :: i < k && k + 1 < j && WordSpan(s, i, k) && s[k] == '-' && DigitSpan(s, k + 1, j)
  }

  /**
   * The match Go's leftmost-first search reports: it starts as early as any
   * match does and, among the matches starting there, the greedy `[0-9]+`
   * makes it the longest.
   */
  ghost predicate LeftmostLongest(s: string, i: int, j: int) {
    && MatchAt(s, i, j)
    && (forall a, b :: a < i ==> !MatchAt(s, a, b))
    && (forall b :: MatchAt(s, i, b) ==> b <= j)
  }

  ghost predicate HasMatch(s: string) {
    exists i, j :: MatchAt(s, i, j)
  }

  /** End of the maximal run of word characters that starts at `i`. */
  function WordRunEnd(s: string, i: nat): (k: nat)
    requires i <= |s|
    ensures i <= k <= |s| && WordSpan(s, i, k)
    ensures k < |s| ==> !IsWordChar(s[k])
    decreases |s| - i
  {
    if i < |s| && IsWordChar(s[i]) then WordRunEnd(s, i + 1) else i
  }

  /** End of the maximal run of digits that starts at `i`. */
  function DigitRunEnd(s: string, i: nat): (k: nat)
    requires i <= |s|
    ensures i <= k <= |s| && DigitSpan(s, i, k)
    ensures k < |s| ==> !IsDigit(s[k])
    decreases |s| - i
  {
    if i < |s| && IsDigit(s[i]) then DigitRunEnd(s, i + 1) else i
  }

  /** A match starts at `i`: the word run from `i` is followed by `-` and a digit. */
  predicate StartsMatch(s: string, i: nat)
    requires i <= |s|
  {
    i < |s| && IsWordChar(s[i]) &&
    var k := WordRunEnd(s, i);
    k + 1 < |s| && s[k] == '-' && IsDigit(s[k + 1])
  }

  /** Where the greedy match starting at `i` ends. */
  function GreedyEnd(s: string, i: nat): nat
    requires i <= |s| && StartsMatch(s, i)
  {
    DigitRunEnd(s, WordRunEnd(s, i) + 1)
  }

  /**
   * The hyphen of any match starting at `i` is where the word run from `i`
   * ends, so the local test `StartsMatch` decides whether one exists, and the
   * greedy end is the longest.
   */
  lemma MatchesFrom(s: string, i: nat)
    requires i <= |s|
    ensures StartsMatch(s, i) ==> MatchAt(s, i, GreedyEnd(s, i))
    ensures forall j :: MatchAt(s, i, j) ==> StartsMatch(s, i) && j <= GreedyEnd(s, i)
  {
    if StartsMatch(s, i) {
      var k := WordRunEnd(s, i);
      assert WordSpan(s, i, k) && s[k] == '-' && DigitSpan(s, k + 1, GreedyEnd(s, i));
    }
    forall j | MatchAt(s, i, j)
      ensures StartsMatch(s, i) && j <= GreedyEnd(s, i)
    {
      var k' :| i < k' && k' + 1 < j && WordSpan(s, i, k') && s[k'] == '-' && DigitSpan(s, k' + 1, j);
      var k := WordRunEnd(s, i);
      assert k == k';
      assert IsDigit(s[k + 1]);
    }
  }

  /** The leftmost-first search for `\w+-[0-9]+`, starting at position `i`. */
  function FindFrom(s: string, i: nat): (r: Option<(nat, nat)>)
    requires i <= |s|
    ensures r.Some? ==> i <= r.value.0 < r.value.1 <= |s|
    decreases |s| - i
  {
    if i == |s| then None
    else if StartsMatch(s, i) then Some((i, GreedyEnd(s, i)))
    else FindFrom(s, i + 1)
  }

  /** `LeftmostLongest`, restricted to matches that start at or after `from`. */
  ghost predicate LeftmostLongestFrom(s: string, from: int, i: int, j: int) {
    && MatchAt(s, i, j)
    && (forall a, b :: from <= a < i ==> !MatchAt(s, a, b))
    && (forall b :: MatchAt(s, i, b) ==> b <= j)
  }

  /** The search finds the leftmost, longest match at or after `i`, and reports none only when there is none. */
  lemma {:induction false} FindFromIsLeftmostLongest(s: string, i: nat)
    requires i <= |s|
    ensures FindFrom(s, i).None? ==> forall a, b :: i <= a ==> !MatchAt(s, a, b)
    ensures FindFrom(s, i).Some? ==> LeftmostLongestFrom(s, i, FindFrom(s, i).value.0, FindFrom(s, i).value.1)
    decreases |s| - i
  {
    MatchesFrom(s, i);
    if i < |s| && !StartsMatch(s, i) {
      FindFromIsLeftmostLongest(s, i + 1);
    }
  }

  /** `regexp.MustCompile(`\w+-[0-9]+`).FindString(s)`: the match, or "" when there is none. */
  function FindWordDashDigits(s: string): (found: string)
    ensures found != "" ==> Contains(s, found)
  {
    match FindFrom(s, 0)
    case None => ""
    case Some((i, j)) =>
      assert HasPrefix(s[i..], s[i..j]);
      s[i..j]
  }

  /** FindString reports "" exactly when there is no match, and otherwise the leftmost, longest match. */
  lemma FindWordDashDigitsIsLeftmostLongest(s: string)
    ensures FindWordDashDigits(s) == "" <==> !HasMatch(s)
    ensures FindWordDashDigits(s) != "" ==> exists i, j :: LeftmostLongest(s, i, j) && FindWordDashDigits(s) == s[i..j]
    ensures forall c :: 0 <= c < |FindWordDashDigits(s)| ==> IsWordChar(FindWordDashDigits(s)[c]) || FindWordDashDigits(s)[c] == '-'
  {
    FindFromIsLeftmostLongest(s, 0);
    var r := FindFrom(s, 0);
    if r.Some? {
      var i, j := r.value.0, r.value.1;
      assert LeftmostLongest(s, i, j);
      assert FindWordDashDigits(s) == s[i..j];
      var k :| i < k && k + 1 < j && WordSpan(s, i, k) && s[k] == '-' && DigitSpan(s, k + 1, j);
      forall c | 0 <= c < j - i
        ensures IsWordChar(s[i..j][c]) || s[i..j][c] == '-'
      {
        assert s[i..j][c] == s[i + c];
      }
    } else {
      assert FindWordDashDigits(s) == "";
    }
  }

  /** `regexp.MustCompile("^[0-9]+$").FindString(s)`: the token itself if it is all digits, else "". */
  function FindAllDigits(s: string): (m: string)
    ensures m == "" || m == s
  {
    if |s| > 0 && DigitSpan(s, 0, |s|) then s else ""
  }

  predicate IsNumeric(s: string) {
    |s| > 0 && DigitSpan(s, 0, |s|)
  }

  /**
   * The fragment spit.go globs for: the `\w+-[0-9]+` match, or else "hotfix-"
   * followed by the `^[0-9]+$` match (which may be empty). It is never empty.
   */
  function Fragment(token: string): (frag: string)
    ensures |frag| > 0
  {
    var found := FindWordDashDigits(token);
    if found == "" then "hotfix-" + FindAllDigits(token)
    else found
  }

  /**
   * A fragment holds only word characters and hyphens, so it contains no
   * glob metacharacter and `*frag*` is a plain substring search.
   */
  lemma FragmentIsLiteral(token: string)
    ensures forall m :: 0 <= m < |Fragment(token)| ==> IsWordChar(Fragment(token)[m]) || Fragment(token)[m] == '-'
    ensures IsLiteral(Fragment(token))
  {
    FindWordDashDigitsIsLeftmostLongest(token);
    var frag := Fragment(token);
    if FindWordDashDigits(token) == "" {
      assert frag == "hotfix-" + FindAllDigits(token);
      forall m | 7 <= m < |frag| ensures IsDigit(frag[m]) {
        assert frag[m] == token[m - 7];
      }
    }
  }

  /** A token holding a `\w+-[0-9]+` match is reduced to the leftmost, longest such match. */
  lemma FragmentOfPatternToken(token: string, i: int, j: int)
    requires LeftmostLongest(token, i, j)
    ensures 0 <= i < j <= |token| && Fragment(token) == token[i..j]
  {
    FindWordDashDigitsIsLeftmostLongest(token);
    var found := FindWordDashDigits(token);
    assert found != "";
    var i', j' :| LeftmostLongest(token, i', j') && found == token[i'..j'];
    assert i == i' && j == j';
  }

  /** Every token that has a match has a leftmost, longest one. */
  lemma LeftmostLongestExists(token: string)
    requires HasMatch(token)
    ensures exists i, j :: LeftmostLongest(token, i, j)
  {
    FindWordDashDigitsIsLeftmostLongest(token);
  }

  /** A non-empty all-digit token becomes "hotfix-" followed by the token. */
  lemma FragmentOfNumericToken(token: string)
    requires IsNumeric(token)
    ensures !HasMatch(token)
    ensures Fragment(token) == "hotfix-" + token
  {
    FindWordDashDigitsIsLeftmostLongest(token);
  }

  /**
   * A token matching neither expression still gets the fragment "hotfix-",
   * never the empty string, so the "no known pattern" error is never raised.
   */
  lemma FragmentOfOtherToken(token: string)
    requires !HasMatch(token) && !IsNumeric(token)
    ensures Fragment(token) == "hotfix-"
  {
    FindWordDashDigitsIsLeftmostLongest(token);
    assert FindAllDigits(token) == "";
  }

  /** The first position whose local test succeeds starts the reported match. */
  lemma FirstStartIsLeftmost(s: string, i: nat)
    requires i <= |s| && StartsMatch(s, i)
    requires forall a :: 0 <= a < i ==> !StartsMatch(s, a)
    ensures LeftmostLongest(s, i, GreedyEnd(s, i))
    ensures Fragment(s) == s[i..GreedyEnd(s, i)]
  {
    MatchesFrom(s, i);
    forall a, b | a < i
      ensures !MatchAt(s, a, b)
    {
      if 0 <= a {
        MatchesFrom(s, a);
      }
    }
    FragmentOfPatternToken(s, i, GreedyEnd(s, i));
  }

  /** A bare number from the tool's usage text. */
  lemma NumericExample()
    ensures Fragment("1234") == "hotfix-1234"
  {
    hide Fragment;
    FragmentOfNumericToken("1234");
  }

  /** The ticket codes from the tool's usage text are their own fragments. */
  lemma TicketExamples()
    ensures Fragment("de-6") == "de-6"
    ensures Fragment("portal-45") == "portal-45"
  {
    hide Fragment;
    FirstStartIsLeftmost("de-6", 0);
    FirstStartIsLeftmost("portal-45", 0);
  }

  /** The match is the leftmost one, not the first hyphen: "a-b-12" gives "b-12". */
  lemma LeftmostExample()
    ensures Fragment("a-b-12") == "b-12"
  {
    hide Fragment;
    var s := "a-b-12";
    assert !StartsMatch(s, 0) by { assert WordRunEnd(s, 0) == 1; }
    assert !StartsMatch(s, 1);
    assert GreedyEnd(s, 2) == 6 by {
      assert WordRunEnd(s, 2) == 3;
      assert DigitRunEnd(s, 4) == 6;
    }
    FirstStartIsLeftmost(s, 2);
  }

  /** The digit run ends at the first non-digit: "de-6a" gives "de-6". */
  lemma DigitRunExample()
    ensures Fragment("de-6a") == "de-6"
  {
    hide Fragment;
    var s := "de-6a";
    assert GreedyEnd(s, 0) == 4 by {
      assert WordRunEnd(s, 0) == 2;
      assert DigitRunEnd(s, 3) == 4;
    }
    FirstStartIsLeftmost(s, 0);
  }

  /** A token of punctuation still gets a fragment, "hotfix-". */
  lemma NoPatternExample()
    ensures Fragment("!!!") == "hotfix-"
  {
    hide Fragment;
    var s := "!!!";
    forall a, b ensures !MatchAt(s, a, b) {
      if 0 <= a <= |s| { MatchesFrom(s, a); }
    }
    assert !IsNumeric(s) by { assert !IsDigit(s[0]); }
    FragmentOfOtherToken(s);
  }
}
