/**
 * The two Python string operations the validators rely on, over `seq<char>`:
 * `str.isdigit()` (restricted to the ASCII digits) and the substring test
 * `needle in haystack`.
 */
module Text {

  /** An ASCII decimal digit. */
  predicate IsDigit(c: char) {
    '0' <= c <= '9'
  }

  /**
   * `s.isdigit()`: false on the empty string, otherwise true iff every
   * character is a digit.
   */
  function IsDigits(s: string): (b: bool)
    ensures b <==> |s| > 0 && forall i :: 0 <= i < |s| ==> IsDigit(s[i])
  {
    |s| > 0 && IsDigit(s[0]) && (|s| == 1 || IsDigits(s[1..]))
  }

  /** `needle` occurs in `haystack` starting at position `i`. */
  predicate OccursAt(needle: string, haystack: string, i: int) {
    0 <= i && i + |needle| <= |haystack| && haystack[i..i + |needle|] == needle
  }

  /** The specification of `needle in haystack`: some window of `haystack` equals `needle`. */
  ghost predicate HasSubstring(haystack: string, needle: string) {
    exists i :: OccursAt(needle, haystack, i)
  }

  /** `needle in haystack`, computed by trying each starting position in turn. */
  function Contains(haystack: string, needle: string): bool
    decreases |haystack|
  {
    if needle <= haystack then true
    else if |haystack| == 0 then false
    else Contains(haystack[1..], needle)
  }

  /** The search finds the needle exactly when it occurs somewhere in the haystack. */
  lemma {:induction false} ContainsIffHasSubstring(haystack: string, needle: string)
    ensures Contains(haystack, needle) <==> HasSubstring(haystack, needle)
    decreases |haystack|
  {
    if needle <= haystack {
      assert OccursAt(needle, haystack, 0);
    } else if |haystack| == 0 {
      assert forall i :: !OccursAt(needle, haystack, i);
    } else {
      var tail := haystack[1..];
      ContainsIffHasSubstring(tail, needle);
      if Contains(tail, needle) {
        var j :| OccursAt(needle, tail, j);
        assert haystack[j + 1..j + 1 + |needle|] == tail[j..j + |needle|];
        assert OccursAt(needle, haystack, j + 1);
      }
      if HasSubstring(haystack, needle) {
        var i :| OccursAt(needle, haystack, i);
        assert tail[i - 1..i - 1 + |needle|] == haystack[i..i + |needle|];
        assert OccursAt(needle, tail, i - 1);
      }
    }
  }

  /** A needle whose first character appears nowhere in the haystack is not contained in it. */
  lemma FirstCharAbsentNeverContained(haystack: string, needle: string)
    requires |needle| > 0 && needle[0] !in haystack
    ensures !Contains(haystack, needle)
  {
    ContainsIffHasSubstring(haystack, needle);
  }

  /** Python's `any(k in haystack for k in keywords)`. */
  function AnyContained(keywords: seq<string>, haystack: string): bool
  {
    |keywords| > 0 && (Contains(haystack, keywords[0]) || AnyContained(keywords[1..], haystack))
  }

  /** `any(...)` over a keyword list holds iff one of the listed keywords occurs in the haystack. */
  lemma {:induction false} AnyContainedIffSomeKeyword(keywords: seq<string>, haystack: string)
    ensures AnyContained(keywords, haystack)
        <==> exists j :: 0 <= j < |keywords| && HasSubstring(haystack, keywords[j])
  {
    if |keywords| > 0 {
      ContainsIffHasSubstring(haystack, keywords[0]);
      AnyContainedIffSomeKeyword(keywords[1..], haystack);
      if exists j :: 0 <= j < |keywords| && HasSubstring(haystack, keywords[j]) {
        var j :| 0 <= j < |keywords| && HasSubstring(haystack, keywords[j]);
        if j > 0 {
          assert keywords[1..][j - 1] == keywords[j];
        }
      }
      if AnyContained(keywords[1..], haystack) {
        var j :| 0 <= j < |keywords| - 1 && HasSubstring(haystack, keywords[1..][j]);
        assert HasSubstring(haystack, keywords[j + 1]);
      }
    }
  }
}
