/**
 * The few Python `str` operations the scraper relies on, over `string`
 * (a sequence of Unicode scalar values, close to Python's `str`, a sequence
 * of code points that may also hold lone surrogates): `p in s`, `s.endswith(p)`, `s.replace(p, q)` and a
 * one-character-class `re.sub`.
 */
module Strings {

  /** `p` occurs in `s` starting at index `i`. */
  predicate OccursAt(p: string, s: string, i: int)
  {
    0 <= i && i + |p| <= |s| && s[i..i + |p|] == p
  }

  /** Python's `p in s`: `p` is a contiguous substring of `s`.
      The empty string is a substring of every string. */
  ghost predicate IsSubstring(p: string, s: string)
  {
    exists i :: OccursAt(p, s, i)
  }

  /** Python's `s.endswith(suffix)`. */
  function EndsWith(s: string, suffix: string): (b: bool)
    ensures b <==> OccursAt(suffix, s, |s| - |suffix|)
    ensures b ==> s == s[..|s| - |suffix|] + suffix
  {
    assert |suffix| <= |s| ==> s == s[..|s| - |suffix|] + s[|s| - |suffix|..];
    |suffix| <= |s| && s[|s| - |suffix|..] == suffix
  }

  /** An occurrence past the first index of `s` is an occurrence in `s[1..]`,
      shifted by one. */
  lemma OccursAtTail(p: string, s: string, i: int)
    requires |s| > 0 && 1 <= i
    ensures OccursAt(p, s, i) <==> OccursAt(p, s[1..], i - 1)
  {
  }

  /** When `p` does not start `s`, it occurs in `s` iff it occurs in `s[1..]`. */
  lemma IsSubstringTail(p: string, s: string)
    requires |s| > 0 && !OccursAt(p, s, 0)
    ensures IsSubstring(p, s) <==> IsSubstring(p, s[1..])
  {
    if IsSubstring(p, s) {
      var i :| OccursAt(p, s, i);
      OccursAtTail(p, s, i);
      assert OccursAt(p, s[1..], i - 1);
    }
    if IsSubstring(p, s[1..]) {
      var i :| OccursAt(p, s[1..], i);
      OccursAtTail(p, s, i + 1);
      assert OccursAt(p, s, i + 1);
    }
  }

  /** A string lacking one of `p`'s characters does not contain `p`. */
  lemma MissingCharExcludes(p: string, s: string, k: int)
    requires 0 <= k < |p|
    requires forall i :: 0 <= i < |s| ==> s[i] != p[k]
    ensures !IsSubstring(p, s)
  {
    forall i
      ensures !OccursAt(p, s, i)
    {
      if 0 <= i && i + |p| <= |s| {
        assert s[i..i + |p|][k] == s[i + k];
      }
    }
  }

  /** Executable `p in s`, scanning `s` from the left. */
  function Contains(s: string, p: string): (b: bool)
    ensures b <==> IsSubstring(p, s)
    decreases |s|
  {
    if |s| < |p| then
      assert forall i :: !OccursAt(p, s, i);
      false
    else if s[..|p|] == p then
      assert OccursAt(p, s, 0);
      true
    else
      IsSubstringTail(p, s);
      Contains(s[1..], p)
  }

  /** Python's `s.replace(pat, rep)` for a non-empty `pat`: occurrences are
      found left to right and do not overlap; the text a replacement
      produces is not searched again. */
  function ReplaceAll(s: string, pat: string, rep: string): (r: string)
    requires |pat| > 0
    ensures !IsSubstring(pat, s) ==> r == s
    ensures |rep| <= |pat| ==> |r| <= |s|
    ensures forall c :: c in r ==> c in s || c in rep
    decreases |s|
  {
    if |s| < |pat| then
      s
    else if s[..|pat|] == pat then
      assert OccursAt(pat, s, 0);
      rep + ReplaceAll(s[|pat|..], pat, rep)
    else
      IsSubstringTail(pat, s);
      [s[0]] + ReplaceAll(s[1..], pat, rep)
  }

  /** Removing an occurrence can join the text around it into a new
      occurrence, so one `replace(pat, "")` does not remove every `pat`. */
  lemma RemovalCanLeaveOccurrence()
    ensures var s := "hthttp://tp://";
            IsSubstring("http://", s) && ReplaceAll(s, "http://", "") == "http://"
  {
    var s := "hthttp://tp://";
    assert OccursAt("http://", s, 2);
    assert s == "ht" + "http://" + "tp://";
    assert s[..7][2] != 't' && s[1..][..7][1] != 't';
    RemovalRejoinsPattern("http://", s);
  }

  /** One step of `ReplaceAll` at a match. */
  lemma ReplaceAtMatch(s: string, pat: string, rep: string)
    requires |pat| > 0 && OccursAt(pat, s, 0)
    ensures ReplaceAll(s, pat, rep) == rep + ReplaceAll(s[|pat|..], pat, rep)
  {
  }

  /** One step of `ReplaceAll` where the pattern does not start the string. */
  lemma ReplaceAtMiss(s: string, pat: string, rep: string)
    requires |pat| > 0 && |pat| <= |s| && !OccursAt(pat, s, 0)
    ensures ReplaceAll(s, pat, rep) == [s[0]] + ReplaceAll(s[1..], pat, rep)
  {
  }

  /** Removing `pat` from `pat[..2] + pat + pat[2..]` leaves `pat` when
      `pat` does not start at either of the first two positions. */
  lemma RemovalRejoinsPattern(pat: string, s: string)
    requires |pat| > 2 && s == pat[..2] + pat + pat[2..]
    requires !OccursAt(pat, s, 0) && !OccursAt(pat, s[1..], 0)
    ensures ReplaceAll(s, pat, "") == pat
  {
    assert s[2..][..|pat|] == pat && s[2..][|pat|..] == pat[2..];
    ReplaceAtMatch(s[2..], pat, "");
    assert s[1..][1..] == s[2..];
    ReplaceAtMiss(s[1..], pat, "");
    ReplaceAtMiss(s, pat, "");
    assert [s[0]] + [s[1..][0]] == pat[..2];
  }
}
