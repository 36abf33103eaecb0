/**
 * The post-fetch admission test `should_skip_content` (scraper.py:76-91).
 * A page is skipped when its URL carries the malformed marker `.html/`,
 * when its content is shorter than ten characters, or when some configured
 * skip pattern occurs in its content. The three tests run in that order and
 * the first that fires is the one reported.
 */
module Skip {
  import opened Optional
  import opened Strings

  /** A URL containing this marker is a page path glued onto an `.html` file. */
  const MalformedMarker: string := ".html/"

  /** Content with fewer characters than this is treated as empty. */
  const MinContentLength: nat := 10

  /** Which test made the page be skipped (the message the source prints). */
  datatype SkipReason =
    | MalformedUrl
    | TooShort(length: nat)
    | PatternMatch(pattern: string)

  /** `patterns[i]` occurs in `content` and no earlier pattern does. */
  ghost predicate FirstMatchAt(content: string, patterns: seq<string>, i: int)
  {
    && 0 <= i < |patterns|
    && IsSubstring(patterns[i], content)
    && forall j :: 0 <= j < i ==> !IsSubstring(patterns[j], content)
  }

  /** Some pattern of the list occurs in `content`. */
  ghost predicate AnyPatternOccurs(content: string, patterns: seq<string>)
  {
    exists i :: 0 <= i < |patterns| && IsSubstring(patterns[i], content)
  }

  /** The pattern loop: the first pattern, in list order, found in `content`. */
  function FirstMatchingPattern(content: string, patterns: seq<string>): (r: Option<string>)
    ensures r.None? <==> !AnyPatternOccurs(content, patterns)
    ensures r.Some? ==> exists i :: FirstMatchAt(content, patterns, i) && patterns[i] == r.value
    decreases |patterns|
  {
    if |patterns| == 0 then
      None
    else if Contains(content, patterns[0]) then
      assert FirstMatchAt(content, patterns, 0);
      Some(patterns[0])
    else
      var r := FirstMatchingPattern(content, patterns[1..]);
      assert forall j :: 1 <= j < |patterns| ==> patterns[j] == patterns[1..][j - 1];
      assert r.Some? ==> exists k :: FirstMatchAt(content, patterns, k) && patterns[k] == r.value by {
        if r.Some? {
          var i :| FirstMatchAt(content, patterns[1..], i) && patterns[1..][i] == r.value;
          assert FirstMatchAt(content, patterns, i + 1);
        }
      }
      r
  }

  /** The reason `should_skip_content` would print, or `None` to keep the page. */
  function SkipReasonFor(markdown: string, url: string, skipPatterns: seq<string>): (r: Option<SkipReason>)
    ensures r == Some(MalformedUrl) <==> IsSubstring(MalformedMarker, url)
    ensures r.Some? && r.value.TooShort? <==>
              !IsSubstring(MalformedMarker, url) && |markdown| < MinContentLength
    ensures r.Some? && r.value.TooShort? ==> r.value.length == |markdown|
    ensures r.Some? && r.value.PatternMatch? <==>
              && !IsSubstring(MalformedMarker, url)
              && |markdown| >= MinContentLength
              && AnyPatternOccurs(markdown, skipPatterns)
    ensures r.Some? && r.value.PatternMatch? ==>
              exists i :: FirstMatchAt(markdown, skipPatterns, i) && skipPatterns[i] == r.value.pattern
  {
    if Contains(url, MalformedMarker) then
      Some(MalformedUrl)
    else if |markdown| < MinContentLength then
      Some(TooShort(|markdown|))
    else
      match FirstMatchingPattern(markdown, skipPatterns)
      case Some(p) => Some(PatternMatch(p))
      case None => None
  }

  /** `should_skip_content(markdown, url, skip_patterns)`. */
  function ShouldSkipContent(markdown: string, url: string, skipPatterns: seq<string>): (skip: bool)
    ensures skip <==>
              || IsSubstring(MalformedMarker, url)
              || |markdown| < MinContentLength
              || AnyPatternOccurs(markdown, skipPatterns)
  {
    SkipReasonFor(markdown, url, skipPatterns).Some?
  }

  /** Only the set of skip patterns matters, not their order or repetition
      (the order decides only which pattern is reported). */
  lemma SkipIgnoresPatternOrder(markdown: string, url: string, ps: seq<string>, qs: seq<string>)
    requires forall p :: p in ps <==> p in qs
    ensures ShouldSkipContent(markdown, url, ps) == ShouldSkipContent(markdown, url, qs)
  {
    if AnyPatternOccurs(markdown, ps) {
      var i :| 0 <= i < |ps| && IsSubstring(ps[i], markdown);
      assert ps[i] in qs;
      var j :| 0 <= j < |qs| && qs[j] == ps[i];
      assert AnyPatternOccurs(markdown, qs);
    }
    if AnyPatternOccurs(markdown, qs) {
      var j :| 0 <= j < |qs| && IsSubstring(qs[j], markdown);
      assert qs[j] in ps;
      var i :| 0 <= i < |ps| && ps[i] == qs[j];
      assert AnyPatternOccurs(markdown, ps);
    }
  }
}
