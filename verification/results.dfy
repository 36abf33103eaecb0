/**
 * `process_results` (scraper.py:93-111): the crawl library hands back one
 * fetch result per visited page, in order; successful results that pass
 * `should_skip_content` are collected into a `url -> html` dictionary. The
 * raw `html` is what the skip test sees (scraper.py:102). Assigning to a
 * key that is already present replaces its value, so for a URL seen twice
 * the later admitted result wins.
 */
module Results {
  import opened Optional
  import Skip
  import Strings

  /** The fields of a crawl library result that `process_results` reads. */
  datatype FetchResult = FetchResult(
    url: string,
    success: bool,
    html: string,
    statusCode: Option<int>,
    errorMessage: Option<string>)

  /** What `process_results` reports for one result (the line it prints). */
  datatype Outcome =
    | Added(url: string)
    | Skipped(url: string, reason: Skip.SkipReason)
    | Failed(errorMessage: Option<string>, statusCode: Option<int>)

  /** The result is stored in the dictionary. */
  predicate Admits(r: FetchResult, skipPatterns: seq<string>)
  {
    r.success && !Skip.ShouldSkipContent(r.html, r.url, skipPatterns)
  }

  /** The body of the loop for one result, as the report it produces. */
  function Classify(r: FetchResult, skipPatterns: seq<string>): (o: Outcome)
    ensures o.Added? <==> Admits(r, skipPatterns)
    ensures o.Failed? <==> !r.success
    ensures o.Failed? ==> o.errorMessage == r.errorMessage && o.statusCode == r.statusCode
    ensures o.Skipped? ==> o.url == r.url && Skip.SkipReasonFor(r.html, r.url, skipPatterns) == Some(o.reason)
    ensures o.Added? ==> o.url == r.url
  {
    if r.success then
      match Skip.SkipReasonFor(r.html, r.url, skipPatterns)
      case Some(reason) => Skipped(r.url, reason)
      case None => Added(r.url)
    else
      Failed(r.errorMessage, r.statusCode)
  }

  /** The dictionary after the loop has consumed `results`, left to right. */
  function Collect(results: seq<FetchResult>, skipPatterns: seq<string>): (m: map<string, string>)
    ensures forall url :: url in m ==>
              exists i :: 0 <= i < |results| && Admits(results[i], skipPatterns)
                          && results[i].url == url && results[i].html == m[url]
    decreases |results|
  {
    if |results| == 0 then
      map[]
    else
      var acc := Collect(results[..|results| - 1], skipPatterns);
      var r := results[|results| - 1];
      if Admits(r, skipPatterns) then acc[r.url := r.html] else acc
  }

  /** Some admitted result carries `url`. */
  ghost predicate AdmittedUrl(results: seq<FetchResult>, skipPatterns: seq<string>, url: string)
  {
    exists i :: 0 <= i < |results| && Admits(results[i], skipPatterns) && results[i].url == url
  }

  /** Result `i` is admitted and no later admitted result has the same URL. */
  ghost predicate LastAdmitted(results: seq<FetchResult>, skipPatterns: seq<string>, i: int)
  {
    && 0 <= i < |results|
    && Admits(results[i], skipPatterns)
    && forall j :: i < j < |results| && Admits(results[j], skipPatterns) ==> results[j].url != results[i].url
  }

  /** The keys are exactly the URLs of admitted results. */
  lemma {:induction false} CollectKeys(results: seq<FetchResult>, skipPatterns: seq<string>)
    ensures forall url :: url in Collect(results, skipPatterns) <==> AdmittedUrl(results, skipPatterns, url)
    decreases |results|
  {
    if |results| > 0 {
      var pre := results[..|results| - 1];
      CollectKeys(pre, skipPatterns);
      forall url | AdmittedUrl(results, skipPatterns, url)
        ensures url in Collect(results, skipPatterns)
      {
        var i :| 0 <= i < |results| && Admits(results[i], skipPatterns) && results[i].url == url;
        if i < |results| - 1 {
          assert pre[i] == results[i];
          assert AdmittedUrl(pre, skipPatterns, url);
        }
      }
      forall url | url in Collect(results, skipPatterns)
        ensures AdmittedUrl(results, skipPatterns, url)
      {
        if url in Collect(pre, skipPatterns) {
          var i :| 0 <= i < |pre| && Admits(pre[i], skipPatterns) && pre[i].url == url;
          assert results[i] == pre[i];
        } else {
          assert results[|results| - 1].url == url;
        }
      }
    }
  }

  /** The value stored for a URL is the html of the last admitted result
      with that URL. */
  lemma {:induction false} CollectLastWins(results: seq<FetchResult>, skipPatterns: seq<string>, i: int)
    requires LastAdmitted(results, skipPatterns, i)
    ensures results[i].url in Collect(results, skipPatterns)
    ensures Collect(results, skipPatterns)[results[i].url] == results[i].html
    decreases |results|
  {
    var pre := results[..|results| - 1];
    if i < |results| - 1 {
      assert LastAdmitted(pre, skipPatterns, i) by {
        forall j | i < j < |pre| && Admits(pre[j], skipPatterns)
          ensures pre[j].url != pre[i].url
        {
          assert pre[j] == results[j];
        }
      }
      CollectLastWins(pre, skipPatterns, i);
    }
  }

  /** Every stored page passes the skip test on its own URL: its URL has no
      `.html/`, its html has at least ten characters and contains none of
      the skip patterns. */
  lemma {:induction false} CollectedPagesPassSkipTest(results: seq<FetchResult>, skipPatterns: seq<string>)
    ensures forall url :: url in Collect(results, skipPatterns) ==>
              && !Strings.IsSubstring(Skip.MalformedMarker, url)
              && |Collect(results, skipPatterns)[url]| >= Skip.MinContentLength
              && !Skip.AnyPatternOccurs(Collect(results, skipPatterns)[url], skipPatterns)
    decreases |results|
  {
    if |results| > 0 {
      CollectedPagesPassSkipTest(results[..|results| - 1], skipPatterns);
    }
  }

  /** A URL whose every result failed never becomes a key. */
  lemma FailedNeverContributes(results: seq<FetchResult>, skipPatterns: seq<string>, url: string)
    requires forall i :: 0 <= i < |results| && results[i].url == url ==> !results[i].success
    ensures url !in Collect(results, skipPatterns)
  {
    CollectKeys(results, skipPatterns);
  }

  /** There are never more entries than results. */
  lemma {:induction false} CollectSize(results: seq<FetchResult>, skipPatterns: seq<string>)
    ensures |Collect(results, skipPatterns)| <= |results|
    decreases |results|
  {
    if |results| > 0 {
      var pre := results[..|results| - 1];
      CollectSize(pre, skipPatterns);
      var acc := Collect(pre, skipPatterns);
      var r := results[|results| - 1];
      assert acc[r.url := r.html].Keys == acc.Keys + {r.url};
      assert |acc.Keys + {r.url}| <= |acc.Keys| + |{r.url}|;
    }
  }

  /** Overriding a key after a merge is the same as overriding it in the
      right-hand map first. */
  lemma UpdateAfterMerge(a: map<string, string>, b: map<string, string>, k: string, v: string)
    ensures (a + b)[k := v] == a + b[k := v]
  {
  }

  /** One step of the fold: `Collect` of a non-empty list is `Collect` of
      all but the last result, updated with the last when it is admitted. */
  lemma CollectLast(results: seq<FetchResult>, skipPatterns: seq<string>)
    requires |results| > 0
    ensures var r := results[|results| - 1];
            var acc := Collect(results[..|results| - 1], skipPatterns);
            Collect(results, skipPatterns) == if Admits(r, skipPatterns) then acc[r.url := r.html] else acc
  {
  }

  /** Feeding the results in two batches and merging the dictionaries, the
      second batch overriding the first, gives the same dictionary. */
  lemma {:induction false} CollectAppend(rs: seq<FetchResult>, ss: seq<FetchResult>, skipPatterns: seq<string>)
    ensures Collect(rs + ss, skipPatterns) == Collect(rs, skipPatterns) + Collect(ss, skipPatterns)
    decreases |ss|
  {
    if |ss| == 0 {
      assert rs + ss == rs;
    } else {
      var ss' := ss[..|ss| - 1];
      var r := ss[|ss| - 1];
      assert (rs + ss)[..|rs + ss| - 1] == rs + ss';
      assert (rs + ss)[|rs + ss| - 1] == r;
      CollectAppend(rs, ss', skipPatterns);
      CollectLast(rs + ss, skipPatterns);
      CollectLast(ss, skipPatterns);
      if Admits(r, skipPatterns) {
        UpdateAfterMerge(Collect(rs, skipPatterns), Collect(ss', skipPatterns), r.url, r.html);
      }
    }
  }

  /** Processing the same results twice over yields the same dictionary
      as processing them once. */
  lemma CollectRepeated(results: seq<FetchResult>, skipPatterns: seq<string>)
    ensures Collect(results + results, skipPatterns) == Collect(results, skipPatterns)
  {
    CollectAppend(results, results, skipPatterns);
    var m := Collect(results, skipPatterns);
    assert m + m == m;
  }

  /** `process_results(results, skip_patterns)`: the dictionary and the
      report printed for each result, in input order. */
  method ProcessResults(results: seq<FetchResult>, skipPatterns: seq<string>)
    returns (contentDict: map<string, string>, report: seq<Outcome>)
    ensures contentDict == Collect(results, skipPatterns)
    ensures forall url :: url in contentDict <==> AdmittedUrl(results, skipPatterns, url)
    ensures |report| == |results|
    ensures forall i :: 0 <= i < |results| ==> report[i] == Classify(results[i], skipPatterns)
  {
    contentDict := map[];
    report := [];
    for n := 0 to |results|
      invariant contentDict == Collect(results[..n], skipPatterns)
      invariant |report| == n
      invariant forall i :: 0 <= i < n ==> report[i] == Classify(results[i], skipPatterns)
    {
      var result := results[n];
      assert results[..n + 1][..n] == results[..n];
      report := report + [Classify(result, skipPatterns)];
      if result.success {
        if Skip.ShouldSkipContent(result.html, result.url, skipPatterns) {
          continue;
        }
        contentDict := contentDict[result.url := result.html];
      }
    }
    assert results[..|results|] == results;
    CollectKeys(results, skipPatterns);
  }
}
