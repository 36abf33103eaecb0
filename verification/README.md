# Post-crawl admission and naming of the wiki scraper

The scraper of this question-answering assistant hands its crawl to an
external crawl library. It then does three things itself with the list of
fetch results the library returns:

- it tests each successful page with `should_skip_content`;
- it folds the surviving pages into a `url -> html` dictionary (`process_results`);
- it writes one file per dictionary entry, naming each file after its URL (`save_results_to_raw`).

It also assembles the configuration objects it hands to the library:
`create_filter_chain`, `create_crawling_strategy` and the strategy part of
`create_run_config`. This project models those pieces as pure Dafny
functions and proves what they promise.

Modules, leaf first:

- `Optional` — Python's `Optional[...]`.
- `Strings` — the `str` operations the scraper uses:
  - `p in s` (`IsSubstring`, with the executable `Contains` proved equal to it);
  - `s.endswith`;
  - `s.replace` for a non-empty pattern: a greedy left-to-right scan whose matches do not overlap.
- `Skip` — `should_skip_content`, and the reason it reports when it skips a page.
- `Results` — `FetchResult`, the per-result report, the dictionary fold `Collect`, and the looping method `ProcessResults` proved equal to it.
- `Filenames` — the URL-to-file-name sanitiser from inside `save_results_to_raw`, lifted into the pure function `UrlToFilename`.
- `Filters` — the filter-chain and crawl-strategy descriptors.

Facts about the code that the model keeps:

- The ten-character minimum and the skip patterns are applied to the raw
  `html`, not to pruned text. The call site passes `result.html` as the
  `markdown` argument.
- The sanitiser replaces exactly the nine characters `<>:"/\|?*`. It does
  not replace every non-alphanumeric character.
- The file name is not injective.
  `Filenames.DistinctUrlsShareFilename` shows that `https://a/b` and `a_b`
  get the same file. So `save_results_to_raw` can write fewer files than
  the dictionary size it reports (scraper.py:131).
- Dropping `https://` and then `http://` does not always leave a string
  free of both. `Strings.RemovalCanLeaveOccurrence` shows one
  `replace("http://", "")` leaving an `http://` behind. The final file name
  still contains neither, because their `:` is replaced.

## Model

| member | source | states |
|---|---|---|
| `Strings.Contains` | scraper.py:78 | The scan used for Python's `in` returns true exactly when the pattern occurs at some index of the string. The empty pattern occurs everywhere. |
| `Strings.EndsWith` | scraper.py:121 | `s.endswith(suffix)` holds exactly when the suffix occurs at the last position it fits, and then `s` is its remaining prefix followed by the suffix. |
| `Strings.ReplaceAll` | scraper.py:119 | `str.replace` leaves a string without the pattern unchanged. It never lengthens the string when the replacement is not longer than the pattern. Every character of the result comes from the input or from the replacement. |
| `Strings.RemovalCanLeaveOccurrence` | scraper.py:119 | Removing `http://` from `hthttp://tp://` leaves exactly `http://`, so one `replace` does not remove every occurrence. |
| `Skip.FirstMatchingPattern` | scraper.py:86-89 | The pattern loop finds nothing exactly when no pattern occurs in the content. Otherwise it returns the first pattern, in list order, that occurs. |
| `Skip.SkipReasonFor` | scraper.py:76-91 | The reported reason is "malformed URL" exactly when the URL contains `.html/`. It is "too short" (with the length) exactly when that test passed and the content has under 10 characters. It is "pattern" exactly when both passed and some pattern occurs, and then it names the first such pattern. |
| `Skip.ShouldSkipContent` | scraper.py:76-91 | A page is skipped exactly when its URL contains `.html/`, or its content has fewer than 10 characters, or some skip pattern occurs in its content. With no patterns, only the first two tests apply. |
| `Skip.SkipIgnoresPatternOrder` | scraper.py:86-89 | Two pattern lists with the same members give the same skip decision, whatever their order or repetitions. |
| `Results.Classify` | scraper.py:97-109 | A result is reported as added exactly when it succeeded and is not skipped. It is reported as failed, with its error message and status code, exactly when it did not succeed. A skipped result carries the reason `should_skip_content` would print. |
| `Results.Collect` | scraper.py:95-105 | Every key of the folded dictionary is the URL of some admitted result in the input, and the key holds that result's html. |
| `Results.CollectKeys` | scraper.py:97-105 | The dictionary's keys are exactly the URLs of results that succeeded and were not skipped. |
| `Results.CollectLastWins` | scraper.py:105 | Take an admitted result with no later admitted result for the same URL. Its URL is a key, and the key maps to that result's html, so the last admitted fetch of a URL wins. |
| `Results.CollectedPagesPassSkipTest` | scraper.py:100-105 | Every stored key has no `.html/`. Its stored html has at least 10 characters and contains no skip pattern. |
| `Results.FailedNeverContributes` | scraper.py:98-109 | A URL whose results all failed is never a key. |
| `Results.CollectSize` | scraper.py:95-111 | The dictionary never has more entries than there were results. |
| `Results.CollectAppend` | scraper.py:97-106 | Processing `rs + ss` equals processing both batches and merging them, with the second overriding the first. |
| `Results.CollectRepeated` | scraper.py:97-106 | Processing the same results twice in a row gives the same dictionary as processing them once. |
| `Results.ProcessResults` | scraper.py:93-111 | The loop returns the dictionary of the fold. Its keys are exactly the admitted URLs. It reports exactly one outcome per result, in input order. |
| `Filenames.ReplaceInvalid` | scraper.py:120 | The `re.sub` keeps the length and leaves none of `<>:"/\|?*`. It replaces each such character by `_` and keeps every other character in place. |
| `Filenames.StripSchemes` | scraper.py:119 | Removing both scheme markers never lengthens the URL and introduces no new characters. A URL containing neither marker is left unchanged. |
| `Filenames.StripPageSchemes` | scraper.py:119 | For `https://host/path` with host and path free of replaced characters, removing the scheme markers leaves exactly `host/path`: only the leading `https://` goes. |
| `Filenames.UrlToFilename` | scraper.py:119-122 | The file name ends with `.html` and contains none of `<>:"/\|?*`. It contains no `https://` or `http://`. It is the sanitised stem, plus `.html` only when the stem does not already end with it, so `.html` is never appended twice. It is at most five characters longer than the URL. |
| `Filenames.NoSchemeWithoutColon` | scraper.py:119-120 | A string without the replaced characters contains neither `https://` nor `http://`. |
| `Filenames.UrlToFilenameIdempotent` | scraper.py:119-122 | Sanitising a file name again returns it unchanged. |
| `Filenames.PagePathFilename` | scraper.py:119-122 | `https://host/path` becomes `host_path.html` when host and path are free of replaced characters and the result does not already end in `.html`. For example, `https://wiki.example/Home` becomes `wiki.example_Home.html`. |
| `Filenames.DistinctUrlsShareFilename` | scraper.py:117-131 | `https://host/path` and `host_path` are different URLs that get the same file name, so the later write overwrites the earlier. |
| `Filenames.SavedFileNames` | scraper.py:117-131 | The files written for a set of URLs are no more than the URLs. Each name ends in `.html` and is free of replaced characters. The names are exactly the names of the URLs: every URL's name is among them, and every name is some URL's name. |
| `Filters.CreateFilterChain` | scraper.py:12-28 | The chain is a domain filter (missing blocked list read as empty) then an HTML-only content-type filter. An SEO filter with threshold 0.5 over the given keywords is added exactly when the keyword list is non-empty. The chain has three filters then, and exactly these two otherwise. |
| `Filters.CreateCrawlingStrategy` | scraper.py:38-48 | The strategy keeps the depth, page budget and external-link flag it was given. Its chain is exactly the domain and content-type filters, never an SEO filter. |
| `Filters.RunConfigStrategy` | scraper.py:58 | As written, the strategy `create_run_config` builds keeps depth and page budget. Its chain is exactly the domain and content-type filters, so it never has an SEO filter. Its `include_external` flag is switched on exactly when the keyword list is non-empty. |
| `Filters.RunConfigKeywordExample` | scraper.py:58 | With the keyword list `["crops"]`, the built strategy has no SEO filter and its `include_external` flag is switched on. |
| `Filters.CreateCrawlingStrategyWithKeywords` | scraper.py:38-48 | With the keywords forwarded to the filter chain, the strategy keeps depth, page budget and external flag. Its chain is the domain and content-type filters, followed by `SeoFilter(0.5, keywords)` exactly when the keywords are non-empty, and nothing else. |
| `Filters.RunConfigStrategyIntended` | scraper.py:58 | With the keywords forwarded, the chain is the domain and content-type filters, followed by `SeoFilter(0.5, keywords)` exactly when the keywords are non-empty, and nothing else. The `include_external` flag stays off. |
| `Filters.IntendedAgreesWithoutKeywords` | scraper.py:58 | The as-written and intended strategies coincide exactly when no keywords are configured (with `include_external` represented by its truth value). |

## Left out

- The crawl itself: the best-first frontier, priorities, the depth and page budgets, and domain and content-type filtering (scraper.py:6-10, 43-48, 167-168). These belong to the external crawl library. The scraper only configures them, so they are modelled as descriptors and their behaviour is not modelled.
- `create_markdown_generator` (scraper.py:30-36): a floating-point pruning threshold passed on to a library filter.
- `create_run_config` (scraper.py:50-74), apart from the strategy it builds. The rest is a configuration dictionary for the library: excluded tags, the CSS selector and flags.
- The file writes, `os.makedirs`, the JSON dump and every `print` (scraper.py:115-137). Only the file names (`Filenames.UrlToFilename`, `Filenames.SavedFileNames`) and the per-result report (`Results.Outcome`) are modelled. Which of two colliding URLs ends up on disk depends on the dictionary's insertion order, which a Dafny `map` does not keep.
- `crawl_website` and `main` (scraper.py:139-211): asynchronous orchestration around the library call, plus a hard-coded configuration.
- Filenames.StripSchemes: the contract does not say which occurrences of the scheme markers are removed, a gap it inherits from `Strings.ReplaceAll`. `Filenames.StripPageSchemes` pins the result for URLs of the shape `https://host/path`.
- Filters.RunConfigStrategy: at scraper.py:58 the `include_external` slot receives the keyword list itself (`[]` on the shipped path, where scraper.py:150-151 turns `None` into `[]`), not a boolean. The model represents it by its truth value, so `Filters.IntendedAgreesWithoutKeywords` holds only if the library reads the flag for its truth value.
- Strings.ReplaceAll: the contract does not say where the matches fall. The greedy left-to-right, non-overlapping scan is stated only by its definition, which the scraper's properties rely on through the lemmas above.
- Strings.ReplaceAll: only non-empty patterns are modelled. The scraper calls `replace` with the two constant scheme markers only.
- Results.FetchResult keeps only the fields `process_results` reads. The library's other result fields are not modelled.
- indexer.py, rag_system.py, app.py, main.py and config.py: HTML cleaning, embedding, vector store, language-model calls, UI and paths. These are foreign libraries and I/O, not part of this model.

## Findings

| source | as written | input that shows it | evidently intended | confidence | as-written member | corrected member |
|---|---|---|---|---|---|---|
| scraper.py:58 | `create_run_config` passes `seo_keywords` as the fifth positional argument of `create_crawling_strategy`, whose fifth parameter is `include_external`. `create_filter_chain` is called without keywords (scraper.py:41). | `seo_keywords=["crops"]`: the strategy has no SEO filter and its `include_external` flag is switched on. | The keywords reach `create_filter_chain`, which adds the SEO filter, and `include_external` stays `False`. | medium; not executed. The shipped configuration passes no keywords, so the two agree there, provided the library reads `include_external` for its truth value. | `Filters.RunConfigStrategy` | `Filters.RunConfigStrategyIntended` |
