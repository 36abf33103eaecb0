/**
 * The crawl configuration the scraper hands to its crawl library
 * (scraper.py:12-28, 38-48, 58). Only the lists of filter descriptors and
 * the strategy parameters are modelled; what the library does with them
 * is not part of this model.
 */
module Filters {
  import opened Optional

  /** One entry of the filter chain, as the descriptor the scraper builds. */
  datatype Filter =
    | DomainFilter(allowedDomains: seq<string>, blockedDomains: seq<string>)
    | ContentTypeFilter(allowedTypes: seq<string>)
    | SeoFilter(threshold: real, keywords: seq<string>)

  /** The parameters of the best-first crawl strategy. */
  datatype CrawlStrategy = BestFirst(
    maxDepth: int,
    includeExternal: bool,
    maxPages: int,
    filterChain: seq<Filter>)

  const HtmlContentType: string := "text/html"

  /** The relevance threshold the SEO filter is given. */
  const SeoThreshold: real := 0.5

  /** Python truthiness of an optional list: `None` and `[]` are false. */
  predicate Truthy(xs: Option<seq<string>>)
  {
    xs.Some? && |xs.value| > 0
  }

  /** The chain holds an SEO filter. */
  predicate HasSeoFilter(chain: seq<Filter>)
  {
    exists i :: 0 <= i < |chain| && chain[i].SeoFilter?
  }

  /** `create_filter_chain(allowed_domains, blocked_domains, seo_keywords)`:
      a domain filter, an HTML-only content-type filter and, for a
      non-empty keyword list, an SEO filter over those keywords. */
  function CreateFilterChain(allowed: seq<string>, blocked: Option<seq<string>>, seoKeywords: Option<seq<string>>)
    : (chain: seq<Filter>)
    ensures |chain| == if Truthy(seoKeywords) then 3 else 2
    ensures chain[0] == DomainFilter(allowed, blocked.GetOr([]))
    ensures chain[1] == ContentTypeFilter([HtmlContentType])
    ensures HasSeoFilter(chain) <==> Truthy(seoKeywords)
    ensures forall i :: 0 <= i < |chain| && chain[i].SeoFilter? ==>
              Truthy(seoKeywords) && chain[i] == SeoFilter(SeoThreshold, seoKeywords.value)
  {
    var blockedDomains := if blocked.None? then [] else blocked.value;
    var filters := [DomainFilter(allowed, blockedDomains), ContentTypeFilter([HtmlContentType])];
    if Truthy(seoKeywords) then
      assert (filters + [SeoFilter(SeoThreshold, seoKeywords.value)])[2].SeoFilter?;
      filters + [SeoFilter(SeoThreshold, seoKeywords.value)]
    else
      filters
  }

  /** `create_crawling_strategy`: its filter chain is built without keywords
      (scraper.py:41), whatever the caller wanted. */
  function CreateCrawlingStrategy(maxDepth: int, maxPages: int, allowed: seq<string>,
                                  blocked: Option<seq<string>>, includeExternal: bool)
    : (s: CrawlStrategy)
    ensures s.maxDepth == maxDepth && s.maxPages == maxPages && s.includeExternal == includeExternal
    ensures s.filterChain == [DomainFilter(allowed, blocked.GetOr([])), ContentTypeFilter([HtmlContentType])]
    ensures !HasSeoFilter(s.filterChain)
  {
    BestFirst(maxDepth, includeExternal, maxPages, CreateFilterChain(allowed, blocked, None))
  }

  /** The strategy `create_run_config` builds (scraper.py:58), as written:
      the keyword list lands positionally in the `include_external` slot and
      is represented here by its truth value. Configured keywords never
      produce an SEO filter, and a non-empty keyword list sets the
      `include_external` flag. */
  function RunConfigStrategy(maxDepth: int, maxPages: int, allowed: seq<string>,
                             blocked: Option<seq<string>>, seoKeywords: Option<seq<string>>)
    : (s: CrawlStrategy)
    ensures s.maxDepth == maxDepth && s.maxPages == maxPages
    ensures s.includeExternal <==> Truthy(seoKeywords)
    ensures s.filterChain == [DomainFilter(allowed, blocked.GetOr([])), ContentTypeFilter([HtmlContentType])]
    ensures !HasSeoFilter(s.filterChain)
  {
    CreateCrawlingStrategy(maxDepth, maxPages, allowed, blocked, Truthy(seoKeywords))
  }

  /** A concrete call: one keyword, no SEO filter, `include_external` set. */
  lemma RunConfigKeywordExample()
    ensures var s := RunConfigStrategy(2, 200, ["wiki.example"], None, Some(["crops"]));
            !HasSeoFilter(s.filterChain) && s.includeExternal
  {
  }

  /** `create_crawling_strategy` with the keywords passed on to
      `create_filter_chain`, as `create_run_config` evidently meant. */
  function CreateCrawlingStrategyWithKeywords(maxDepth: int, maxPages: int, allowed: seq<string>,
                                              blocked: Option<seq<string>>, seoKeywords: Option<seq<string>>,
                                              includeExternal: bool)
    : (s: CrawlStrategy)
    ensures s.maxDepth == maxDepth && s.maxPages == maxPages && s.includeExternal == includeExternal
    ensures |s.filterChain| == if Truthy(seoKeywords) then 3 else 2
    ensures s.filterChain[..2] == [DomainFilter(allowed, blocked.GetOr([])), ContentTypeFilter([HtmlContentType])]
    ensures Truthy(seoKeywords) ==> s.filterChain[2] == SeoFilter(SeoThreshold, seoKeywords.value)
    ensures HasSeoFilter(s.filterChain) <==> Truthy(seoKeywords)
  {
    BestFirst(maxDepth, includeExternal, maxPages, CreateFilterChain(allowed, blocked, seoKeywords))
  }

  /** The strategy `create_run_config` evidently intended: keywords reach
      the filter chain and `include_external` keeps its default `False`. */
  function RunConfigStrategyIntended(maxDepth: int, maxPages: int, allowed: seq<string>,
                                     blocked: Option<seq<string>>, seoKeywords: Option<seq<string>>)
    : (s: CrawlStrategy)
    ensures s.maxDepth == maxDepth && s.maxPages == maxPages
    ensures !s.includeExternal
    ensures |s.filterChain| == if Truthy(seoKeywords) then 3 else 2
    ensures s.filterChain[..2] == [DomainFilter(allowed, blocked.GetOr([])), ContentTypeFilter([HtmlContentType])]
    ensures Truthy(seoKeywords) ==> s.filterChain[2] == SeoFilter(SeoThreshold, seoKeywords.value)
    ensures HasSeoFilter(s.filterChain) <==> Truthy(seoKeywords)
  {
    CreateCrawlingStrategyWithKeywords(maxDepth, maxPages, allowed, blocked, seoKeywords, false)
  }

  /** The two agree exactly when no keywords are configured, which is the
      case for the configuration the scraper ships with. */
  lemma IntendedAgreesWithoutKeywords(maxDepth: int, maxPages: int, allowed: seq<string>,
                                      blocked: Option<seq<string>>, seoKeywords: Option<seq<string>>)
    ensures RunConfigStrategy(maxDepth, maxPages, allowed, blocked, seoKeywords)
            == RunConfigStrategyIntended(maxDepth, maxPages, allowed, blocked, seoKeywords)
            <==> !Truthy(seoKeywords)
  {
    if Truthy(seoKeywords) {
      assert RunConfigStrategy(maxDepth, maxPages, allowed, blocked, seoKeywords).includeExternal;
    } else {
      assert CreateFilterChain(allowed, blocked, seoKeywords) == CreateFilterChain(allowed, blocked, None);
    }
  }
}
