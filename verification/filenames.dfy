/**
 * The file name `save_results_to_raw` derives from a URL (scraper.py:119-122),
 * lifted out of the loop that writes the files: drop every `https://`, then
 * every `http://`, turn each of the nine characters `<>:"/\|?*` into `_`,
 * and add `.html` unless the name already ends with it.
 */
module Filenames {
  import opened Strings

  /** The character class `[<>:"/\\|?*]` of the `re.sub` call. */
  const InvalidChars: set<char> := {'<', '>', ':', '"', '/', '\\', '|', '?', '*'}

  const HtmlExtension: string := ".html"

  /** `s` contains none of the characters the sanitiser replaces. */
  predicate NoInvalidChars(s: string)
  {
    forall i :: 0 <= i < |s| ==> s[i] !in InvalidChars
  }

  /** `re.sub(r'[<>:"/\\|?*]', '_', s)`. */
  function ReplaceInvalid(s: string): (r: string)
    ensures |r| == |s|
    ensures NoInvalidChars(r)
    ensures forall i :: 0 <= i < |s| && s[i] !in InvalidChars ==> r[i] == s[i]
    ensures forall i :: 0 <= i < |s| && s[i] in InvalidChars ==> r[i] == '_'
    decreases |s|
  {
    if |s| == 0 then
      []
    else
      [if s[0] in InvalidChars then '_' else s[0]] + ReplaceInvalid(s[1..])
  }

  /** The URL with its scheme markers removed (scraper.py:119). */
  function StripSchemes(url: string): (r: string)
    ensures |r| <= |url|
    ensures forall c :: c in r ==> c in url
    ensures !IsSubstring("https://", url) && !IsSubstring("http://", url) ==> r == url
  {
    ReplaceAll(ReplaceAll(url, "https://", ""), "http://", "")
  }

  /** The name before the extension is considered. */
  function Stem(url: string): string
  {
    ReplaceInvalid(StripSchemes(url))
  }

  /** The file name for `url`. */
  function UrlToFilename(url: string): (name: string)
    ensures EndsWith(name, HtmlExtension)
    ensures NoInvalidChars(name)
    ensures !IsSubstring("https://", name) && !IsSubstring("http://", name)
    ensures name == Stem(url) || name == Stem(url) + HtmlExtension
    ensures EndsWith(Stem(url), HtmlExtension) ==> name == Stem(url)
    ensures |name| <= |url| + |HtmlExtension|
  {
    var stem := Stem(url);
    var name := if EndsWith(stem, HtmlExtension) then stem else stem + HtmlExtension;
    NoSchemeWithoutColon(name);
    name
  }

  /** Both scheme markers contain `:`, which a sanitised name cannot. */
  lemma NoSchemeWithoutColon(s: string)
    requires NoInvalidChars(s)
    ensures !IsSubstring("https://", s) && !IsSubstring("http://", s)
  {
    MissingCharExcludes("https://", s, 5);
    MissingCharExcludes("http://", s, 4);
  }

  /** A string free of replaced characters is its own stem. */
  lemma StemOfSafeName(s: string)
    requires NoInvalidChars(s)
    ensures Stem(s) == s
  {
    NoSchemeWithoutColon(s);
    assert StripSchemes(s) == s;
  }

  /** Sanitising a file name again leaves it as it is: the steps remove or
      replace only things a file name no longer contains. */
  lemma UrlToFilenameIdempotent(url: string)
    ensures UrlToFilename(UrlToFilename(url)) == UrlToFilename(url)
  {
    StemOfSafeName(UrlToFilename(url));
  }

  /** The names of the files `save_results_to_raw` writes for a dictionary. */
  function SavedFileNames(urls: set<string>): (names: set<string>)
    ensures |names| <= |urls|
    ensures forall n :: n in names ==> EndsWith(n, HtmlExtension) && NoInvalidChars(n)
    ensures forall u :: u in urls ==> UrlToFilename(u) in names
    ensures forall n :: n in names ==> exists u :: u in urls && UrlToFilename(u) == n
  {
    var names := set u | u in urls :: UrlToFilename(u);
    ImageSize(urls);
    names
  }

  /** The image of a set under `UrlToFilename` is no larger than the set. */
  lemma {:induction false} ImageSize(urls: set<string>)
    ensures |set u | u in urls :: UrlToFilename(u)| <= |urls|
    decreases |urls|
  {
    if urls != {} {
      var u :| u in urls;
      var rest := urls - {u};
      ImageSize(rest);
      assert (set v | v in urls :: UrlToFilename(v))
          == (set v | v in rest :: UrlToFilename(v)) + {UrlToFilename(u)};
    }
  }

  /** A page URL `https://host/path` (host and path free of replaced
      characters, path not already ending in `.html`) is stored as
      `host_path.html`; `https://wiki.example/Home` becomes
      `wiki.example_Home.html`. */
  lemma PagePathFilename(host: string, path: string)
    requires NoInvalidChars(host) && NoInvalidChars(path)
    requires !EndsWith(host + "_" + path, HtmlExtension)
    ensures UrlToFilename("https://" + host + "/" + path) == host + "_" + path + HtmlExtension
  {
    StripPageSchemes(host, path);
    ReplaceSlash(host, path);
  }

  /** Only the leading `https://` of such a URL is removed. */
  lemma StripPageSchemes(host: string, path: string)
    requires NoInvalidChars(host) && NoInvalidChars(path)
    ensures StripSchemes("https://" + host + "/" + path) == host + "/" + path
  {
    var url := "https://" + host + "/" + path;
    var rest := host + "/" + path;
    assert url[..8] == "https://" && url[8..] == rest;
    forall i | 0 <= i < |rest|
      ensures rest[i] != ':'
    {
      if i < |host| {
        assert rest[i] == host[i];
      } else if i > |host| {
        assert rest[i] == path[i - |host| - 1];
      }
    }
    MissingCharExcludes("https://", rest, 5);
    MissingCharExcludes("http://", rest, 4);
    ReplaceAtMatch(url, "https://", "");
    assert ReplaceAll(url, "https://", "") == ReplaceAll(rest, "https://", "") == rest;
    assert ReplaceAll(rest, "http://", "") == rest;
  }

  /** The `/` between host and path is the only character replaced. */
  lemma ReplaceSlash(host: string, path: string)
    requires NoInvalidChars(host) && NoInvalidChars(path)
    ensures ReplaceInvalid(host + "/" + path) == host + "_" + path
  {
  }

  /** Distinct URLs can share a file name, so a later page overwrites an
      earlier one on disk even though both are keys of the dictionary. */
  lemma DistinctUrlsShareFilename(host: string, path: string)
    requires NoInvalidChars(host) && NoInvalidChars(path)
    requires !EndsWith(host + "_" + path, HtmlExtension)
    ensures var url := "https://" + host + "/" + path;
            var flat := host + "_" + path;
            url != flat && UrlToFilename(url) == UrlToFilename(flat)
  {
    var url := "https://" + host + "/" + path;
    var flat := host + "_" + path;
    assert |url| != |flat|;
    PagePathFilename(host, path);
    assert NoInvalidChars(flat) by {
      forall i | 0 <= i < |flat|
        ensures flat[i] !in InvalidChars
      {
        if i < |host| {
          assert flat[i] == host[i];
        } else if i > |host| {
          assert flat[i] == path[i - |host| - 1];
        }
      }
    }
    StemOfSafeName(flat);
  }
}
