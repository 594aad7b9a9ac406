/** The crawler's rules: which URLs it follows, which page texts it keeps,
    how it de-duplicates them, the depth-limited recursive crawl over the
    shared `visited` set, and the loading of the URL history. HTTP, HTML
    parsing and the file system are replaced by a `Site` value: the leaf
    texts of a page and the absolute URLs of its links. */
module Scrapping {
  import opened Common
  import UrlParse

  const Domain: string := "unpad.ac.id"

  const ExcludedExtensions: seq<string> :=
    [".pdf", ".jpg", ".png", ".zip", ".docx", ".xls", ".ppt", ".mp4", ".css", ".js"]

  const ExcludedPaths: seq<string> :=
    ["/profil", "/login", "/admin", "/register", "/user", "/tag", "/category"]

  const ExcludedTexts: seq<string> := ["Pencarian", "Layanan", "Keranjang"]

  const MinTextLength: nat := 30

  /** The depth limit of the first call of a scraping run. */
  const StartMaxDepth: nat := 2

  /** The depth limit granted to faculty and study-programme pages. */
  const ImportantMaxDepth: nat := 3

  // ---------------------------------------------------------------------
  // Which URLs are followed

  predicate EndsWithAny(s: string, suffixes: seq<string>) {
    exists i :: 0 <= i < |suffixes| && EndsWith(s, suffixes[i])
  }

  predicate ContainsAny(s: string, parts: seq<string>) {
    exists i :: 0 <= i < |parts| && Contains(s, parts[i])
  }

  /** `is_valid_url`: an http(s) URL on a host containing the domain, not
      ending in an excluded file extension and with no excluded path part. */
  predicate IsValidUrl(url: string) {
    var parsed := UrlParse.Parse(url);
    if !Contains(parsed.netloc, Domain) || parsed.scheme !in ["http", "https"] then false
    else if EndsWithAny(Lower(url), ExcludedExtensions) then false
    else if ContainsAny(Lower(parsed.path), ExcludedPaths) then false
    else true
  }

  /** For a URL written out as scheme, host and path, validity is decided
      by the three rules applied to those parts. */
  lemma ValidPlainUrl(url: string, scheme: string, host: string, path: string)
    requires UrlParse.PlainParts(scheme, host, path) && url == scheme + "://" + host + path
    ensures IsValidUrl(url) <==>
              && (scheme == "http" || scheme == "https")
              && Contains(host, Domain)
              && !EndsWithAny(Lower(url), ExcludedExtensions)
              && !ContainsAny(Lower(path), ExcludedPaths)
  {
    UrlParse.ParsePlain(scheme, host, path);
  }

  /** A URL that ends in '/' never ends in an excluded file extension. */
  lemma DirectoryUrlHasNoExcludedExtension(url: string)
    requires url != [] && url[|url| - 1] == '/'
    ensures !EndsWithAny(Lower(url), ExcludedExtensions)
  {
    var low := Lower(url);
    assert low[|low| - 1] == '/';
    ExtensionsDoNotEndInSlash();
    NoSuffixEndsIn(low, ExcludedExtensions);
  }

  lemma ExtensionsDoNotEndInSlash()
    ensures NoneEndsIn(ExcludedExtensions, '/')
  {
  }

  /** None of `suffixes` ends in the character `c`. */
  predicate NoneEndsIn(suffixes: seq<string>, c: char) {
    forall i :: 0 <= i < |suffixes| ==> suffixes[i] != [] && suffixes[i][|suffixes[i]| - 1] != c
  }

  lemma NoSuffixEndsIn(s: string, suffixes: seq<string>)
    requires s != [] && NoneEndsIn(suffixes, s[|s| - 1])
    ensures !EndsWithAny(s, suffixes)
  {
    forall i | 0 <= i < |suffixes| ensures !EndsWith(s, suffixes[i]) {
      NotEndsWithOtherLast(s, suffixes[i]);
    }
  }

  /** The root page of any http(s) host inside the domain is followed;
      the crawl's start page "https://smup.unpad.ac.id/" is one. */
  lemma DomainRootIsValid(url: string, scheme: string, host: string)
    requires UrlParse.PlainParts(scheme, host, "/") && url == scheme + "://" + host + "/"
    requires scheme == "http" || scheme == "https"
    requires Contains(host, Domain)
    ensures IsValidUrl(url)
  {
    ValidPlainUrl(url, scheme, host, "/");
    DirectoryUrlHasNoExcludedExtension(url);
    RootPathIsNotExcluded();
  }

  const StartHost: string := "smup.unpad.ac.id"

  lemma StartUrlParts()
    ensures UrlParse.PlainParts("https", StartHost, "/")
    ensures StartUrl == "https" + "://" + StartHost + "/"
  {
  }

  lemma StartHostInDomain()
    ensures Contains(StartHost, Domain)
  {
    assert Domain <= StartHost[5..];
    ContainsAt(StartHost, Domain, 5);
  }

  /** The start page passes `is_valid_url`. */
  lemma StartUrlIsValid()
    ensures IsValidUrl(StartUrl)
  {
    StartUrlParts();
    StartHostInDomain();
    DomainRootIsValid(StartUrl, "https", StartHost);
  }

  lemma RootPathIsNotExcluded()
    ensures !ContainsAny(Lower("/"), ExcludedPaths)
  {
    forall i | 0 <= i < |ExcludedPaths| ensures !Contains(Lower("/"), ExcludedPaths[i]) {
      NotContainsLonger(Lower("/"), ExcludedPaths[i]);
    }
  }

  // ---------------------------------------------------------------------
  // Which texts are kept

  /** A leaf text is kept when it is longer than 30 characters and contains
      none of the excluded words (case-sensitively). */
  predicate Kept(text: string) {
    text != "" && |text| > MinTextLength && !ContainsAny(text, ExcludedTexts)
  }

  /** The kept texts of `texts`, in order. */
  function KeptTexts(texts: seq<string>): (r: seq<string>)
    ensures forall t :: t in r <==> t in texts && Kept(t)
  {
    if texts == [] then []
    else KeptTexts(texts[..|texts| - 1]) + (if Kept(texts[|texts| - 1]) then [texts[|texts| - 1]] else [])
  }

  lemma {:induction false} KeptTextsIsSubsequence(texts: seq<string>)
    ensures IsSubsequence(KeptTexts(texts), texts)
  {
    if texts != [] {
      var init := texts[..|texts| - 1];
      KeptTextsIsSubsequence(init);
      var r := KeptTexts(texts);
      if Kept(texts[|texts| - 1]) {
        assert r[..|r| - 1] == KeptTexts(init);
      } else {
        assert r == KeptTexts(init);
        if r != [] {
          assert IsSubsequence(r, texts[..|texts| - 1]);
        }
      }
    }
  }

  /** The loop of `scrape_page` over the leaf tags: each text is checked
      for length, then against every excluded word until one matches. */
  method DeepestTexts(leafTexts: seq<string>) returns (deepest: seq<string>)
    ensures deepest == KeptTexts(leafTexts)
  {
    deepest := [];
    var i := 0;
    while i < |leafTexts|
      invariant 0 <= i <= |leafTexts|
      invariant deepest == KeptTexts(leafTexts[..i])
    {
      var text := leafTexts[i];
      assert leafTexts[..i + 1][..i] == leafTexts[..i];
      if text != "" && |text| > MinTextLength {
        var isExcluded := false;
        var j := 0;
        while j < |ExcludedTexts|
          invariant 0 <= j <= |ExcludedTexts|
          invariant isExcluded <==> exists k :: 0 <= k < j && Contains(text, ExcludedTexts[k])
        {
          if Contains(text, ExcludedTexts[j]) {
            isExcluded := true;
            break;
          }
          j := j + 1;
        }
        if !isExcluded {
          deepest := deepest + [text];
        }
      }
      i := i + 1;
    }
    assert leafTexts[..i] == leafTexts;
  }

  // ---------------------------------------------------------------------
  // De-duplication

  ghost predicate NoDuplicates<T>(s: seq<T>) {
    forall i, j :: 0 <= i < j < |s| ==> s[i] != s[j]
  }

  /** The reference meaning of "keep each text's first occurrence": the
      elements of `s` that do not occur earlier in `s`, in order. */
  ghost function FirstOccurrences<T>(s: seq<T>): seq<T>
  {
    if s == [] then []
    else FirstOccurrences(s[..|s| - 1]) + (if s[|s| - 1] in s[..|s| - 1] then [] else [s[|s| - 1]])
  }

  /** `dict.fromkeys(s)`: walk left to right, keeping what was not seen. */
  function DedupFrom<T(==)>(s: seq<T>, seen: set<T>): seq<T>
  {
    if s == [] then []
    else if s[0] in seen then DedupFrom(s[1..], seen)
    else [s[0]] + DedupFrom(s[1..], seen + {s[0]})
  }

  function Dedup<T(==)>(s: seq<T>): seq<T> {
    DedupFrom(s, {})
  }

  /** Walking `s` after having seen exactly the elements of `p` adds to the
      first occurrences of `p` those of `p + s`. */
  lemma {:induction false} DedupFromPrefix<T>(p: seq<T>, s: seq<T>, seen: set<T>)
    requires forall x :: x in seen <==> x in p
    ensures FirstOccurrences(p + s) == FirstOccurrences(p) + DedupFrom(s, seen)
    decreases |s|
  {
    if s == [] {
      assert p + s == p;
    } else {
      var p' := p + [s[0]];
      assert p + s == p' + s[1..];
      assert p'[..|p'| - 1] == p;
      if s[0] in seen {
        DedupFromPrefix(p', s[1..], seen);
      } else {
        DedupFromPrefix(p', s[1..], seen + {s[0]});
      }
    }
  }

  /** `dict.fromkeys` keeps exactly the first occurrences, in order. */
  lemma DedupIsFirstOccurrences<T>(s: seq<T>)
    ensures Dedup(s) == FirstOccurrences(s)
  {
    DedupFromPrefix([], s, {});
    assert [] + s == s;
  }

  lemma {:induction false} FirstOccurrencesProperties<T>(s: seq<T>)
    ensures forall x :: x in FirstOccurrences(s) <==> x in s
    ensures NoDuplicates(FirstOccurrences(s))
    ensures IsSubsequence(FirstOccurrences(s), s)
  {
    if s != [] {
      var init := s[..|s| - 1];
      var last := s[|s| - 1];
      FirstOccurrencesProperties(init);
      var r := FirstOccurrences(s);
      assert s == init + [last];
      if last in init {
        assert r == FirstOccurrences(init);
      } else {
        assert r[..|r| - 1] == FirstOccurrences(init);
      }
    }
  }

  /** What `list(dict.fromkeys(texts))` returns: no text twice, every text
      of the input, the input's order, and each text at its first place. */
  lemma DedupCorrect<T>(s: seq<T>)
    ensures forall x :: x in Dedup(s) <==> x in s
    ensures NoDuplicates(Dedup(s))
    ensures IsSubsequence(Dedup(s), s)
    ensures Dedup(s) == FirstOccurrences(s)
  {
    DedupIsFirstOccurrences(s);
    FirstOccurrencesProperties(s);
  }

  /** The lines a scraped page's file holds. */
  function SavedTexts(leafTexts: seq<string>): seq<string> {
    Dedup(KeptTexts(leafTexts))
  }

  datatype ScrapeOutcome = AlreadySaved | Failed | Saved(texts: seq<string>)

  /** What `scrape_page` does with a page: nothing when its file already
      exists (Python's None), 0 when the request or parsing fails, and
      otherwise the de-duplicated kept texts, which it writes and counts. */
  method ScrapePage(fileExists: bool, leafTexts: Option<seq<string>>) returns (outcome: ScrapeOutcome, count: Option<nat>)
    ensures fileExists ==> outcome == AlreadySaved && count == None
    ensures !fileExists && leafTexts.None? ==> outcome == Failed && count == Some(0)
    ensures !fileExists && leafTexts.Some? ==>
              && outcome.Saved?
              && NoDuplicates(outcome.texts)
              && (forall t :: t in outcome.texts <==> t in leafTexts.value && Kept(t))
              && IsSubsequence(outcome.texts, leafTexts.value)
              && outcome.texts == SavedTexts(leafTexts.value)
              && count == Some(|outcome.texts|)
  {
    if fileExists {
      return AlreadySaved, None;
    }
    if leafTexts.None? {
      return Failed, Some(0);
    }
    var deepest := DeepestTexts(leafTexts.value);
    var textData := Dedup(deepest);
    DedupCorrect(deepest);
    KeptTextsIsSubsequence(leafTexts.value);
    SubsequenceTransitive(textData, deepest, leafTexts.value);
    return Saved(textData), Some(|textData|);
  }

  lemma {:induction false} SubsequenceTransitive<T>(a: seq<T>, b: seq<T>, c: seq<T>)
    requires IsSubsequence(a, b) && IsSubsequence(b, c)
    ensures IsSubsequence(a, c)
    decreases |c|
  {
    if a != [] {
      var a', b', c' := a[..|a| - 1], b[..|b| - 1], c[..|c| - 1];
      if b[|b| - 1] == c[|c| - 1] && IsSubsequence(b', c') {
        if a[|a| - 1] == b[|b| - 1] && IsSubsequence(a', b') {
          SubsequenceTransitive(a', b', c');
        } else {
          SubsequenceTransitive(a, b', c');
        }
      } else {
        SubsequenceTransitive(a, b, c');
      }
    }
  }

  // ---------------------------------------------------------------------
  // The history file

  /** Python's `str.isspace` for one character. */
  predicate IsSpace(c: char) {
    || c == ' ' || '\t' <= c <= '\r' || '\U{1C}' <= c <= '\U{1F}'
    || c == '\U{85}' || c == '\U{A0}' || c == '\U{1680}' || '\U{2000}' <= c <= '\U{200A}'
    || c == '\U{2028}' || c == '\U{2029}' || c == '\U{202F}' || c == '\U{205F}' || c == '\U{3000}'
  }

  function StripStart(s: string): (r: string)
    ensures |r| <= |s| && r == s[|s| - |r|..]
    ensures r == [] || !IsSpace(r[0])
    ensures forall i :: 0 <= i < |s| - |r| ==> IsSpace(s[i])
  {
    if s != [] && IsSpace(s[0]) then StripStart(s[1..]) else s
  }

  function StripEnd(s: string): (r: string)
    ensures |r| <= |s| && r == s[..|r|]
    ensures r == [] || !IsSpace(r[|r| - 1])
    ensures forall i :: |r| <= i < |s| ==> IsSpace(s[i])
  {
    if s != [] && IsSpace(s[|s| - 1]) then StripEnd(s[..|s| - 1]) else s
  }

  /** `s.strip()`: `s` without its leading and trailing whitespace. */
  function Strip(s: string): (r: string)
    ensures r == [] || (!IsSpace(r[0]) && !IsSpace(r[|r| - 1]))
    ensures exists i, j :: 0 <= i <= j <= |s| && r == s[i..j]
              && (forall k :: 0 <= k < i ==> IsSpace(s[k]))
              && (forall k :: j <= k < |s| ==> IsSpace(s[k]))
  {
    var t := StripStart(s);
    var r := StripEnd(t);
    var i := |s| - |t|;
    assert r == s[i..i + |r|];
    r
  }

  /** A string with no whitespace at either end strips to itself, whatever
      whitespace is added around it. */
  lemma {:induction false} StripPadded(s: string, before: string, after: string)
    requires s == [] || (!IsSpace(s[0]) && !IsSpace(s[|s| - 1]))
    requires forall k :: 0 <= k < |before| ==> IsSpace(before[k])
    requires forall k :: 0 <= k < |after| ==> IsSpace(after[k])
    requires s != [] || (before == [] && after == [])
    ensures Strip(before + s + after) == s
  {
    var padded := before + s + after;
    StripStartPadded(s + after, before);
    assert before + (s + after) == padded;
    StripEndPadded(s, after);
  }

  lemma {:induction false} StripStartPadded(s: string, before: string)
    requires s == [] || !IsSpace(s[0])
    requires forall k :: 0 <= k < |before| ==> IsSpace(before[k])
    ensures StripStart(before + s) == s
    decreases |before|
  {
    if before != [] {
      assert (before + s)[1..] == before[1..] + s;
      StripStartPadded(s, before[1..]);
    } else {
      assert before + s == s;
    }
  }

  lemma {:induction false} StripEndPadded(s: string, after: string)
    requires s == [] || !IsSpace(s[|s| - 1])
    requires forall k :: 0 <= k < |after| ==> IsSpace(after[k])
    ensures StripEnd(s + after) == s
    decreases |after|
  {
    if after != [] {
      var shorter := after[..|after| - 1];
      assert (s + after)[..|s + after| - 1] == s + shorter;
      StripEndPadded(s, shorter);
    } else {
      assert s + after == s;
    }
  }

  /** Stripping twice strips no more than stripping once. */
  lemma StripIdempotent(s: string)
    ensures Strip(Strip(s)) == Strip(s)
  {
    var r := Strip(s);
    if r == [] {
    } else {
      StripPadded(r, [], []);
      assert [] + r + [] == r;
    }
  }

  /** The line `save_history` appends for a URL. */
  function HistoryLine(url: string): string {
    url + "\n"
  }

  /** The lines saved for `urls`, in order. */
  function HistoryLines(urls: seq<string>): (lines: seq<string>)
    ensures |lines| == |urls|
    ensures forall i :: 0 <= i < |urls| ==> lines[i] == HistoryLine(urls[i])
  {
    if urls == [] then [] else HistoryLines(urls[..|urls| - 1]) + [HistoryLine(urls[|urls| - 1])]
  }

  /** What `load_history` reads back from the lines of the history file. */
  function StrippedLines(lines: seq<string>): (urls: seq<string>)
    ensures |urls| == |lines|
    ensures forall i :: 0 <= i < |lines| ==> urls[i] == Strip(lines[i])
  {
    if lines == [] then [] else StrippedLines(lines[..|lines| - 1]) + [Strip(lines[|lines| - 1])]
  }

  lemma StrippedLinesSnoc(lines: seq<string>, i: nat)
    requires i < |lines|
    ensures StrippedLines(lines[..i + 1]) == StrippedLines(lines[..i]) + [Strip(lines[i])]
  {
    assert lines[..i + 1][..i] == lines[..i];
  }

  /** A history line strips back to its URL when the URL has no whitespace
      at either end. */
  lemma StripHistoryLine(url: string)
    requires url != [] && !IsSpace(url[0]) && !IsSpace(url[|url| - 1])
    ensures Strip(HistoryLine(url)) == url
  {
    StripPadded(url, [], "\n");
    assert [] + url + "\n" == HistoryLine(url);
  }

  /** The crawled URLs read back from the history are the URLs that were
      saved, when none ends in whitespace (a followed URL never starts with
      whitespace: its scheme starts with a letter). */
  lemma HistoryRoundTrip(urls: seq<string>)
    requires forall i :: 0 <= i < |urls| ==> IsValidUrl(urls[i]) && !IsSpace(urls[i][|urls[i]| - 1])
    ensures StrippedLines(HistoryLines(urls)) == urls
  {
    forall i | 0 <= i < |urls| ensures Strip(HistoryLine(urls[i])) == urls[i] {
      ValidUrlStartsWithLetter(urls[i]);
      StripHistoryLine(urls[i]);
    }
  }

  lemma ValidUrlStartsWithLetter(url: string)
    requires IsValidUrl(url)
    ensures url != [] && UrlParse.IsAsciiAlpha(url[0]) && !IsSpace(url[0])
  {
    assert UrlParse.Parse(url).scheme != "";
    UrlParse.SchemeStartsUrl(url);
  }

  // ---------------------------------------------------------------------
  // The crawl

  function Max(a: int, b: int): int {
    if a >= b then a else b
  }

  /** The site as the crawler sees it: the leaf texts of a page and the
      absolute URLs its links resolve to, or a failed request. */
  datatype Site = Site(page: string -> Option<seq<string>>, links: string -> Option<seq<string>>)

  predicate LinksTo(site: Site, from: string, to: string) {
    site.links(from).Some? && to in site.links(from).value
  }

  /** The depth limit passed to the crawl of a linked page: raised to 3 on
      faculty and study-programme pages, otherwise inherited. */
  function ChildMaxDepth(fullUrl: string, maxDepth: nat): (next: nat)
    ensures maxDepth <= next <= Max(maxDepth, ImportantMaxDepth)
    ensures Max(next, ImportantMaxDepth) == Max(maxDepth, ImportantMaxDepth)
    ensures Contains(fullUrl, "/fakultas") || Contains(fullUrl, "/program-studi") ==> next == Max(maxDepth, ImportantMaxDepth)
    ensures !(Contains(fullUrl, "/fakultas") || Contains(fullUrl, "/program-studi")) ==> next == maxDepth
    ensures next != maxDepth ==> Contains(fullUrl, "/fakultas") || Contains(fullUrl, "/program-studi")
  {
    if Contains(fullUrl, "/fakultas") || Contains(fullUrl, "/program-studi") then Max(maxDepth, ImportantMaxDepth)
    else maxDepth
  }

  /** Where a page sits in a crawl: the depth it was visited at and the
      depth limit its own crawl ran with. */
  datatype Level = Level(depth: nat, limit: nat)

  /** Page `i` of a crawl's trace is where page `j` was found: an earlier
      page, one level up, linking to it, whose limit gave `j` its own. */
  ghost predicate FoundFrom(site: Site, trace: seq<string>, levels: seq<Level>, i: int, j: int)
    requires |levels| == |trace|
  {
    && 0 <= i < j < |trace|
    && levels[j].depth == levels[i].depth + 1
    && levels[j].limit == ChildMaxDepth(trace[j], levels[i].limit)
    && LinksTo(site, trace[i], trace[j])
  }

  /** The pages a crawl visited, in visiting order, with the level of each:
      none above `depth`, none deeper than its own limit, no limit above
      `cap`, and each after the first found from an earlier page. */
  ghost predicate Discovered(site: Site, trace: seq<string>, levels: seq<Level>, depth: nat, cap: nat) {
    && |levels| == |trace|
    && (forall j :: 0 <= j < |trace| ==> depth <= levels[j].depth <= levels[j].limit <= cap)
    && (forall j :: 0 < j < |trace| ==> HasFinder(site, trace, levels, j))
  }

  ghost predicate HasFinder(site: Site, trace: seq<string>, levels: seq<Level>, j: int)
    requires |levels| == |trace|
  {
    exists i :: FoundFrom(site, trace, levels, i, j)
  }

  /** The files after scraping the pages `urls`: a page whose file existed
      keeps it, a page fetched successfully gets its saved texts, and no
      other file appears. */
  ghost predicate ScrapedFiles(site: Site, before: map<string, seq<string>>, after: map<string, seq<string>>, urls: seq<string>) {
    && (forall u :: u in after <==> u in before || (u in urls && site.page(u).Some?))
    && (forall u :: u in before ==> after[u] == before[u])
    && (forall u :: u in after && u !in before ==> site.page(u).Some? && after[u] == SavedTexts(site.page(u).value))
  }

  lemma NoDuplicatesAppend<T>(a: seq<T>, b: seq<T>)
    requires NoDuplicates(a) && NoDuplicates(b)
    requires forall x :: x in a ==> x !in b
    ensures NoDuplicates(a + b)
  {
    forall i, j | 0 <= i < j < |a + b| ensures (a + b)[i] != (a + b)[j] {
      if i < |a| && j >= |a| {
        assert (a + b)[i] in a && (a + b)[j] == b[j - |a|];
      }
    }
  }

  /** Appending the trace of a linked page's crawl keeps the shape. */
  lemma {:induction false} DiscoveredAppend(site: Site, trace: seq<string>, levels: seq<Level>,
                                           child: seq<string>, childLevels: seq<Level>, depth: nat, cap: nat)
    requires Discovered(site, trace, levels, depth, cap) && trace != [] && levels[0].depth == depth
    requires Discovered(site, child, childLevels, depth + 1, cap)
    requires child != [] && LinksTo(site, trace[0], child[0])
    requires childLevels[0] == Level(depth + 1, ChildMaxDepth(child[0], levels[0].limit))
    ensures Discovered(site, trace + child, levels + childLevels, depth, cap)
  {
    var t, d := trace + child, levels + childLevels;
    forall j | 0 < j < |t| ensures HasFinder(site, t, d, j) {
      if j < |trace| {
        assert HasFinder(site, trace, levels, j);
        var i :| FoundFrom(site, trace, levels, i, j);
        assert t[i] == trace[i] && t[j] == trace[j] && d[i] == levels[i] && d[j] == levels[j];
        assert FoundFrom(site, t, d, i, j);
      } else if j == |trace| {
        assert t[0] == trace[0] && t[j] == child[0] && d[0] == levels[0] && d[j] == childLevels[0];
        assert FoundFrom(site, t, d, 0, j);
      } else {
        var k := j - |trace|;
        assert HasFinder(site, child, childLevels, k);
        var i :| FoundFrom(site, child, childLevels, i, k);
        var i' := |trace| + i;
        assert t[i'] == child[i] && t[j] == child[k] && d[i'] == childLevels[i] && d[j] == childLevels[k];
        assert FoundFrom(site, t, d, i', j);
      }
    }
    forall j | 0 <= j < |t| ensures depth <= d[j].depth <= d[j].limit <= cap {
      if j >= |trace| {
        assert d[j] == childLevels[j - |trace|];
      }
    }
  }

  /** What a crawl that visited `trace` did to the crawler's state: each
      page entered `visited` once, got a history line and, when its file
      did not exist, its file. */
  ghost predicate CrawlEffect(site: Site, visited0: set<string>, visited1: set<string>,
                              history0: seq<string>, history1: seq<string>,
                              files0: map<string, seq<string>>, files1: map<string, seq<string>>, trace: seq<string>) {
    && (forall u :: u in visited1 <==> u in visited0 || u in trace)
    && (forall u :: u in trace ==> u !in visited0)
    && NoDuplicates(trace)
    && history1 == history0 + HistoryLines(trace)
    && ScrapedFiles(site, files0, files1, trace)
  }

  lemma CrawlEffectCompose(site: Site, visited0: set<string>, visited1: set<string>, visited2: set<string>,
                           history0: seq<string>, history1: seq<string>, history2: seq<string>,
                           files0: map<string, seq<string>>, files1: map<string, seq<string>>, files2: map<string, seq<string>>,
                           trace1: seq<string>, trace2: seq<string>)
    requires CrawlEffect(site, visited0, visited1, history0, history1, files0, files1, trace1)
    requires CrawlEffect(site, visited1, visited2, history1, history2, files1, files2, trace2)
    ensures CrawlEffect(site, visited0, visited2, history0, history2, files0, files2, trace1 + trace2)
  {
    NoDuplicatesAppend(trace1, trace2);
    assert HistoryLines(trace1 + trace2) == HistoryLines(trace1) + HistoryLines(trace2);
  }

  /** The first `n` links of a page crawled at `depth` with limit
      `maxDepth` were followed: every valid one whose own limit admits the
      next level is visited. */
  ghost predicate Followed(links: seq<string>, n: int, depth: nat, maxDepth: nat, visited: set<string>)
    requires 0 <= n <= |links|
  {
    forall k :: 0 <= k < n && IsValidUrl(links[k]) && depth + 1 <= ChildMaxDepth(links[k], maxDepth) ==> links[k] in visited
  }

  /** All links of `url`, when its request succeeded, were followed. */
  ghost predicate LinksFollowed(site: Site, url: string, depth: nat, maxDepth: nat, visited: set<string>) {
    site.links(url).Some? ==> Followed(site.links(url).value, |site.links(url).value|, depth, maxDepth, visited)
  }

  /** Every page of a crawl's trace from index `from` on had its links
      followed, each with its own depth and limit. */
  ghost predicate AllFollowed(site: Site, trace: seq<string>, levels: seq<Level>, from: int, visited: set<string>)
    requires |levels| == |trace|
  {
    forall j :: from <= j < |trace| && 0 <= j ==> LinksFollowed(site, trace[j], levels[j].depth, levels[j].limit, visited)
  }

  /** Visiting more pages keeps followed links followed. */
  lemma FollowedMonotone(site: Site, url: string, depth: nat, maxDepth: nat, visited0: set<string>, visited1: set<string>)
    requires LinksFollowed(site, url, depth, maxDepth, visited0) && visited0 <= visited1
    ensures LinksFollowed(site, url, depth, maxDepth, visited1)
  {
  }

  lemma {:induction false} AllFollowedGrows(site: Site, trace: seq<string>, levels: seq<Level>, from: int,
                                           visited0: set<string>, visited1: set<string>)
    requires |levels| == |trace| && AllFollowed(site, trace, levels, from, visited0) && visited0 <= visited1
    ensures AllFollowed(site, trace, levels, from, visited1)
  {
    forall j | from <= j < |trace| && 0 <= j
      ensures LinksFollowed(site, trace[j], levels[j].depth, levels[j].limit, visited1)
    {
      FollowedMonotone(site, trace[j], levels[j].depth, levels[j].limit, visited0, visited1);
    }
  }

  lemma AllFollowedAppend(site: Site, trace: seq<string>, levels: seq<Level>, child: seq<string>, childLevels: seq<Level>,
                          from: int, visited: set<string>)
    requires |levels| == |trace| && |childLevels| == |child|
    requires AllFollowed(site, trace, levels, from, visited) && AllFollowed(site, child, childLevels, 0, visited)
    ensures AllFollowed(site, trace + child, levels + childLevels, from, visited)
  {
    var t, d := trace + child, levels + childLevels;
    forall j | from <= j < |t| && 0 <= j ensures LinksFollowed(site, t[j], d[j].depth, d[j].limit, visited) {
      if j >= |trace| {
        assert t[j] == child[j - |trace|] && d[j] == childLevels[j - |trace|];
      }
    }
  }

  /** Following one more link keeps the earlier ones followed. */
  lemma FollowedStep(links: seq<string>, i: int, depth: nat, maxDepth: nat, visited0: set<string>, visited1: set<string>)
    requires 0 <= i < |links| && Followed(links, i, depth, maxDepth, visited0) && visited0 <= visited1
    requires IsValidUrl(links[i]) && depth + 1 <= ChildMaxDepth(links[i], maxDepth) ==> links[i] in visited1
    ensures Followed(links, i + 1, depth, maxDepth, visited1)
  {
  }

  /** The state of a crawl of `url` partway through its links: the pages
      visited so far start with `url` at its level, were each found from an
      earlier one, are all valid, had their own links followed (all but
      `url`, whose loop is under way), and account for the whole change of
      state. */
  ghost predicate Progress(site: Site, url: string, depth: nat, maxDepth: nat,
                           visited0: set<string>, visited1: set<string>,
                           history0: seq<string>, history1: seq<string>,
                           files0: map<string, seq<string>>, files1: map<string, seq<string>>,
                           trace: seq<string>, levels: seq<Level>) {
    && trace != [] && trace[0] == url
    && Discovered(site, trace, levels, depth, Max(maxDepth, ImportantMaxDepth)) && levels[0] == Level(depth, maxDepth)
    && CrawlEffect(site, visited0, visited1, history0, history1, files0, files1, trace)
    && (forall u :: u in trace ==> IsValidUrl(u))
    && AllFollowed(site, trace, levels, 1, visited1)
  }

  /** Appending the crawl of one link of `url` keeps the progress. */
  lemma ExtendProgress(site: Site, url: string, depth: nat, maxDepth: nat,
                       visited0: set<string>, visited1: set<string>, visited2: set<string>,
                       history0: seq<string>, history1: seq<string>, history2: seq<string>,
                       files0: map<string, seq<string>>, files1: map<string, seq<string>>, files2: map<string, seq<string>>,
                       trace: seq<string>, levels: seq<Level>, child: seq<string>, childLevels: seq<Level>)
    requires Progress(site, url, depth, maxDepth, visited0, visited1, history0, history1, files0, files1, trace, levels)
    requires CrawlEffect(site, visited1, visited2, history1, history2, files1, files2, child)
    requires Discovered(site, child, childLevels, depth + 1, Max(maxDepth, ImportantMaxDepth))
    requires child != [] ==> LinksTo(site, url, child[0]) && childLevels[0] == Level(depth + 1, ChildMaxDepth(child[0], maxDepth))
    requires forall u :: u in child ==> IsValidUrl(u)
    requires |childLevels| == |child| && AllFollowed(site, child, childLevels, 0, visited2)
    ensures Progress(site, url, depth, maxDepth, visited0, visited2, history0, history2, files0, files2,
                     trace + child, levels + childLevels)
  {
    CrawlEffectCompose(site, visited0, visited1, visited2, history0, history1, history2,
                       files0, files1, files2, trace, child);
    assert visited1 <= visited2;
    AllFollowedGrows(site, trace, levels, 1, visited1, visited2);
    AllFollowedAppend(site, trace, levels, child, childLevels, 1, visited2);
    if child != [] {
      DiscoveredAppend(site, trace, levels, child, childLevels, depth, Max(maxDepth, ImportantMaxDepth));
    } else {
      assert trace + child == trace && levels + childLevels == levels;
    }
  }

  ghost function Elems<T>(s: seq<T>): set<T> {
    set x | x in s
  }

  /** The pages `crawl(url, depth, max_depth)` visits, in order, when
      `visited` holds the URLs visited before it starts: nothing for a
      visited, too deep or invalid URL, otherwise the URL and then the
      crawls of its links, in link order. */
  ghost function CrawlTrace(site: Site, url: string, depth: nat, maxDepth: nat, visited: set<string>): seq<string>
    decreases Max(maxDepth, ImportantMaxDepth) + 1 - depth, 1, 0, 0
  {
    if url in visited || depth > maxDepth || !IsValidUrl(url) then []
    else if site.links(url).None? then [url]
    else [url] + LinksTrace(site, site.links(url).value, 0, depth, maxDepth, visited + {url})
  }

  /** The pages visited by the loop of `crawl` over `links[i..]`: each
      valid link not yet visited is crawled one level deeper with its own
      limit, and the pages it visits count as visited for the next link. */
  ghost function LinksTrace(site: Site, links: seq<string>, i: nat, depth: nat, maxDepth: nat, visited: set<string>): seq<string>
    requires i <= |links| && depth <= maxDepth
    decreases Max(maxDepth, ImportantMaxDepth) + 1 - depth, 0, |links| - i, 1
  {
    if i == |links| then []
    else
      var child := ChildTrace(site, links[i], depth, maxDepth, visited);
      child + LinksTrace(site, links, i + 1, depth, maxDepth, visited + Elems(child))
  }

  /** What one link of a page crawled at `depth` with limit `maxDepth`
      contributes: its crawl when it is valid and not yet visited. */
  ghost function ChildTrace(site: Site, link: string, depth: nat, maxDepth: nat, visited: set<string>): seq<string>
    requires depth <= maxDepth
    decreases Max(maxDepth, ImportantMaxDepth) + 1 - depth, 0, 0, 0
  {
    if IsValidUrl(link) && link !in visited
    then CrawlTrace(site, link, depth + 1, ChildMaxDepth(link, maxDepth), visited)
    else []
  }

  lemma ChildTraceCases(site: Site, link: string, depth: nat, maxDepth: nat, visited: set<string>)
    requires depth <= maxDepth
    ensures IsValidUrl(link) && link !in visited ==>
              ChildTrace(site, link, depth, maxDepth, visited) ==
              CrawlTrace(site, link, depth + 1, ChildMaxDepth(link, maxDepth), visited)
    ensures !(IsValidUrl(link) && link !in visited) ==> ChildTrace(site, link, depth, maxDepth, visited) == []
  {
  }

  lemma CrawlTraceSkip(site: Site, url: string, depth: nat, maxDepth: nat, visited: set<string>)
    requires url in visited || depth > maxDepth || !IsValidUrl(url)
    ensures CrawlTrace(site, url, depth, maxDepth, visited) == []
  {
  }

  lemma CrawlTraceVisit(site: Site, url: string, depth: nat, maxDepth: nat, visited: set<string>)
    requires !(url in visited || depth > maxDepth || !IsValidUrl(url))
    ensures site.links(url).None? ==> CrawlTrace(site, url, depth, maxDepth, visited) == [url]
    ensures site.links(url).Some? ==>
              CrawlTrace(site, url, depth, maxDepth, visited) ==
              [url] + LinksTrace(site, site.links(url).value, 0, depth, maxDepth, visited + {url})
  {
  }

  /** One step of the link loop: link `i` contributes `child`, and the
      rest of the loop runs with `child` visited too. */
  lemma LinksTraceStep(site: Site, links: seq<string>, i: nat, depth: nat, maxDepth: nat, visited: set<string>,
                       child: seq<string>, visited': set<string>, trace: seq<string>, whole: seq<string>)
    requires i < |links| && depth <= maxDepth
    requires trace + LinksTrace(site, links, i, depth, maxDepth, visited) == whole
    requires child == ChildTrace(site, links[i], depth, maxDepth, visited)
    requires visited' == visited + Elems(child)
    ensures (trace + child) + LinksTrace(site, links, i + 1, depth, maxDepth, visited') == whole
  {
    assert trace + (child + LinksTrace(site, links, i + 1, depth, maxDepth, visited')) ==
           (trace + child) + LinksTrace(site, links, i + 1, depth, maxDepth, visited');
  }

  /** The loop of `crawl` after the crawl of link `i` (the state going
      from `visited1` to `visited2`): progress, the followed links and the
      reference trace all advance by one link. */
  lemma ChildStep(site: Site, url: string, depth: nat, maxDepth: nat, links: seq<string>, i: nat,
                  visited0: set<string>, visited1: set<string>, visited2: set<string>,
                  history0: seq<string>, history1: seq<string>, history2: seq<string>,
                  files0: map<string, seq<string>>, files1: map<string, seq<string>>, files2: map<string, seq<string>>,
                  trace: seq<string>, levels: seq<Level>, child: seq<string>, childLevels: seq<Level>, whole: seq<string>)
    requires depth <= maxDepth && i < |links| && site.links(url) == Some(links)
    requires Progress(site, url, depth, maxDepth, visited0, visited1, history0, history1, files0, files1, trace, levels)
    requires Followed(links, i, depth, maxDepth, visited1)
    requires trace + LinksTrace(site, links, i, depth, maxDepth, visited1) == whole
    requires IsValidUrl(links[i]) && links[i] !in visited1
    requires Discovered(site, child, childLevels, depth + 1, Max(ChildMaxDepth(links[i], maxDepth), ImportantMaxDepth))
    requires CrawlEffect(site, visited1, visited2, history1, history2, files1, files2, child)
    requires forall u :: u in child ==> IsValidUrl(u)
    requires child == CrawlTrace(site, links[i], depth + 1, ChildMaxDepth(links[i], maxDepth), visited1)
    requires AllFollowed(site, child, childLevels, 0, visited2)
    requires depth + 1 <= ChildMaxDepth(links[i], maxDepth) ==> links[i] in visited2
    requires depth + 1 > ChildMaxDepth(links[i], maxDepth) ==> child == []
    requires depth + 1 <= ChildMaxDepth(links[i], maxDepth) ==>
               child != [] && child[0] == links[i] && childLevels[0] == Level(depth + 1, ChildMaxDepth(links[i], maxDepth))
    ensures Progress(site, url, depth, maxDepth, visited0, visited2, history0, history2, files0, files2,
                     trace + child, levels + childLevels)
    ensures Followed(links, i + 1, depth, maxDepth, visited2)
    ensures (trace + child) + LinksTrace(site, links, i + 1, depth, maxDepth, visited2) == whole
  {
    ExtendProgress(site, url, depth, maxDepth, visited0, visited1, visited2,
                   history0, history1, history2, files0, files1, files2, trace, levels, child, childLevels);
    assert visited2 == visited1 + Elems(child);
    ChildTraceCases(site, links[i], depth, maxDepth, visited1);
    LinksTraceStep(site, links, i, depth, maxDepth, visited1, child, visited2, trace, whole);
    FollowedStep(links, i, depth, maxDepth, visited1, visited2);
  }

  class Crawler {
    /** The URLs visited in this process, filled by `load_history` and `crawl`. */
    var visited: set<string>
    /** The lines of the history file (a missing file has none). */
    var history: seq<string>
    /** The page files, by the URL they were scraped from. */
    var files: map<string, seq<string>>

    /** A fresh process: nothing visited yet, with the files a previous run
        left behind. */
    constructor (savedHistory: seq<string>, savedFiles: map<string, seq<string>>)
      ensures visited == {} && history == savedHistory && files == savedFiles
    {
      visited := {};
      history := savedHistory;
      files := savedFiles;
    }

    /** `load_history`: adds every stripped history line to `visited` and
        returns how many URLs are now visited. */
    method LoadHistory() returns (count: nat)
      modifies this
      ensures forall u :: u in visited <==> u in old(visited) || u in StrippedLines(history)
      ensures history == old(history) && files == old(files)
      ensures count == |visited|
    {
      var i := 0;
      while i < |history|
        invariant 0 <= i <= |history|
        invariant forall u :: u in visited <==> u in old(visited) || u in StrippedLines(history[..i])
        invariant history == old(history) && files == old(files)
      {
        StrippedLinesSnoc(history, i);
        visited := visited + {Strip(history[i])};
        i := i + 1;
      }
      assert history[..i] == history;
      count := |visited|;
    }

    /** The first steps of `crawl` for a page not yet visited: mark it
        visited, append it to the history, and scrape it. */
    method Visit(url: string, site: Site)
      requires url !in visited
      modifies this
      ensures CrawlEffect(site, old(visited), visited, old(history), history, old(files), files, [url])
    {
      visited := visited + {url};
      history := history + [HistoryLine(url)];
      var outcome, _ := ScrapePage(url in files, site.page(url));
      if outcome.Saved? {
        files := files[url := outcome.texts];
      }
      assert HistoryLines([url]) == [HistoryLine(url)];
    }

    /** `crawl(url, depth, max_depth)` over `site`. The ghost results are the
        pages visited, in order, and the level of each. */
    method Crawl(url: string, depth: nat, maxDepth: nat, site: Site) returns (ghost trace: seq<string>, ghost levels: seq<Level>)
      modifies this
      decreases Max(maxDepth, ImportantMaxDepth) + 1 - depth, 4
      ensures Discovered(site, trace, levels, depth, Max(maxDepth, ImportantMaxDepth))
      ensures CrawlEffect(site, old(visited), visited, old(history), history, old(files), files, trace)
      ensures forall u :: u in trace ==> IsValidUrl(u)
      ensures trace == CrawlTrace(site, url, depth, maxDepth, old(visited))
      ensures AllFollowed(site, trace, levels, 0, visited)
      ensures IsValidUrl(url) && depth <= maxDepth ==> url in visited
      ensures url in old(visited) || depth > maxDepth || !IsValidUrl(url) ==>
                trace == [] && visited == old(visited) && history == old(history) && files == old(files)
      ensures !(url in old(visited) || depth > maxDepth || !IsValidUrl(url)) ==>
                trace != [] && trace[0] == url && levels[0] == Level(depth, maxDepth) &&
                LinksFollowed(site, url, depth, maxDepth, visited)
    {
      if url in visited || depth > maxDepth || !IsValidUrl(url) {
        CrawlTraceSkip(site, url, depth, maxDepth, visited);
        assert HistoryLines([]) == [];
        return [], [];
      }
      trace, levels := CrawlPage(url, depth, maxDepth, site);
    }

    /** `crawl` past its guard: the page is visited, scraped, and its links
        followed. */
    method CrawlPage(url: string, depth: nat, maxDepth: nat, site: Site) returns (ghost trace: seq<string>, ghost levels: seq<Level>)
      requires url !in visited && depth <= maxDepth && IsValidUrl(url)
      modifies this
      decreases Max(maxDepth, ImportantMaxDepth) + 1 - depth, 3
      ensures Discovered(site, trace, levels, depth, Max(maxDepth, ImportantMaxDepth))
      ensures CrawlEffect(site, old(visited), visited, old(history), history, old(files), files, trace)
      ensures forall u :: u in trace ==> IsValidUrl(u)
      ensures trace == CrawlTrace(site, url, depth, maxDepth, old(visited))
      ensures AllFollowed(site, trace, levels, 0, visited)
      ensures url in visited
      ensures trace != [] && trace[0] == url && levels[0] == Level(depth, maxDepth)
      ensures LinksFollowed(site, url, depth, maxDepth, visited)
    {
      ghost var visited0, history0, files0 := visited, history, files;
      CrawlTraceVisit(site, url, depth, maxDepth, visited);
      Visit(url, site);
      assert visited == visited0 + {url};
      trace, levels := [url], [Level(depth, maxDepth)];
      assert Discovered(site, trace, levels, depth, Max(maxDepth, ImportantMaxDepth));
      var links := site.links(url);
      if links.Some? {
        trace, levels := FollowLinks(url, depth, maxDepth, site, links.value, visited0, history0, files0, trace, levels);
      } else {
        assert LinksFollowed(site, url, depth, maxDepth, visited);
      }
    }

    /** The loop of `crawl` over the links of `url`: each valid link not yet
        visited is crawled one level deeper, with its own depth limit. */
    method FollowLinks(url: string, depth: nat, maxDepth: nat, site: Site, links: seq<string>,
                       ghost visited0: set<string>, ghost history0: seq<string>, ghost files0: map<string, seq<string>>,
                       ghost trace0: seq<string>, ghost levels0: seq<Level>)
      returns (ghost trace: seq<string>, ghost levels: seq<Level>)
      requires depth <= maxDepth && site.links(url) == Some(links)
      requires Progress(site, url, depth, maxDepth, visited0, visited, history0, history, files0, files, trace0, levels0)
      modifies this
      decreases Max(maxDepth, ImportantMaxDepth) + 1 - depth, 2
      ensures Progress(site, url, depth, maxDepth, visited0, visited, history0, history, files0, files, trace, levels)
      ensures Followed(links, |links|, depth, maxDepth, visited)
      ensures AllFollowed(site, trace, levels, 0, visited)
      ensures trace == trace0 + LinksTrace(site, links, 0, depth, maxDepth, old(visited))
    {
      trace, levels := trace0, levels0;
      ghost var whole := trace0 + LinksTrace(site, links, 0, depth, maxDepth, visited);
      var i := 0;
      while i < |links|
        invariant 0 <= i <= |links|
        invariant trace + LinksTrace(site, links, i, depth, maxDepth, visited) == whole
        invariant Progress(site, url, depth, maxDepth, visited0, visited, history0, history, files0, files, trace, levels)
        invariant Followed(links, i, depth, maxDepth, visited)
      {
        trace, levels := FollowLink(url, depth, maxDepth, site, links, i, visited0, history0, files0, trace, levels, whole);
        i := i + 1;
      }
      assert LinksFollowed(site, trace[0], levels[0].depth, levels[0].limit, visited);
      assert trace + [] == trace;
    }

    /** One pass of that loop, for link `i`: crawled one level deeper with
        its own limit when it is valid and not yet visited. */
    method FollowLink(url: string, depth: nat, maxDepth: nat, site: Site, links: seq<string>, i: nat,
                      ghost visited0: set<string>, ghost history0: seq<string>, ghost files0: map<string, seq<string>>,
                      ghost trace0: seq<string>, ghost levels0: seq<Level>, ghost whole: seq<string>)
      returns (ghost trace: seq<string>, ghost levels: seq<Level>)
      requires depth <= maxDepth && i < |links|
      requires Progress(site, url, depth, maxDepth, visited0, visited, history0, history, files0, files, trace0, levels0)
      requires site.links(url) == Some(links) && Followed(links, i, depth, maxDepth, visited)
      requires trace0 + LinksTrace(site, links, i, depth, maxDepth, visited) == whole
      modifies this
      decreases Max(maxDepth, ImportantMaxDepth) + 1 - depth, 1
      ensures Progress(site, url, depth, maxDepth, visited0, visited, history0, history, files0, files, trace, levels)
      ensures Followed(links, i + 1, depth, maxDepth, visited)
      ensures trace + LinksTrace(site, links, i + 1, depth, maxDepth, visited) == whole
    {
      var fullUrl := links[i];
      var nextMaxDepth := ChildMaxDepth(fullUrl, maxDepth);
      trace, levels := trace0, levels0;
      if IsValidUrl(fullUrl) && fullUrl !in visited {
        trace, levels := CrawlChild(url, depth, maxDepth, site, links, i, visited0, history0, files0, trace, levels, whole);
      } else {
        ChildTraceCases(site, fullUrl, depth, maxDepth, visited);
        assert visited + Elems([]) == visited;
        LinksTraceStep(site, links, i, depth, maxDepth, visited, [], visited, trace, whole);
        assert trace + [] == trace;
        FollowedStep(links, i, depth, maxDepth, visited, visited);
      }
    }

    /** The crawl of link `i`, valid and not yet visited, one level deeper
        with its own limit. */
    method CrawlChild(url: string, depth: nat, maxDepth: nat, site: Site, links: seq<string>, i: nat,
                      ghost visited0: set<string>, ghost history0: seq<string>, ghost files0: map<string, seq<string>>,
                      ghost trace0: seq<string>, ghost levels0: seq<Level>, ghost whole: seq<string>)
      returns (ghost trace: seq<string>, ghost levels: seq<Level>)
      requires depth <= maxDepth && i < |links| && IsValidUrl(links[i]) && links[i] !in visited
      requires Progress(site, url, depth, maxDepth, visited0, visited, history0, history, files0, files, trace0, levels0)
      requires site.links(url) == Some(links) && Followed(links, i, depth, maxDepth, visited)
      requires trace0 + LinksTrace(site, links, i, depth, maxDepth, visited) == whole
      modifies this
      decreases Max(maxDepth, ImportantMaxDepth) + 1 - depth, 0
      ensures Progress(site, url, depth, maxDepth, visited0, visited, history0, history, files0, files, trace, levels)
      ensures Followed(links, i + 1, depth, maxDepth, visited)
      ensures trace + LinksTrace(site, links, i + 1, depth, maxDepth, visited) == whole
    {
      ghost var child, childLevels := Crawl(links[i], depth + 1, ChildMaxDepth(links[i], maxDepth), site);
      ChildStep(site, url, depth, maxDepth, links, i, visited0, old(visited), visited,
                history0, old(history), history, files0, old(files), files, trace0, levels0, child, childLevels, whole);
      trace, levels := trace0 + child, levels0 + childLevels;
    }

    /** `mainscrapping`: load the history, then crawl from the start page
        with depth limit 2; returns how many URLs are visited. */
    method MainScrapping(site: Site) returns (visitedCount: nat, ghost trace: seq<string>, ghost levels: seq<Level>)
      modifies this
      ensures Discovered(site, trace, levels, 0, ImportantMaxDepth)
      ensures forall u :: u in trace ==> IsValidUrl(u)
      ensures AllFollowed(site, trace, levels, 0, visited)
      ensures trace == CrawlTrace(site, StartUrl, 0, StartMaxDepth, old(visited) + Elems(StrippedLines(old(history))))
      ensures forall u :: u in visited <==> u in old(visited) || u in StrippedLines(old(history)) || u in trace
      ensures history == old(history) + HistoryLines(trace)
      ensures ScrapedFiles(site, old(files), files, trace)
      ensures StartUrl in old(visited) || StartUrl in StrippedLines(old(history)) ==> trace == []
      ensures StartUrl !in old(visited) && StartUrl !in StrippedLines(old(history)) ==>
                trace != [] && trace[0] == StartUrl && levels[0] == Level(0, StartMaxDepth) &&
                LinksFollowed(site, StartUrl, 0, StartMaxDepth, visited)
      ensures visitedCount == |visited|
    {
      var initialCount := LoadHistory();
      assert visited == old(visited) + Elems(StrippedLines(old(history)));
      StartUrlIsValid();
      trace, levels := Crawl(StartUrl, 0, StartMaxDepth, site);
      visitedCount := |visited|;
    }
  }

  const StartUrl: string := "https://smup.unpad.ac.id/"
}
