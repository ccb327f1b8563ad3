/** `search_links` and the `SITES` table: how a query becomes a search URL,
    and how the anchors matched on a result page become candidate links,
    one rule per built-in site. The HTTP request, the status check and the
    HTML selectors are a parameter: `fetch` gives, for a search URL, the
    anchors that site's selector matches, or `None` when the request fails
    or does not answer 200. */
module Extract {
  import opened Wrappers
  import opened Text

  /** An anchor element matched by a site's selector, reduced to its href. */
  datatype Anchor = Anchor(href: Option<string>)

  /** A `SITES` entry: a key and the URL template, whose single `{}` slot
      comes last, so the template is `base + "{}"`. */
  datatype Site = Site(key: string, base: string)

  /** `results[:5]`, the cap on examined anchors and on Medium's links. */
  const MaxResults: nat := 5

  const RealPython: string := "realpython"
  const MediumKey: string := "medium"
  const StackOverflow: string := "stackoverflow"

  const RealPythonOrigin: string := "https://realpython.com"
  const StackOverflowOrigin: string := "https://stackoverflow.com"

  /** `SITES` as the module defines it, in insertion order. */
  const BuiltinSites: seq<Site> := [
    Site(RealPython, "https://realpython.com/search/?q="),
    Site(MediumKey, "https://medium.com/search?q="),
    Site(StackOverflow, "https://stackoverflow.com/search?q=")
  ]

  // ---------------------------------------------------------------------
  // Query encoding and the site table

  /** The literal text of a `str.format` template in which `{{` and `}}`
      stand for single braces. Any other brace is `None`: in a `SITES`
      template, which always ends in the one automatic field `{}` and is
      formatted with one argument, every other use of a brace raises (a
      lone `}`, an unclosed `{`, a named field, a numbered field mixed with
      automatic numbering, or a second automatic field). */
  function Unescape(t: string): (r: Option<string>)
    ensures r.Some? ==> |r.value| <= |t|
    ensures NoBraces(t) ==> r == Some(t)
    decreases |t|
  {
    if t == [] then Some([])
    else if t[0] == '{' || t[0] == '}' then
      if |t| >= 2 && t[1] == t[0] then Prepend([t[0]], Unescape(t[2..])) else None
    else
      assert NoBraces(t) ==> NoBraces(t[1..]);
      assert [t[0]] + t[1..] == t;
      Prepend([t[0]], Unescape(t[1..]))
  }

  function Prepend(a: string, r: Option<string>): Option<string> {
    match r
    case None => None
    case Some(s) => Some(a + s)
  }

  /** Every brace doubled, so that `format` gives `s` back literally. */
  function Escape(s: string): (t: string)
    ensures |t| >= |s|
  {
    if s == [] then []
    else if s[0] == '{' || s[0] == '}' then [s[0], s[0]] + Escape(s[1..])
    else [s[0]] + Escape(s[1..])
  }

  predicate NoBraces(s: string) {
    forall i :: 0 <= i < |s| ==> s[i] != '{' && s[i] != '}'
  }

  /** `SITES[site].format(query.replace(" ", "+"))`, whose template is
      `base + "{}"`: `None` where `format` raises. */
  function SearchUrl(site: Site, query: string): (r: Option<string>)
    ensures r.Some? <==> Unescape(site.base).Some?
    ensures NoBraces(site.base) ==> r == Some(site.base + ReplaceChar(query, ' ', '+'))
  {
    match Unescape(site.base)
    case None => None
    case Some(prefix) => Some(prefix + ReplaceChar(query, ' ', '+'))
  }

  function Keys(sites: seq<Site>): seq<string> {
    seq(|sites|, i requires 0 <= i < |sites| => sites[i].key)
  }

  /** `SITES[key] = template`: dict assignment keeps the position of an
      existing key and appends a new one. */
  function Put(sites: seq<Site>, key: string, base: string): (r: seq<Site>)
    ensures |r| == if key in Keys(sites) then |sites| else |sites| + 1
    ensures forall i :: 0 <= i < |sites| ==> r[i].key == sites[i].key
    ensures forall i :: 0 <= i < |sites| && sites[i].key != key ==> r[i] == sites[i]
    ensures forall i :: 0 <= i < |r| ==> r[i] == Site(key, base) || (i < |sites| && r[i] == sites[i])
    ensures exists i :: 0 <= i < |r| && r[i] == Site(key, base)
  {
    if key in Keys(sites) then
      sites[KeyIndex(sites, key) := Site(key, base)]
    else
      var r := sites + [Site(key, base)];
      assert r[|sites|] == Site(key, base);
      r
  }

  /** `SITES[site_url] = site_url + "?q={}"`: the URL goes into the template
      unescaped. */
  function Register(sites: seq<Site>, url: string): (r: seq<Site>)
    ensures |r| == if url in Keys(sites) then |sites| else |sites| + 1
    ensures forall i :: 0 <= i < |sites| && sites[i].key != url ==> r[i] == sites[i]
    ensures exists i :: 0 <= i < |r| && r[i] == Site(url, url + "?q=")
  {
    Put(sites, url, url + "?q=")
  }

  /** The registration evidently intended: braces in the URL are doubled, so
      that `format` gives the URL back literally. */
  function RegisterEscaped(sites: seq<Site>, url: string): seq<Site> {
    Put(sites, url, Escape(url) + "?q=")
  }

  predicate UrlChar(c: char) {
    ('a' <= c <= 'z') || ('A' <= c <= 'Z') || ('0' <= c <= '9') || c == '_' || c == '.' || c == '-'
  }

  /** `re.match(r'https?://[\w.-]+', site_url)` of `/addsite`, with ASCII
      word characters: the scheme and one more character decide, whatever
      follows. */
  predicate AddSiteAccepts(url: string): (ok: bool)
    ensures ok ==> |url| >= 8 && url[..4] == "http"
  {
    (|url| > 7 && url[..7] == "http://" && UrlChar(url[7]))
    || (|url| > 8 && url[..8] == "https://" && UrlChar(url[8]))
  }

  /** The check is a prefix match: whatever follows an accepted URL is
      accepted too. */
  lemma AddSiteAcceptsSuffix(url: string, rest: string)
    requires AddSiteAccepts(url)
    ensures AddSiteAccepts(url + rest)
  {
    var s := url + rest;
    if |url| > 7 && url[..7] == "http://" && UrlChar(url[7]) {
      assert s[..7] == url[..7] && s[7] == url[7];
    } else {
      assert s[..8] == url[..8] && s[8] == url[8];
    }
  }

  /** The position of the first entry with key `url`. */
  function KeyIndex(sites: seq<Site>, url: string): (i: nat)
    requires url in Keys(sites)
    ensures i < |sites| && sites[i].key == url
    ensures forall k :: 0 <= k < i ==> sites[k].key != url
  {
    if sites[0].key == url then 0
    else
      assert Keys(sites[1..]) == Keys(sites)[1..];
      1 + KeyIndex(sites[1..], url)
  }

  // ---------------------------------------------------------------------
  // Extraction rules

  /** `if href:` — the attribute is present and not empty. */
  predicate HasHref(a: Anchor) {
    a.href.Some? && a.href.value != ""
  }

  /** The present, non-empty hrefs of `anchors`, in anchor order. */
  function Hrefs(anchors: seq<Anchor>): (hs: seq<string>)
    ensures |hs| <= |anchors|
    ensures forall i :: 0 <= i < |hs| ==> hs[i] != ""
  {
    if anchors == [] then []
    else
      var last := anchors[|anchors| - 1];
      Hrefs(anchors[..|anchors| - 1]) + (if HasHref(last) then [last.href.value] else [])
  }

  /** `origin + str(href)` for each href. */
  function WithOrigin(origin: string, hrefs: seq<string>): seq<string> {
    seq(|hrefs|, i requires 0 <= i < |hrefs| => origin + hrefs[i])
  }

  /** The rule for realpython and stackoverflow, as a value. */
  function PrefixRule(origin: string, results: seq<Anchor>): seq<string> {
    WithOrigin(origin, Hrefs(Take(results, MaxResults)))
  }

  /** The append loop for realpython and stackoverflow: the first five
      matched anchors, skipping those without an href, each prefixed with
      the site's origin. */
  method PrefixedLinks(origin: string, results: seq<Anchor>) returns (links: seq<string>)
    ensures links == PrefixRule(origin, results)
  {
    links := [];
    var first := Take(results, MaxResults);
    for i := 0 to |first|
      invariant links == WithOrigin(origin, Hrefs(first[..i]))
    {
      assert first[..i + 1][..i] == first[..i];
      var href := first[i].href;
      if href.Some? && href.value != "" {
        links := links + [origin + href.value];
      }
    }
    assert first[..|first|] == first;
  }

  /** `str(href).split("?")[0]`: the href up to its first `?`. */
  function CutAtQuery(h: string): (r: string)
    ensures |r| <= |h| && r == h[..|r|]
    ensures forall i :: 0 <= i < |r| ==> r[i] != '?'
    ensures |r| < |h| ==> h[|r|] == '?'
  {
    if h == [] || h[0] == '?' then [] else [h[0]] + CutAtQuery(h[1..])
  }

  /** `list(dict.fromkeys(xs))`: each value once, at its first occurrence. */
  function Dedupe(xs: seq<string>): (r: seq<string>)
    ensures forall x :: x in r <==> x in xs
    ensures forall i, j :: 0 <= i < j < |r| ==> r[i] != r[j]
  {
    if xs == [] then []
    else
      var x := xs[|xs| - 1];
      if x in xs[..|xs| - 1] then Dedupe(xs[..|xs| - 1]) else Dedupe(xs[..|xs| - 1]) + [x]
  }

  /** The index of the first occurrence of `x` in `xs`. */
  function FirstIndex(xs: seq<string>, x: string): (k: nat)
    requires x in xs
    ensures k < |xs| && xs[k] == x && x !in xs[..k]
  {
    if xs[0] == x then 0
    else
      assert x in xs[1..];
      var k := FirstIndex(xs[1..], x);
      assert xs[..k + 1] == [xs[0]] + xs[1..][..k];
      k + 1
  }

  /** `[str(a.get("href", "")).split("?")[0] for a in results if a.get("href")]`. */
  function CutHrefs(results: seq<Anchor>): seq<string> {
    var hs := Hrefs(results);
    seq(|hs|, i requires 0 <= i < |hs| => CutAtQuery(hs[i]))
  }

  /** The rule for Medium, over every matched anchor. */
  function MediumLinks(results: seq<Anchor>): seq<string> {
    Take(Dedupe(CutHrefs(results)), MaxResults)
  }

  /** The links `search_links` returns for a site key and its matched anchors. */
  function SiteLinks(site: string, results: seq<Anchor>): seq<string> {
    if site == RealPython then PrefixRule(RealPythonOrigin, results)
    else if site == MediumKey then MediumLinks(results)
    else if site == StackOverflow then PrefixRule(StackOverflowOrigin, results)
    else []
  }

  /** The per-site branch of `search_links`. */
  method ExtractLinks(site: string, results: seq<Anchor>) returns (links: seq<string>)
    ensures links == SiteLinks(site, results)
  {
    if site == RealPython {
      links := PrefixedLinks(RealPythonOrigin, results);
    } else if site == MediumKey {
      links := MediumLinks(results);
    } else if site == StackOverflow {
      links := PrefixedLinks(StackOverflowOrigin, results);
    } else {
      links := [];
    }
  }

  /** What `search_links(site, query)` returns, given the fetched anchors;
      `None` where building the search URL raises, which happens before the
      `try` and so escapes `search_links`. */
  function SearchResult(site: Site, query: string, fetch: string -> Option<seq<Anchor>>): (r: Option<seq<string>>)
    ensures r.None? <==> Unescape(site.base).None?
    ensures site.key != RealPython && site.key != MediumKey && site.key != StackOverflow ==> r.None? || r == Some([])
  {
    match SearchUrl(site, query)
    case None => None
    case Some(url) =>
      match fetch(url)
      case None => Some([])
      case Some(results) => Some(SiteLinks(site.key, results))
  }

  /** `search_links`: a failed or non-200 request gives no links. */
  method SearchLinks(site: Site, query: string, fetch: string -> Option<seq<Anchor>>)
    returns (links: Option<seq<string>>)
    ensures links == SearchResult(site, query, fetch)
  {
    var url := SearchUrl(site, query);
    if url.None? {
      return None;
    }
    var page := fetch(url.value);
    if page.None? {
      return Some([]);
    }
    var found := ExtractLinks(site.key, page.value);
    links := Some(found);
  }

  /** `asyncio.gather` over one `search_links` per `SITES` entry: the
      results in table order, or `None` when one of the calls raised. */
  function AllResults(sites: seq<Site>, query: string, fetch: string -> Option<seq<Anchor>>): Option<seq<seq<string>>> {
    if exists i :: 0 <= i < |sites| && SearchResult(sites[i], query, fetch).None? then None
    else Some(seq(|sites|, i requires 0 <= i < |sites| => SearchResult(sites[i], query, fetch).value))
  }

  /** The searches of `find_handler`, one per entry of `SITES`, in table
      order. */
  method SearchAll(sites: seq<Site>, query: string, fetch: string -> Option<seq<Anchor>>)
    returns (results: Option<seq<seq<string>>>)
    ensures results.None? <==> exists i :: 0 <= i < |sites| && SearchResult(sites[i], query, fetch).None?
    ensures results.Some? ==> (|results.value| == |sites|
              && forall i :: 0 <= i < |sites| ==> Some(results.value[i]) == SearchResult(sites[i], query, fetch))
    ensures results == AllResults(sites, query, fetch)
  {
    var found: seq<seq<string>> := [];
    var raised := false;
    for i := 0 to |sites|
      invariant |found| == i
      invariant raised <==> exists k :: 0 <= k < i && SearchResult(sites[k], query, fetch).None?
      invariant forall k :: 0 <= k < i && SearchResult(sites[k], query, fetch).Some?
                  ==> found[k] == SearchResult(sites[k], query, fetch).value
    {
      var links := SearchLinks(sites[i], query, fetch);
      if links.None? {
        raised := true;
        found := found + [[]];
      } else {
        found := found + [links.value];
      }
    }
    if raised {
      results := None;
    } else {
      results := Some(found);
      assert found == AllResults(sites, query, fetch).value;
    }
  }

  // ---------------------------------------------------------------------
  // Properties of the rules

  /** Hrefs keeps exactly the anchors with a non-empty href, in order. */
  lemma {:induction false} HrefsAllPresent(anchors: seq<Anchor>)
    requires forall i :: 0 <= i < |anchors| ==> HasHref(anchors[i])
    ensures |Hrefs(anchors)| == |anchors|
    ensures forall i :: 0 <= i < |anchors| ==> anchors[i].href == Some(Hrefs(anchors)[i])
  {
    if anchors != [] {
      HrefsAllPresent(anchors[..|anchors| - 1]);
    }
  }

  lemma {:induction false} HrefsNonePresent(anchors: seq<Anchor>)
    requires forall i :: 0 <= i < |anchors| ==> !HasHref(anchors[i])
    ensures Hrefs(anchors) == []
  {
    if anchors != [] {
      HrefsNonePresent(anchors[..|anchors| - 1]);
    }
  }

  /** realpython and stackoverflow: at most five links, each the origin
      followed by a non-empty href, and removing the origin gives back the
      hrefs of the first five anchors in order. */
  lemma PrefixRuleShape(origin: string, results: seq<Anchor>)
    ensures |PrefixRule(origin, results)| <= MaxResults
    ensures forall i :: 0 <= i < |PrefixRule(origin, results)| ==>
              |PrefixRule(origin, results)[i]| > |origin|
              && PrefixRule(origin, results)[i][..|origin|] == origin
    ensures seq(|PrefixRule(origin, results)|, i requires 0 <= i < |PrefixRule(origin, results)| =>
                  PrefixRule(origin, results)[i][|origin|..])
            == Hrefs(Take(results, MaxResults))
  {
    var hs := Hrefs(Take(results, MaxResults));
    var r := PrefixRule(origin, results);
    assert forall i :: 0 <= i < |r| ==> r[i] == origin + hs[i];
  }

  /** Dedupe keeps first-occurrence order. */
  lemma {:induction false} DedupeOrder(xs: seq<string>, i: nat, j: nat)
    requires i < j < |Dedupe(xs)|
    ensures FirstIndex(xs, Dedupe(xs)[i]) < FirstIndex(xs, Dedupe(xs)[j])
  {
    var init := xs[..|xs| - 1];
    var x := xs[|xs| - 1];
    var r := Dedupe(xs);
    FirstIndexOfInit(xs, r[i]);
    if x in init || j < |Dedupe(init)| {
      FirstIndexOfInit(xs, r[j]);
      DedupeOrder(init, i, j);
    } else {
      assert r[j] == x;
      assert r[i] in init;
      assert FirstIndex(xs, r[i]) < |init|;
    }
  }

  lemma FirstIndexOfInit(xs: seq<string>, y: string)
    requires xs != [] && y in xs[..|xs| - 1]
    ensures FirstIndex(xs, y) == FirstIndex(xs[..|xs| - 1], y)
  {
    var init := xs[..|xs| - 1];
    var a, b := FirstIndex(xs, y), FirstIndex(init, y);
    assert forall i :: 0 <= i < a ==> xs[..a][i] == xs[i];
    assert forall i :: 0 <= i < b ==> init[..b][i] == init[i];
    assert xs[b] == y;
  }

  /** Medium: at most five links, none with a `?`, no two equal, in the
      order their first anchors appear; every link is the cut of some
      matched href. */
  lemma MediumLinksShape(results: seq<Anchor>)
    ensures |MediumLinks(results)| <= MaxResults
    ensures forall i :: 0 <= i < |MediumLinks(results)| ==> '?' !in MediumLinks(results)[i]
    ensures forall i, j :: 0 <= i < j < |MediumLinks(results)| ==> MediumLinks(results)[i] != MediumLinks(results)[j]
    ensures forall l :: l in MediumLinks(results) ==> l in CutHrefs(results)
  {
    var cut := CutHrefs(results);
    var r := MediumLinks(results);
    assert r == Dedupe(cut)[..|r|];
    forall l | l in r
      ensures l in cut && '?' !in l
    {
      assert l in Dedupe(cut);
      var k :| 0 <= k < |cut| && cut[k] == l;
    }
    forall i | 0 <= i < |r|
      ensures '?' !in r[i]
    {
      assert r[i] in r;
    }
  }

  /** Any key without a rule, such as a site added by `/addsite`, gives no
      links whatever its page holds. */
  lemma UnknownSiteGivesNothing(site: string, results: seq<Anchor>)
    requires site != RealPython && site != MediumKey && site != StackOverflow
    ensures SiteLinks(site, results) == []
  {
  }

  /** The query is the argument of `format`, so its braces are harmless:
      whether the search URL can be built depends on the template alone.
      When it can, the URL is the template's literal text followed by the
      query with spaces turned into `+`; there are no spaces after the
      literal text, and for a query without `+` the encoding is undone by
      turning `+` back into spaces. */
  lemma SearchUrlEncoding(site: Site, query: string)
    ensures SearchUrl(site, query).Some? <==> Unescape(site.base).Some?
    ensures SearchUrl(site, query).Some? ==>
              var prefix := Unescape(site.base).value;
              var url := SearchUrl(site, query).value;
              |url| == |prefix| + |query| && url[..|prefix|] == prefix
              && (forall i :: |prefix| <= i < |url| ==> url[i] != ' ')
              && ((forall i :: 0 <= i < |query| ==> query[i] != '+') ==> ReplaceChar(url[|prefix|..], '+', ' ') == query)
  {
    if Unescape(site.base).Some? {
      var prefix := Unescape(site.base).value;
      var url := SearchUrl(site, query).value;
      assert url[|prefix|..] == ReplaceChar(query, ' ', '+');
      if forall i :: 0 <= i < |query| ==> query[i] != '+' {
        ReplaceCharRoundTrip(query, ' ', '+');
      }
    }
  }

  lemma PrependEmpty(r: Option<string>)
    ensures Prepend([], r) == r
  {
    if r.Some? {
      assert [] + r.value == r.value;
    }
  }

  lemma PrependPrepend(a: string, b: string, r: Option<string>)
    ensures Prepend(a, Prepend(b, r)) == Prepend(a + b, r)
  {
    if r.Some? {
      assert a + (b + r.value) == (a + b) + r.value;
    }
  }

  /** Text without braces is copied literally. */
  lemma {:induction false} UnescapePlainPrefix(a: string, b: string)
    requires NoBraces(a)
    ensures Unescape(a + b) == Prepend(a, Unescape(b))
    decreases |a|
  {
    if a == [] {
      assert a + b == b;
      PrependEmpty(Unescape(b));
    } else {
      assert (a + b)[1..] == a[1..] + b;
      UnescapePlainPrefix(a[1..], b);
      PrependPrepend([a[0]], a[1..], Unescape(b));
      assert [a[0]] + a[1..] == a;
    }
  }

  /** A doubled brace stands for one brace. */
  lemma UnescapeDoubled(c: char, rest: string)
    requires c == '{' || c == '}'
    ensures Unescape([c, c] + rest) == Prepend([c], Unescape(rest))
  {
    assert ([c, c] + rest)[2..] == rest;
  }

  /** Any other character is copied. */
  lemma UnescapeOther(c: char, rest: string)
    requires c != '{' && c != '}'
    ensures Unescape([c] + rest) == Prepend([c], Unescape(rest))
  {
    assert ([c] + rest)[1..] == rest;
  }

  /** Escaping works character by character: the escape of the first
      character, then the escape of the rest. */
  lemma EscapeStep(s: string, t: string)
    requires s != []
    ensures Unescape(Escape(s) + t) == Prepend([s[0]], Unescape(Escape(s[1..]) + t))
  {
    var rest := Escape(s[1..]) + t;
    var head := if s[0] == '{' || s[0] == '}' then [s[0], s[0]] else [s[0]];
    assert Escape(s) + t == head + rest by {
      assert Escape(s) == head + Escape(s[1..]);
      assert (head + Escape(s[1..])) + t == head + rest;
    }
    if s[0] == '{' || s[0] == '}' {
      UnescapeDoubled(s[0], rest);
    } else {
      UnescapeOther(s[0], rest);
    }
  }

  /** `format` gives an escaped text back literally. */
  lemma {:induction false} UnescapeEscape(s: string, t: string)
    ensures Unescape(Escape(s) + t) == Prepend(s, Unescape(t))
    decreases |s|
  {
    if s == [] {
      assert Escape(s) + t == t;
      PrependEmpty(Unescape(t));
    } else {
      EscapeStep(s, t);
      UnescapeEscape(s[1..], t);
      PrependPrepend([s[0]], s[1..], Unescape(t));
      assert [s[0]] + s[1..] == s;
    }
  }

  /** A template without braces formats to itself. */
  lemma PlainUnescape(s: string)
    requires NoBraces(s)
    ensures Unescape(s) == Some(s)
  {
    UnescapePlainPrefix(s, "");
    assert s + "" == s;
  }

  /** The built-in templates have no braces, so they format to
      themselves. */
  lemma BuiltinsFormat()
    ensures forall i :: 0 <= i < |BuiltinSites| ==> Unescape(BuiltinSites[i].base) == Some(BuiltinSites[i].base)
  {
    forall i | 0 <= i < |BuiltinSites|
      ensures Unescape(BuiltinSites[i].base) == Some(BuiltinSites[i].base)
    {
      BuiltinFormats(i);
    }
  }

  lemma BuiltinFormats(i: nat)
    requires i < |BuiltinSites|
    ensures Unescape(BuiltinSites[i].base) == Some(BuiltinSites[i].base)
  {
    BuiltinsPlain();
    PlainUnescape(BuiltinSites[i].base);
  }

  lemma BuiltinsPlain()
    ensures forall i :: 0 <= i < |BuiltinSites| ==> NoBraces(BuiltinSites[i].base)
  {
    RealPythonPlain();
    MediumPlain();
    StackOverflowPlain();
  }

  lemma RealPythonPlain()
    ensures NoBraces(BuiltinSites[0].base)
  {
    assert BuiltinSites[0].base == "https://realpython.com/search/?q=";
  }

  lemma MediumPlain()
    ensures NoBraces(BuiltinSites[1].base)
  {
    assert BuiltinSites[1].base == "https://medium.com/search?q=";
  }

  lemma StackOverflowPlain()
    ensures NoBraces(BuiltinSites[2].base)
  {
    assert BuiltinSites[2].base == "https://stackoverflow.com/search?q=";
  }

  /** A search over templates that all format never raises. */
  lemma FormattableNeverRaises(sites: seq<Site>, query: string, fetch: string -> Option<seq<Anchor>>)
    requires forall i :: 0 <= i < |sites| ==> Unescape(sites[i].base).Some?
    ensures AllResults(sites, query, fetch).Some?
  {
    forall i | 0 <= i < |sites|
      ensures SearchResult(sites[i], query, fetch).Some?
    {
      SearchUrlEncoding(sites[i], query);
    }
  }

  /** Hrefs is a filter: it distributes over concatenation. */
  lemma {:induction false} HrefsConcat(a: seq<Anchor>, b: seq<Anchor>)
    ensures Hrefs(a + b) == Hrefs(a) + Hrefs(b)
    decreases |b|
  {
    if b == [] {
      assert a + b == a;
    } else {
      var init := b[..|b| - 1];
      assert (a + b)[..|a + b| - 1] == a + init;
      assert (a + b)[|a + b| - 1] == b[|b| - 1];
      HrefsConcat(a, init);
    }
  }

  /** One anchor contributes its href exactly when it is present and
      non-empty. */
  lemma HrefsOne(x: Anchor)
    ensures Hrefs([x]) == if HasHref(x) then [x.href.value] else []
  {
    assert [x][..0] == [];
  }

  /** A site registered at runtime lands after the built-ins, in order. Its
      key has no extraction rule: its search gives no links when the URL
      can be formatted, and raises otherwise. */
  lemma RegisterAfterBuiltins(url: string, query: string, fetch: string -> Option<seq<Anchor>>)
    requires url != RealPython && url != MediumKey && url != StackOverflow
    ensures Register(BuiltinSites, url) == BuiltinSites + [Site(url, url + "?q=")]
    ensures forall results :: SiteLinks(url, results) == []
    ensures SearchResult(Site(url, url + "?q="), query, fetch)
            == if Unescape(url + "?q=").Some? then Some([]) else None
  {
    assert Keys(BuiltinSites) == [RealPython, MediumKey, StackOverflow];
  }

  /** `/addsite https://example.com/?a=}` passes the URL check, and from
      then on every search of `find_handler` raises, whatever the query:
      the lone `}` in the stored template makes `format` fail. */
  lemma BraceUrlBreaksSearch(query: string, fetch: string -> Option<seq<Anchor>>)
    ensures AddSiteAccepts("https://example.com/?a=}")
    ensures AllResults(Register(BuiltinSites, "https://example.com/?a=}"), query, fetch).None?
  {
    var url := "https://example.com/?a=}";
    assert url[..8] == "https://";
    BraceTemplateRejected();
    RegisterAfterBuiltins(url, query, fetch);
    var sites := Register(BuiltinSites, url);
    assert sites[3] == Site(url, url + "?q=");
  }

  /** The template stored for that URL has a lone `}`. */
  lemma BraceTemplateRejected()
    ensures Unescape("https://example.com/?a=}" + "?q=").None?
  {
    var plain := "https://example.com/?a=";
    assert "https://example.com/?a=}" + "?q=" == plain + "}?q=";
    assert NoBraces(plain);
    UnescapePlainPrefix(plain, "}?q=");
  }

  /** With the escaped template, every URL can be searched: the search URL
      is the URL itself, then `?q=`, then the encoded query. */
  lemma RegisterEscapedSearches(url: string, query: string)
    ensures SearchUrl(Site(url, Escape(url) + "?q="), query) == Some(url + "?q=" + ReplaceChar(query, ' ', '+'))
  {
    UnescapeEscape(url, "?q=");
    UnescapePlainPrefix("?q=", "");
    assert "?q=" + "" == "?q=";
    PrependEmpty(Some([]));
  }

  /** With the escaped registration, no `/addsite` makes `find_handler`'s
      search raise. */
  lemma RegisterEscapedNeverRaises(url: string, query: string, fetch: string -> Option<seq<Anchor>>)
    ensures AllResults(RegisterEscaped(BuiltinSites, url), query, fetch).Some?
  {
    var sites := RegisterEscaped(BuiltinSites, url);
    BuiltinsFormat();
    RegisterEscapedSearches(url, query);
    forall i | 0 <= i < |sites|
      ensures Unescape(sites[i].base).Some?
    {
      if sites[i] != Site(url, Escape(url) + "?q=") {
        assert sites[i] == BuiltinSites[i];
      }
    }
    FormattableNeverRaises(sites, query, fetch);
  }
}
