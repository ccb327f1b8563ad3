/** The decision flow of the `/find` handler and of the "Copy conclusion"
    button: cache lookup, search on every site, round-robin merge, article
    extraction, summary, rendering and the final cache write. Network
    search, article download and the AI completion are parameters. */
module Pipeline {
  import opened Wrappers
  import opened Text
  import Merge
  import Extract
  import Summarize
  import Render
  import Database

  const NotFoundText: string := "Conclusion not found. The cache might have expired."

  /** How many characters of the joined texts go to the AI completion. */
  const MaxAiInput: nat := 12000

  /** What `/find` ends with. `Aborted` is an exception escaping the
      handler, so that no reply is sent. */
  datatype Outcome =
    | AskForQuery
    | FromCache(cached: string)
    | Aborted
    | NoArticles
    | NoContent
    | Answered(response: string)

  /** `"\n\n".join(texts)` cut to its first 12000 characters. */
  function AiInput(texts: seq<string>): (r: string)
    ensures |r| <= MaxAiInput
    ensures |r| <= |Join(texts, "\n\n")| && r == Join(texts, "\n\n")[..|r|]
    ensures |Join(texts, "\n\n")| <= MaxAiInput ==> r == Join(texts, "\n\n")
  {
    Take(Join(texts, "\n\n"), MaxAiInput)
  }

  /** `if cached:` on the result of `load_cache(query)`. */
  predicate CacheHit(rows: seq<Database.CacheRow>, query: string, now: int) {
    Render.Truthy(Database.Lookup(rows, query, now, Database.DefaultTtl))
  }

  /** `all_links`: the round-robin merge of the search results, cut to
      five links. */
  function MergedLinks(results: seq<seq<string>>): seq<string> {
    Merge.Interleave(results)[..Merge.Min(Merge.MaxLinks, |Merge.Interleave(results)|)]
  }

  /** The downloaded articles, one per merged link. */
  function Articles(links: seq<string>, download: string -> Option<Render.RawArticle>): seq<Render.Fetched> {
    seq(|links|, i requires 0 <= i < |links| => Render.FetchArticle(download(links[i])))
  }

  /** The AI completion when it is configured, the local summary otherwise. */
  function SummaryOf(texts: seq<string>, query: string, ai: Option<(string, string) -> string>): string {
    if ai.Some? then ai.value(AiInput(texts), query) else Summarize.Summary(texts, Summarize.DefaultMaxSentences)
  }

  /** What `find_handler` ends with, for the cache rows `rows` at time
      `now`. `search(url)` is the result page of a search URL as anchors
      (`None` on a failed request); `download(link)` the parsed article;
      `ai`, when present, the AI completion of `(input, query)`. */
  function FindOutcome(rows: seq<Database.CacheRow>, now: int, query: Option<string>, sites: seq<Extract.Site>,
                       search: string -> Option<seq<Extract.Anchor>>,
                       download: string -> Option<Render.RawArticle>,
                       ai: Option<(string, string) -> string>): (r: Outcome)
    ensures r == AskForQuery <==> !Render.Truthy(query)
    ensures r.FromCache? <==> Render.Truthy(query) && CacheHit(rows, query.value, now)
    ensures r.FromCache? ==> (r.cached != []
              && Some(r.cached) == Database.Lookup(rows, query.value, now, Database.DefaultTtl))
    ensures r.Answered? ==> (|r.response| >= |Render.QueryHeader + query.value|
              && r.response[..|Render.QueryHeader + query.value|] == Render.QueryHeader + query.value)
  {
    if !Render.Truthy(query) then AskForQuery
    else if CacheHit(rows, query.value, now) then
      FromCache(Database.Lookup(rows, query.value, now, Database.DefaultTtl).value)
    else
      match Extract.AllResults(sites, query.value, search)
      case None => Aborted
      case Some(results) => AfterSearch(query.value, results, download, ai)
  }

  /** What `find_handler` ends with once the searches gave `results`. */
  function AfterSearch(q: string, results: seq<seq<string>>,
                       download: string -> Option<Render.RawArticle>,
                       ai: Option<(string, string) -> string>): Outcome
  {
    var links := MergedLinks(results);
    if links == [] then NoArticles
    else
      var pairs := Render.Zip(Articles(links, download), links);
      if Render.Ideas(pairs) == [] then NoContent
      else Answered(Render.Response(q, Render.Ideas(pairs), SummaryOf(Render.Texts(pairs), q, ai)))
  }

  /** `find_handler`: the outcome is `FindOutcome` of the cache before the
      call, and the cache gains the answer's row exactly when there is an
      answer. */
  method Find(db: Database.Db, query: Option<string>, sites: seq<Extract.Site>,
              search: string -> Option<seq<Extract.Anchor>>,
              download: string -> Option<Render.RawArticle>,
              ai: Option<(string, string) -> string>)
    returns (outcome: Outcome)
    requires db.Valid()
    modifies db`cache
    ensures db.Valid()
    ensures outcome == FindOutcome(old(db.cache), db.clock, query, sites, search, download, ai)
    ensures db.cache == if outcome.Answered?
                        then old(db.cache) + [Database.CacheRow(query.value, outcome.response, db.clock)]
                        else old(db.cache)
  {
    if !Render.Truthy(query) {
      return AskForQuery;
    }
    var q := query.value;
    var cached := db.LoadCache(q, Database.DefaultTtl);
    if Render.Truthy(cached) {
      return FromCache(cached.value);
    }
    var siteResults := Extract.SearchAll(sites, q, search);
    if siteResults.None? {
      return Aborted;
    }
    outcome := AnswerFromResults(db, q, siteResults.value, download, ai);
  }

  /** The rest of `find_handler` after the searches: merge, download,
      summarise, render, reply and cache. */
  method AnswerFromResults(db: Database.Db, q: string, siteResults: seq<seq<string>>,
                           download: string -> Option<Render.RawArticle>,
                           ai: Option<(string, string) -> string>)
    returns (outcome: Outcome)
    requires db.Valid()
    modifies db`cache
    ensures db.Valid()
    ensures outcome == AfterSearch(q, siteResults, download, ai)
    ensures db.cache == if outcome.Answered?
                        then old(db.cache) + [Database.CacheRow(q, outcome.response, db.clock)]
                        else old(db.cache)
  {
    var allLinks := Merge.MergeLinks(siteResults);
    if allLinks == [] {
      return NoArticles;
    }
    var articles := Articles(allLinks, download);
    var ideas, texts := Render.CollectIdeas(articles, allLinks);
    if ideas == [] {
      return NoContent;
    }
    var summary := SummaryStep(texts, q, ai);
    var response := Render.Response(q, ideas, summary);
    db.SaveCache(q, response);
    outcome := Answered(response);
  }

  /** Line 291 of `find_handler`: the AI answer when an AI client is
      configured, otherwise the local summary. */
  method SummaryStep(texts: seq<string>, q: string, ai: Option<(string, string) -> string>)
    returns (summary: string)
    ensures summary == SummaryOf(texts, q, ai)
  {
    if ai.Some? {
      summary := ai.value(AiInput(texts), q);
    } else {
      summary := Summarize.SummarizeTexts(texts, Summarize.DefaultMaxSentences);
    }
  }

  // ---------------------------------------------------------------------
  // Properties of `/find`

  /** `/find` aborts exactly when a stored template cannot be formatted:
      failed requests only make a site contribute nothing. */
  lemma FindAbortsOnTemplate(rows: seq<Database.CacheRow>, now: int, query: Option<string>, sites: seq<Extract.Site>,
                             search: string -> Option<seq<Extract.Anchor>>,
                             download: string -> Option<Render.RawArticle>,
                             ai: Option<(string, string) -> string>)
    ensures FindOutcome(rows, now, query, sites, search, download, ai) == Aborted
            <==> Render.Truthy(query) && !CacheHit(rows, query.value, now)
                 && exists i :: 0 <= i < |sites| && Extract.Unescape(sites[i].base).None?
  {
    if Render.Truthy(query) {
      forall i | 0 <= i < |sites|
        ensures Extract.SearchResult(sites[i], query.value, search).None? <==> Extract.Unescape(sites[i].base).None?
      {
        Extract.SearchUrlEncoding(sites[i], query.value);
      }
    }
  }

  /** "No articles" is answered exactly when every search ran and gave no
      links. */
  lemma FindNoArticles(rows: seq<Database.CacheRow>, now: int, query: Option<string>, sites: seq<Extract.Site>,
                       search: string -> Option<seq<Extract.Anchor>>,
                       download: string -> Option<Render.RawArticle>,
                       ai: Option<(string, string) -> string>)
    ensures FindOutcome(rows, now, query, sites, search, download, ai) == NoArticles
            <==> Render.Truthy(query) && !CacheHit(rows, query.value, now)
                 && forall i :: 0 <= i < |sites| ==> Extract.SearchResult(sites[i], query.value, search) == Some([])
  {
    if Render.Truthy(query) {
      var results := Extract.AllResults(sites, query.value, search);
      if results.Some? {
        Merge.MergeEmpty(results.value);
        assert forall i :: 0 <= i < |sites| ==>
          Extract.SearchResult(sites[i], query.value, search) == Some(results.value[i]);
      }
    }
  }

  /** "No content" is answered exactly when there were links and none of
      the downloaded articles has both a title and a text. */
  lemma FindNoContent(rows: seq<Database.CacheRow>, now: int, query: Option<string>, sites: seq<Extract.Site>,
                      search: string -> Option<seq<Extract.Anchor>>,
                      download: string -> Option<Render.RawArticle>,
                      ai: Option<(string, string) -> string>)
    ensures FindOutcome(rows, now, query, sites, search, download, ai) == NoContent
            <==> Render.Truthy(query) && !CacheHit(rows, query.value, now)
                 && Extract.AllResults(sites, query.value, search).Some?
                 && var links := MergedLinks(Extract.AllResults(sites, query.value, search).value);
                    links != [] && forall i :: 0 <= i < |links| ==> !Render.Usable(Render.FetchArticle(download(links[i])))
  {
    if Render.Truthy(query) && Extract.AllResults(sites, query.value, search).Some? {
      var links := MergedLinks(Extract.AllResults(sites, query.value, search).value);
      var pairs := Render.Zip(Articles(links, download), links);
      Render.IdeasMatchTexts(pairs);
      assert forall i :: 0 <= i < |links| ==> pairs[i].0 == Render.FetchArticle(download(links[i]));
    }
  }

  /** An answer is served from the cache by the next `/find` of the same
      query at the same time, without searching again. */
  lemma AnswerThenCached(rows: seq<Database.CacheRow>, now: int, query: Option<string>, sites: seq<Extract.Site>,
                         search: string -> Option<seq<Extract.Anchor>>,
                         download: string -> Option<Render.RawArticle>,
                         ai: Option<(string, string) -> string>)
    requires forall i :: 0 <= i < |rows| ==> rows[i].createdAt <= now
    requires FindOutcome(rows, now, query, sites, search, download, ai).Answered?
    ensures var response := FindOutcome(rows, now, query, sites, search, download, ai).response;
            FindOutcome(rows + [Database.CacheRow(query.value, response, now)], now, query, sites, search, download, ai)
            == FromCache(response)
  {
    var response := FindOutcome(rows, now, query, sites, search, download, ai).response;
    Database.LookupAfterSave(rows, query.value, response, now, Database.DefaultTtl);
    assert response != [];
  }

  /** What `copy_summary` replies for the result of `load_cache(query)`. */
  function CopyReply(cached: Option<string>): (reply: string)
    ensures !Render.Truthy(cached) ==> reply == NotFoundText
  {
    if Render.Truthy(cached) then Render.CopiedReply(Render.Conclusion(cached.value)) else NotFoundText
  }

  /** `copy_summary` for the query carried in the button's data. */
  method CopySummary(db: Database.Db, query: string) returns (reply: string)
    ensures reply == CopyReply(Database.Lookup(db.cache, query, db.clock, Database.DefaultTtl))
  {
    var cached := db.LoadCache(query, Database.DefaultTtl);
    reply := CopyReply(cached);
  }

  /** The button data `"copy:" + query` gives the query back through
      `split(":", 1)[1]`, whatever the query contains. */
  lemma CallbackDataRoundTrip(prefix: string, query: string)
    requires prefix != [] && ':' !in prefix
    ensures AfterFirst(prefix + ":" + query, ":") == query
  {
    var s := prefix + ":" + query;
    assert s[|prefix|..|prefix| + 1] == ":";
    assert OccursAt(s, ":", |prefix|);
    forall j | 0 <= j < |prefix|
      ensures !OccursAt(s, ":", j)
    {
      assert prefix[j] in prefix;
      assert s[j..j + 1] == [prefix[j]];
    }
    assert s[|prefix| + 1..] == query;
  }

  /** Pressing "Copy conclusion" right after an answer was cached returns
      the answer's summary, stripped, as long as neither the query nor an
      idea contains the conclusion marker. */
  lemma CopyAfterAnswer(rows: seq<Database.CacheRow>, query: string, ideas: seq<string>, summary: string, now: int)
    requires forall i :: 0 <= i < |rows| ==> rows[i].createdAt <= now
    requires Render.Free(query)
    requires forall i :: 0 <= i < |ideas| ==> Render.Free(ideas[i])
    ensures CopyReply(Database.Lookup(rows + [Database.CacheRow(query, Render.Response(query, ideas, summary), now)],
                                      query, now, Database.DefaultTtl))
            == Render.CopiedReply(Strip(summary))
  {
    var response := Render.Response(query, ideas, summary);
    Database.LookupAfterSave(rows, query, response, now, Database.DefaultTtl);
    assert Database.Lookup(rows + [Database.CacheRow(query, response, now)], query, now, Database.DefaultTtl) == Some(response);
    assert response != [];
    Render.ConclusionRoundTrip(query, ideas, summary);
    assert Render.Conclusion(response) == Strip(summary);
  }

  /** With the local summarizer, "Copy conclusion" right after the answer
      replies with exactly the summary `summarize_texts` produced: the
      `strip()` of the copy leaves it as it is. */
  lemma CopyAfterSummary(rows: seq<Database.CacheRow>, query: string, ideas: seq<string>, texts: seq<string>, now: int)
    requires forall i :: 0 <= i < |rows| ==> rows[i].createdAt <= now
    requires Render.Free(query)
    requires forall i :: 0 <= i < |ideas| ==> Render.Free(ideas[i])
    ensures var summary := Summarize.Summary(texts, Summarize.DefaultMaxSentences);
            CopyReply(Database.Lookup(rows + [Database.CacheRow(query, Render.Response(query, ideas, summary), now)],
                                      query, now, Database.DefaultTtl))
            == Render.CopiedReply(summary)
  {
    var summary := Summarize.Summary(texts, Summarize.DefaultMaxSentences);
    CopyAfterAnswer(rows, query, ideas, summary, now);
  }
}
