# AI-parser core in Dafny

This project models the decision logic of the AI-parser Telegram bot. The
`/find` command takes a query and then:

1. answers from a one-hour response cache when it can;
2. otherwise searches three sites (realpython, medium, stackoverflow);
3. merges their result links round-robin, at most five;
4. downloads the articles and turns each usable one into an "idea" line;
5. summarises the texts, either with an AI completion or with a local
   extractive summarizer;
6. renders the answer, shows it and appends it to the cache.

The "Copy conclusion" button later recovers the summary by splitting the
cached answer at its conclusion marker. The model also covers the per-user
site table of `bot/database.py` and the language choice of
`bot/localization.py`.

Modules:

- `Wrappers`: `Option`.
- `Text`: the Python `str` operations the bot relies on:
  - `isspace`;
  - `split()`, as an index scanner;
  - `strip`, `sep.join`, ASCII `lower` and single-character `replace`;
  - `s[:n]`;
  - `find`, and `split(sep, 1)[-1]`.
- `Merge`: the round-robin merge loop of `find_handler`, as an imperative
  method proved against the column-major interleave.
- `Extract`: `search_links` and the `SITES` table:
  - query encoding, and `str.format` of a stored template, which raises on
    a brace that is not doubled;
  - the per-site extraction rules over an abstract sequence of anchors;
  - the search of every site, in table order;
  - the URL check of `/addsite` and its registration.
- `Summarize`: `summarize_texts`, with these parts:
  - the exact `(?<=[.!?]) +` split;
  - the word-frequency table (a multiset of lower-cased tokens);
  - the stable descending sort;
  - the top-N selection and the sentinel.
- `Render`: the article-body normalisation of `fetch_article`, the idea
  lines, the rendered response, and the conclusion split of `copy_summary`.
  The header glyphs are the exact characters of `superbot.py`, where the
  emoji are stored as Mac Roman mojibake.
- `Database`: the `cache` and `user_sites` tables as row sequences in
  insertion order, in a class `Db` with an integer clock in minutes:
  - `save_cache` and `load_cache`, which `superbot.py:66-94` duplicates
    word for word;
  - `get_user_sites`, `add_user_site`, `remove_user_site` and
    `reset_user_sites`.
- `Localization`: `get_response` over the `user_languages` map.
- `Pipeline`: the `find_handler` decision flow and `copy_summary`. Their
  external inputs are parameters:
  - `search`: the anchors of a search page, or `None` for a failed request;
    a template that `format` rejects makes the handler abort instead;
  - `download`: the parsed article;
  - `ai`: the AI completion, when it is configured.

Two behaviours of the code worth stating:

- The merge does not remove duplicate links. Every visited slot is
  appended.
- When the AI completion fails, `get_ai_summary` returns a failure string
  (`superbot.py:176-179`). It does not fall back to the extractive
  summarizer. The model treats the whole AI call, error handling included,
  as the `ai` parameter, so whatever text it returns becomes the summary.

## Model

| member | source | states |
|---|---|---|
| Merge.MergeLinks | superbot.py:257-270 | the merged list is exactly the first min(5, total) links of the column-major interleave: every site's link 0 in site order, then every site's link 1, and so on |
| Merge.MergePass | superbot.py:261-267 | one pass at depth `index` sets `added` exactly when some site has a link at that depth; it appends that whole column, or stops on the fifth link having taken a prefix of the interleave |
| Merge.ExhaustedPass | superbot.py:268-269 | a pass that adds nothing means the links so far are the whole interleave |
| Merge.ColumnEmpty | superbot.py:262-265 | a depth adds nothing exactly when no site list is that long |
| Merge.InterleaveLength | superbot.py:262-265 | the interleave holds every link of every site: nothing is dropped or merged away |
| Merge.InterleaveAt | superbot.py:262-264 | link `k` of site `j` sits at position `Pos(j, k)` of the interleave |
| Merge.PosOrder | superbot.py:259-270 | a link at a smaller depth, or at the same depth from an earlier site, comes first: each site keeps its order, and no site gives a second link before every site with a link at the current depth has given one |
| Merge.MergeEmpty | superbot.py:268-274 | the merged list is empty exactly when every site returned no links |
| Merge.MergeContents | superbot.py:257-270 | the merged list has min(5, total) links, and each slot within it holds the link of its column-major position |
| Merge.MergeKeepsDuplicates | superbot.py:263-264 | two slots holding the same URL both reach the merged list, at different positions, when both fall within the first five |
| Extract.Unescape | superbot.py:112 | the literal text `format` makes of a template is never longer than the template, and a template without braces is its own literal text |
| Extract.SearchUrl | superbot.py:112 | the search URL can be built exactly when the template formats, and a template without braces is followed directly by the encoded query |
| Extract.SearchResult | superbot.py:110-141 | the search raises exactly when the template does not format; a key with no extraction rule gives no links |
| Extract.SearchUrlEncoding | superbot.py:112 | `format` raises exactly when the template's own text has a brace that is not doubled, whatever the query; otherwise the search URL is the template's literal text followed by the query with spaces turned into `+`, there are no spaces after the literal text, and the encoding is undone for a query without `+` |
| Extract.UnescapePlainPrefix | superbot.py:112 | `format` copies text without braces literally, whatever follows it |
| Extract.PlainUnescape | superbot.py:112 | a template whose text has no braces formats to that text |
| Extract.UnescapeEscape | superbot.py:112 | text whose braces are all doubled is given back literally by `format` |
| Extract.BuiltinsFormat | superbot.py:45-49 | the three built-in templates have no braces, so `format` never raises on them |
| Extract.FormattableNeverRaises | superbot.py:110-141 | when every template formats, no search raises and `gather` gets one result per site |
| Extract.Put | superbot.py:374 | dict assignment overwrites an existing key in place and otherwise appends one entry; every other entry is unchanged, and every entry is either the new one or the old one at its place |
| Extract.Register | superbot.py:374 | `SITES[url] = url + "?q={}"` keeps the length for an existing key and adds one entry otherwise; every entry with another key is unchanged, and the table holds the new entry |
| Extract.AddSiteAccepts | superbot.py:359 | a URL that passes the check is at least eight characters long and starts with `http` |
| Extract.RegisterAfterBuiltins | superbot.py:374 | a new key lands after the three built-in sites, in order; it yields no links whatever its page holds, and its search raises exactly when its URL has a brace that is not doubled |
| Extract.AddSiteAcceptsSuffix | superbot.py:359 | the `re.match` check is a prefix match: a URL that passes it still passes with anything appended, braces included |
| Extract.BraceUrlBreaksSearch | superbot.py:359-374 | `/addsite https://example.com/?a=}` passes the URL check, and afterwards the search of `find_handler` raises for every query |
| Extract.RegisterEscapedSearches | superbot.py:374 | with the URL's braces doubled, the search URL of a registered site is the URL itself, then `?q=`, then the encoded query, for every URL |
| Extract.RegisterEscapedNeverRaises | superbot.py:374 | with the URL's braces doubled, no registration makes the search of `find_handler` raise |
| Extract.Hrefs | superbot.py:124-125 | no empty href is kept, and never more hrefs than anchors |
| Extract.HrefsConcat | superbot.py:123-126 | the href filter distributes over concatenation of the anchor list |
| Extract.HrefsOne | superbot.py:124-125 | one anchor contributes its href exactly when the href is present and non-empty |
| Extract.HrefsAllPresent | superbot.py:124-126 | when every anchor has an href, each one contributes its own href, in order |
| Extract.HrefsNonePresent | superbot.py:124-126 | when no anchor has an href, nothing is kept |
| Extract.PrefixedLinks | superbot.py:121-126 | the append loop equals the prefix rule: the first five anchors, without a missing href, each prefixed with the site origin |
| Extract.PrefixRuleShape | superbot.py:121-136 | realpython and stackoverflow give at most five links; each is the origin followed by a non-empty href, and dropping the origin gives the hrefs of the first five anchors in order |
| Extract.CutAtQuery | superbot.py:129 | `split("?")[0]` is the longest prefix of the href that holds no `?` |
| Extract.Dedupe | superbot.py:129 | `dict.fromkeys` keeps exactly the values of the input, each once |
| Extract.DedupeOrder | superbot.py:129 | the kept values are in the order of their first occurrence |
| Extract.MediumLinksShape | superbot.py:127-130 | Medium gives at most five links, none holding a `?`, no two equal, each the cut of some matched href |
| Extract.UnknownSiteGivesNothing | superbot.py:121-138 | a key other than the three built-ins yields an empty list |
| Extract.ExtractLinks | superbot.py:121-138 | the per-site branch returns the rule of its site key |
| Extract.SearchLinks | superbot.py:110-141 | a template that `format` rejects raises before the request; a failed or non-200 request gives no links; otherwise the site rule applies to the matched anchors |
| Extract.SearchAll | superbot.py:254 | `gather` raises exactly when the search of some `SITES` entry raises; otherwise one result per entry, in table order, each the `search_links` result for that site |
| Text.TrimStart | superbot.py:104 | `lstrip` drops exactly the leading whitespace (Python's `isspace` set) |
| Text.TrimEnd | superbot.py:104 | `rstrip` drops exactly the trailing whitespace |
| Text.Strip | superbot.py:104 | `strip()` never lengthens the text, and its result neither starts nor ends with whitespace |
| Text.StripPiece | superbot.py:104 | `strip()` gives the piece of the text that starts after its leading whitespace; every character it drops at either end is whitespace |
| Text.StripUnpadded | superbot.py:345 | a text that neither starts nor ends with whitespace is left as it is by `strip()` |
| Text.StripIdempotent | superbot.py:194 | stripping twice is stripping once, so the strip of a summary already stripped at line 194 changes nothing |
| Text.StripSkipsSpace | superbot.py:345 | a leading whitespace character does not change `strip()` |
| Text.WordsAreWords | superbot.py:191 | every token of `split()` is non-empty and free of whitespace |
| Text.WordsOfJoin | superbot.py:283 | `" ".join` of whitespace-free tokens is split back into the same tokens |
| Text.Take | superbot.py:193 | `xs[:n]` has min(n, len) elements and is a prefix of `xs` |
| Text.FindFrom | superbot.py:345 | the search finds the first occurrence at or after the start, or reports that there is none |
| Text.ReplaceCharRoundTrip | superbot.py:112 | replacing `a` by `b` is undone by replacing `b` by `a` when `b` did not occur |
| Summarize.FirstBreak | superbot.py:185 | finds the leftmost space that follows `.`, `!` or `?` |
| Summarize.SpaceRunEnd | superbot.py:185 | ` +` takes the whole run of spaces |
| Summarize.SplitSentences | superbot.py:185 | `re.split` gives at least one part, even for the empty string |
| Summarize.SplitPartsEndWithPunctuation | superbot.py:185 | every part but the last is non-empty and ends with `.`, `!` or `?` |
| Summarize.SplitJoinRoundTrip | superbot.py:185 | with no double spaces, joining the parts with a space gives the text back |
| Summarize.CollectSentences | superbot.py:183-186 | the loop gathers the parts of every text, text after text |
| Summarize.AllSentencesCount | superbot.py:184-189 | each text gives at least one sentence, so there are no sentences exactly when there are no texts |
| Summarize.InsertElements | superbot.py:192 | inserting adds exactly the new index and nothing else |
| Summarize.InsertRanked | superbot.py:192 | inserting an index into a list in descending-score order, ties by position, keeps that order |
| Summarize.RankOrder | superbot.py:192 | the ranking is a permutation of all sentence indices in descending score, ties in original order |
| Summarize.SummarizeTexts | superbot.py:181-194 | the empty-input branch returns the sentinel; otherwise the result is the stripped space-join of the top `max_sentences` ranked sentences |
| Summarize.Summary | superbot.py:181-194 | the sentinel for no texts, and in every case a text that `strip()` leaves as it is |
| Summarize.TopSentencesCount | superbot.py:193 | the summary holds min(max_sentences, #sentences) sentences |
| Summarize.TopSentencesOrdered | superbot.py:191-193 | the chosen sentences come in descending score (the sum of the global frequencies of their lower-cased tokens), equal scores in original order |
| Summarize.TopSentencesAreBest | superbot.py:191-193 | a sentence left out scores no more than any chosen one, and on equal score it comes later in the text |
| Render.NormalizeBody | superbot.py:104 | the result is the stripped body with every newline turned into a space and every other character kept: same length, no newline, and no whitespace at either end |
| Render.FetchArticle | superbot.py:97-108 | a failed download gives `(None, None)`, otherwise the title and the normalised body |
| Render.Zip | superbot.py:281 | `zip` pairs articles with links up to the shorter of the two |
| Render.Ideas | superbot.py:281-285 | there is at most one idea per pair |
| Render.Texts | superbot.py:282-285 | every kept text is non-empty |
| Render.CollectIdeas | superbot.py:279-285 | the loop builds the idea lines and the texts of the usable articles, in link order |
| Render.SnippetWordsOf | superbot.py:283 | the snippet consists of exactly the first 30 words of the text |
| Render.IdeasMatchTexts | superbot.py:281-289 | one text is kept per idea, and there is no idea exactly when no article has both a title and a text |
| Render.TextsFrom | superbot.py:281-285 | every kept text is the text of one of the fetched articles |
| Render.TextsAreNormalized | superbot.py:104-105 | no text handed to the summarizer contains a newline |
| Render.Bullets | superbot.py:294 | each idea becomes one line `- idea`, in order |
| Render.Response | superbot.py:293-295 | the rendered answer starts with the query header and the query, and ends with the summary |
| Render.Conclusion | superbot.py:345-346 | the recovered conclusion has no whitespace at either end, and a text without the marker is kept whole, stripped |
| Render.CopiedReply | superbot.py:346 | the reply is the "Copied" header, then the summary between the code fences (a blank line and three backticks before it, three backticks after it), with nothing else around it |
| Render.SplitAtMarker | superbot.py:345 | after a marker-free head ending in a newline, `split(marker, 1)[-1]` is exactly what follows the marker |
| Render.ConclusionRoundTrip | superbot.py:293-295 | when neither the query nor an idea contains the conclusion marker, the split at line 345 recovers the stripped summary from the rendered response |
| Database.Newest | bot/database.py:48-52 | `ORDER BY created_at DESC LIMIT 1` picks a row of the query with the largest timestamp, and none when the query has no row |
| Database.Lookup | bot/database.py:44-61 | an answer comes back exactly when some row of the query is younger than the TTL (strictly), and it is the response of a newest row |
| Database.SitesOf | bot/database.py:67-81 | the user's URLs are at most as many as the rows; each is the URL of a row of that user, and every row of that user has its URL in the list |
| Database.DefaultRows | bot/database.py:104-105 | the default insert is one row per default URL, in order, for that user |
| Database.DeleteSite | bot/database.py:95 | no deleted row survives, and nothing new appears |
| Database.DeleteUser | bot/database.py:103 | no row of the user survives, and nothing new appears |
| Database.Db.constructor | bot/database.py:7-31 | a fresh database has empty tables |
| Database.Db.SaveCache | bot/database.py:33-42 | one row stamped now is appended and nothing else changes; a lookup of the query with any positive TTL now returns the new response |
| Database.Db.LoadCache | bot/database.py:44-61 | reads the cache without changing it |
| Database.Db.GetUserSites | bot/database.py:63-81 | a user with rows gets their URLs in insertion order and nothing changes; a user without rows gets the three defaults, which are appended to the table |
| Database.Db.AddUserSite | bot/database.py:83-89 | one row is appended, with no uniqueness check |
| Database.Db.RemoveUserSite | bot/database.py:91-97 | every row matching the user and the URL is deleted |
| Database.Db.ResetUserSites | bot/database.py:99-107 | the user's rows are replaced by the default rows |
| Database.LookupAfterSave | bot/database.py:33-61 | a save followed by a lookup within the TTL returns the saved response |
| Database.SaveOtherQuery | bot/database.py:37-40 | a save under one query leaves every other query's lookup unchanged |
| Database.LatestSaveWins | bot/database.py:48-51 | of two saves at the same moment, the later one is read back |
| Database.LookupExpired | bot/database.py:59-61 | when every row of the query is older than the TTL, the lookup fails, though the stale rows stay |
| Database.SitesOfDefaults | bot/database.py:71-79 | the default rows give the user exactly the three default URLs and no other user anything |
| Database.GetUserSitesSettles | bot/database.py:63-81 | after one call the user's list is non-empty, and a second call returns the same list |
| Database.AddKeepsDuplicates | bot/database.py:83-89 | adding appends the URL to the user's list even when it is already there, and other users are unaffected |
| Database.RemoveDeletesAll | bot/database.py:91-97 | removing takes every copy of the URL out of the user's list, keeps the user's other URLs in order, and leaves other users alone |
| Database.ResetGivesDefaults | bot/database.py:99-107 | after a reset the user has exactly the three defaults, in order, and other users keep their lists |
| Database.DeleteUserFrame | bot/database.py:103 | deleting a user's rows empties that user's list and keeps every other user's list |
| Localization.GetResponse | bot/localization.py:3-6 | the result is one of the two texts; a user without an entry gets the English text, and a stored code other than exactly `"en"` gets the Ukrainian text |
| Localization.EnglishExactly | bot/localization.py:5-6 | for distinct texts, English is chosen exactly when the user has no entry or the entry `"en"` |
| Localization.StoreLanguage | superbot.py:220-234 | after `user_languages[id] = lang`, `get_response` of the same module picks the text of that code for that user, and every other user's lookup is unchanged |
| Localization.StoredChoiceIgnored | bot/localization.py:1-6 | this module's map is never written, so its `get_response` always gives the English text; only a write of a code other than `"en"`, which no code performs, would give the Ukrainian one |
| Pipeline.AiInput | superbot.py:150-154 | the AI input is a prefix of the `"\n\n"`-joined texts, at most 12000 characters, and the whole join when it fits |
| Pipeline.FindOutcome | superbot.py:237-311 | an empty query asks for one and only then; a cache hit is answered exactly when the query is non-empty and the cache has a fresh row, with that row's non-empty response; an answer starts with the query header and the query |
| Pipeline.Find | superbot.py:237-311 | the outcome is `FindOutcome` of the cache before the call; the cache gains exactly one row, the query with the rendered answer stamped now, on an answer and is unchanged otherwise |
| Pipeline.AnswerFromResults | superbot.py:256-311 | after the searches, the outcome is `AfterSearch` of their results; the cache gains exactly the answer's row on an answer and is unchanged otherwise |
| Pipeline.FindAbortsOnTemplate | superbot.py:252-254 | the handler aborts exactly when the query is non-empty, there is no cache hit and some stored template cannot be formatted; failed requests never abort it |
| Pipeline.FindNoArticles | superbot.py:252-274 | "no articles" is answered exactly when there is no cache hit and every site search ran and gave no links |
| Pipeline.FindNoContent | superbot.py:276-289 | "no content" is answered exactly when there were links and no downloaded article has both a title and a text |
| Pipeline.AnswerThenCached | superbot.py:246-249 | after an answer is saved (line 311), the same `/find` at the same moment is answered from the cache with that answer |
| Pipeline.CopyReply | superbot.py:343-348 | a missing or empty cache entry gives the "not found" reply |
| Pipeline.CopySummary | superbot.py:335-349 | the reply is built from the cache lookup of the query carried by the button |
| Pipeline.CallbackDataRoundTrip | superbot.py:341 | `"copy:" + query` split at the first `:` gives the query back, whatever the query contains |
| Pipeline.CopyAfterSummary | superbot.py:343-346 | with the local summarizer, copying right after the answer replies with exactly the summary of line 194, when neither the query nor an idea contains the marker |
| Pipeline.CopyAfterAnswer | superbot.py:343-346 | pressing "Copy conclusion" right after an answer was cached replies with that answer's stripped summary, when neither the query nor an idea contains the marker |

## Left out

- HTTP requests, status checks and client errors (`aiohttp`): these are network I/O. A site search is the parameter `search`, which gives the matched anchors or `None`.
- BeautifulSoup selectors and the Medium href regex: the anchors a selector matches are given as a sequence with optional hrefs.
- Article download and parsing (`newspaper`): this is an external library. The parameter `download` gives the title and the raw body, or `None` when download or parsing fails. The strip-and-newline normalisation is modelled.
- The OpenAI call, its prompt, its sampling parameters and its error handling: this is an external service. The parameter `ai` maps the truncated input and the query to the summary text. Whether a key is configured is whether `ai` is present.
- `asyncio.gather` concurrency: the site searches and downloads are modelled one after another, in list order. `gather` returns results in that same order.
- Wall-clock time and `strptime` parsing of `created_at`: the clock is an integer number of minutes. The clock only moves forward, through `Db.Tick`.
- Database.Db.GetUserSites: assumes that `SELECT site_url FROM user_sites WHERE user_id = ?` (`bot/database.py:67`) returns rows in insertion order. SQL promises no order without `ORDER BY`; SQLite's scan of this unindexed table gives insertion order in practice.
- Database.Db.SaveCache: its lookup promise, like `Database.LatestSaveWins`, holds only while no stored row is newer than the clock (`Db.Valid`). The source stamps rows with the naive local `datetime.now()`, which steps back when daylight saving time ends, so a row saved just before the step can shadow a newer one or outlive the TTL.
- Database.Newest: SQLite leaves the order of rows with equal `created_at` unspecified. The model picks the later insert.
- Text.Lower: only ASCII letters are lower-cased. Python's full Unicode `lower` is not modelled.
- Summarize.SummarizeTexts: `max_sentences` is a natural number. Python's negative slice bounds are not modelled, and the handler only uses the default of 3.
- Pipeline.Find: assumes that every failure of a site search is an `aiohttp.ClientError` (caught at `superbot.py:139`) and every failure of a download a `ValueError` or `IOError` (caught at line 106). Any other exception escapes `gather` (lines 254 and 277) and aborts the handler; the model turns these failures into `None` instead.
- Pipeline.Find: assumes that the progress message (line 251) and its edit (line 304) succeed. A failed edit would abort the handler before `save_cache` at line 311, so the answer would not be cached.
- Pipeline.CopyReply: its contract states only the not-found branch. The found branch is stated by `Pipeline.CopyAfterAnswer` and `Render.ConclusionRoundTrip`.
- Telegram plumbing is not modelled: message replies and edits, Markdown parse modes, inline keyboards, callback answers, and the checks for a missing message or missing callback data.
- `start_handler` and the replies of `set_language` are not modelled. Only the map update `user_languages[id] = lang` is modelled.
- `show_sources` (`superbot.py:313-333`) is left out: it is a network search followed by a numbered list.
- The reachability check of `/addsite` (`superbot.py:363-372`) is network I/O and is not modelled. The regex check at line 359 is modelled by `Extract.AddSiteAccepts`, and the `SITES` update by `Extract.Register`.
- Extract.AddSiteAccepts: `\w` is taken as the ASCII word characters. Python's `re` also accepts other Unicode letters and digits there.
- The replies of `/addsite` and its check for a missing argument are not modelled.
- `bot/handlers.py` cannot be imported as shipped: it imports `add_subscription`, `remove_subscription` and `get_subscriptions`, which `bot/database.py` does not define, so `main.py` fails at start-up. Its handlers are not modelled beyond the `get_response` they call.
- `main.py`, `bot/config.py` and `bot/handlers.py` are wiring, and the `subscriptions` table has no operations in `bot/database.py`. These are not part of this model.

## Findings

| source | as written | input that shows it | evidently intended | confidence | as-written member | corrected member |
|---|---|---|---|---|---|---|
| superbot.py:374 | `SITES[site_url] = site_url + "?q={}"` puts the URL into a `format` template without doubling its braces; the regex at line 359 is a prefix match and lets braces through, and the `ValueError` raised at line 112 is outside the `try` | `/addsite https://example.com/?a=}`, then any `/find` without a cache hit | the URL is searched literally: its braces are doubled before `"?q={}"` is appended | not executed | Extract.BraceUrlBreaksSearch | Extract.RegisterEscapedNeverRaises |
| bot/localization.py:1 | this module's `user_languages` is created empty and nothing in either program writes it (the language buttons of `superbot.py` write that module's own map, line 221), so its `get_response` always returns `en_text` | `get_response(42, "Hi", "Привіт")` returns `"Hi"`, for every user id | a map that a language choice writes, so that a stored code selects the text | not executed | Localization.StoredChoiceIgnored | Localization.StoreLanguage |
