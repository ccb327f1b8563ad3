/** The user-visible text of `/find`: the article body normalisation of
    `fetch_article`, the idea lines built from the fetched articles, the
    rendered response, and the `copy_summary` split that recovers the
    conclusion from a cached response. The header glyphs are the exact
    characters of the source file (its emoji are stored as Mac Roman
    mojibake). */
module Render {
  import opened Wrappers
  import opened Text

  const QueryHeader: string := "\U{F8FF}\U{FC}\U{EE}\U{E9} *Query:* "
  const IdeasHeader: string := "\U{F8FF}\U{FC}\U{EE}\U{E7} *Key Ideas:*\n"
  /** The marker `copy_summary` splits on. */
  const Marker: string := "\U{201A}\U{FA}\U{D6} *Conclusion:*"
  const CopiedHeader: string := "\U{F8FF}\U{FC}\U{EC}\U{E3} Copied:"

  /** How many words of an article the idea line shows. */
  const SnippetWords: nat := 30

  /** A downloaded and parsed article, before normalisation. */
  datatype RawArticle = RawArticle(title: string, body: string)

  /** What `fetch_article` returns: `(title, text)`, or `(None, None)`
      when download or parsing failed. */
  datatype Fetched = Fetched(title: Option<string>, text: Option<string>)

  /** `article.text.strip().replace("\n", " ")`. */
  function NormalizeBody(body: string): (text: string)
    ensures |text| == |Strip(body)|
    ensures forall i :: 0 <= i < |text| ==> text[i] != '\n'
    ensures forall i :: 0 <= i < |text| ==> text[i] == if Strip(body)[i] == '\n' then ' ' else Strip(body)[i]
    ensures text == [] || (!IsSpace(text[0]) && !IsSpace(text[|text| - 1]))
  {
    ReplaceChar(Strip(body), '\n', ' ')
  }

  function FetchArticle(raw: Option<RawArticle>): (f: Fetched)
    ensures raw.None? ==> f == Fetched(None, None)
    ensures raw.Some? ==> f.title == Some(raw.value.title) && f.text == Some(NormalizeBody(raw.value.body))
  {
    match raw
    case None => Fetched(None, None)
    case Some(a) => Fetched(Some(a.title), Some(NormalizeBody(a.body)))
  }

  /** Python truthiness of an optional string. */
  predicate Truthy(s: Option<string>) {
    s.Some? && s.value != []
  }

  /** `if title and text:`. */
  predicate Usable(a: Fetched) {
    Truthy(a.title) && Truthy(a.text)
  }

  /** `" ".join(text.split()[:30])`. */
  function Snippet(text: string): string {
    Join(Take(Words(text), SnippetWords), " ")
  }

  /** `f"*{title}*:\n{snippet}... [Read]({link})"`. */
  function Idea(title: string, text: string, link: string): string {
    "*" + title + "*:\n" + Snippet(text) + "... [Read](" + link + ")"
  }

  /** The ideas kept from `zip(articles, links)`: one per usable article. */
  function Ideas(pairs: seq<(Fetched, string)>): (ideas: seq<string>)
    ensures |ideas| <= |pairs|
  {
    if pairs == [] then []
    else
      var (a, link) := pairs[|pairs| - 1];
      var init := Ideas(pairs[..|pairs| - 1]);
      if Usable(a) then init + [Idea(a.title.value, a.text.value, link)] else init
  }

  /** The texts kept alongside, for the summary. */
  function Texts(pairs: seq<(Fetched, string)>): (texts: seq<string>)
    ensures forall i :: 0 <= i < |texts| ==> texts[i] != []
  {
    if pairs == [] then []
    else
      var a := pairs[|pairs| - 1].0;
      var init := Texts(pairs[..|pairs| - 1]);
      if Usable(a) then init + [a.text.value] else init
  }

  /** `zip(articles, all_links)`: as long as the shorter of the two. */
  function Zip(articles: seq<Fetched>, links: seq<string>): (pairs: seq<(Fetched, string)>)
    ensures |pairs| == if |articles| < |links| then |articles| else |links|
    ensures forall i :: 0 <= i < |pairs| ==> pairs[i] == (articles[i], links[i])
  {
    var n := if |articles| < |links| then |articles| else |links|;
    seq(n, i requires 0 <= i < n => (articles[i], links[i]))
  }

  /** The loop that fills `ideas` and `texts`. */
  method CollectIdeas(articles: seq<Fetched>, links: seq<string>) returns (ideas: seq<string>, texts: seq<string>)
    ensures ideas == Ideas(Zip(articles, links))
    ensures texts == Texts(Zip(articles, links))
  {
    var pairs := Zip(articles, links);
    ideas, texts := [], [];
    for i := 0 to |pairs|
      invariant ideas == Ideas(pairs[..i])
      invariant texts == Texts(pairs[..i])
    {
      assert pairs[..i + 1][..i] == pairs[..i];
      var (a, link) := pairs[i];
      if Truthy(a.title) && Truthy(a.text) {
        var snippet := Join(Take(Words(a.text.value), SnippetWords), " ");
        ideas := ideas + ["*" + a.title.value + "*:\n" + snippet + "... [Read](" + link + ")"];
        texts := texts + [a.text.value];
      }
    }
    assert pairs[..|pairs|] == pairs;
  }

  /** `f"- {idea}"` for every idea. */
  function Bullets(ideas: seq<string>): (bullets: seq<string>)
    ensures |bullets| == |ideas|
    ensures forall i :: 0 <= i < |ideas| ==> bullets[i] == "- " + ideas[i]
  {
    seq(|ideas|, i requires 0 <= i < |ideas| => "- " + ideas[i])
  }

  /** The three parts of the rendered response. */
  function Response(query: string, ideas: seq<string>, summary: string): (r: string)
    ensures |r| >= |QueryHeader + query| + |summary|
    ensures r[..|QueryHeader + query|] == QueryHeader + query
    ensures r[|r| - |summary|..] == summary
  {
    QueryHeader + query + "\n\n"
    + IdeasHeader + Join(Bullets(ideas), "\n\n") + "\n\n"
    + Marker + "\n" + summary
  }

  /** `str(cached).split(marker, 1)[-1].strip()`. */
  function Conclusion(cached: string): (r: string)
    ensures r == [] || (!IsSpace(r[0]) && !IsSpace(r[|r| - 1]))
    ensures Free(cached) ==> r == Strip(cached)
  {
    Strip(AfterFirst(cached, Marker))
  }

  /** The reply `copy_summary` sends for a recovered conclusion. */
  function CopiedReply(summary: string): (r: string)
    ensures |r| == |CopiedHeader| + |summary| + 8
    ensures r[..|CopiedHeader|] == CopiedHeader
    ensures r[|CopiedHeader| + 5..|r| - 3] == summary
    ensures r[|CopiedHeader|..|CopiedHeader| + 5] == "\n\n```" && r[|r| - 3..] == "```"
  {
    CopiedHeader + "\n\n```" + summary + "```"
  }

  // ---------------------------------------------------------------------
  // Properties

  /** The snippet is exactly the first 30 words of the text. */
  lemma SnippetWordsOf(text: string)
    ensures Words(Snippet(text)) == Take(Words(text), SnippetWords)
  {
    WordsAreWords(text);
    WordsOfJoin(Take(Words(text), SnippetWords));
  }

  /** One text is kept per idea, and none when no article is usable: the
      handler's "Could not extract content" case. */
  lemma {:induction false} IdeasMatchTexts(pairs: seq<(Fetched, string)>)
    ensures |Ideas(pairs)| == |Texts(pairs)|
    ensures Ideas(pairs) == [] <==> forall i :: 0 <= i < |pairs| ==> !Usable(pairs[i].0)
  {
    if pairs != [] {
      var init := pairs[..|pairs| - 1];
      IdeasMatchTexts(init);
      assert forall i :: 0 <= i < |init| ==> init[i] == pairs[i];
    }
  }

  /** A kept text is the normalised body of a fetched article. */
  lemma TextsAreNormalized(raws: seq<Option<RawArticle>>, links: seq<string>)
    ensures forall t :: t in Texts(Zip(seq(|raws|, i requires 0 <= i < |raws| => FetchArticle(raws[i])), links))
              ==> forall k :: 0 <= k < |t| ==> t[k] != '\n'
  {
    var articles := seq(|raws|, i requires 0 <= i < |raws| => FetchArticle(raws[i]));
    TextsFrom(Zip(articles, links));
  }

  lemma {:induction false} TextsFrom(pairs: seq<(Fetched, string)>)
    ensures forall t :: t in Texts(pairs) ==> exists i :: 0 <= i < |pairs| && pairs[i].0.text == Some(t)
  {
    if pairs != [] {
      var init := pairs[..|pairs| - 1];
      TextsFrom(init);
      forall t | t in Texts(pairs)
        ensures exists i :: 0 <= i < |pairs| && pairs[i].0.text == Some(t)
      {
        if t in Texts(init) {
          var i :| 0 <= i < |init| && init[i].0.text == Some(t);
          assert pairs[i] == init[i];
        } else {
          assert pairs[|pairs| - 1].0.text == Some(t);
        }
      }
    }
  }

  /** The marker does not occur in `s`. */
  predicate Free(s: string) {
    forall i :: 0 <= i < |s| ==> !OccursAt(s, Marker, i)
  }

  lemma FreePlain(s: string)
    requires forall k :: 0 <= k < |s| ==> s[k] != Marker[0]
    ensures Free(s)
  {
    forall i | 0 <= i < |s|
      ensures !OccursAt(s, Marker, i)
    {
      if i + |Marker| <= |s| {
        assert s[i..i + |Marker|][0] == s[i];
      }
    }
  }

  /** Text without the marker's first glyph cannot start an occurrence. */
  lemma FreeAfterPlain(a: string, b: string)
    requires forall k :: 0 <= k < |a| ==> a[k] != Marker[0]
    requires Free(b)
    ensures Free(a + b)
  {
    var s := a + b;
    forall i | 0 <= i < |s|
      ensures !OccursAt(s, Marker, i)
    {
      if i + |Marker| <= |s| {
        if i < |a| {
          assert s[i..i + |Marker|][0] == a[i];
        } else {
          assert s[i..i + |Marker|] == b[i - |a|..i - |a| + |Marker|];
          assert !OccursAt(b, Marker, i - |a|);
        }
      }
    }
  }

  /** The marker has no newline, so no occurrence spans a newline. */
  lemma FreeAcrossNewline(a: string, b: string)
    requires Free(a) && Free(b)
    requires (a != [] && a[|a| - 1] == '\n') || (b != [] && b[0] == '\n')
    ensures Free(a + b)
  {
    assert forall k :: 0 <= k < |Marker| ==> Marker[k] != '\n';
    var s := a + b;
    forall i | 0 <= i < |s|
      ensures !OccursAt(s, Marker, i)
    {
      if i + |Marker| <= |a| {
        assert s[i..i + |Marker|] == a[i..i + |Marker|];
        assert !OccursAt(a, Marker, i);
      } else if i >= |a| {
        if i + |Marker| <= |s| {
          assert s[i..i + |Marker|] == b[i - |a|..i - |a| + |Marker|];
          assert !OccursAt(b, Marker, i - |a|);
        }
      } else if i + |Marker| <= |s| {
        var k := if a != [] && a[|a| - 1] == '\n' then |a| - 1 - i else |a| - i;
        assert s[i..i + |Marker|][k] == '\n';
        assert Marker[k] != '\n';
        assert s[i..i + |Marker|] != Marker;
      }
    }
  }

  lemma {:induction false} FreeJoin(parts: seq<string>)
    requires forall i :: 0 <= i < |parts| ==> Free(parts[i])
    ensures Free(Join(parts, "\n\n"))
  {
    if |parts| == 0 {
      FreePlain("");
    } else if |parts| > 1 {
      FreeJoin(parts[1..]);
      FreePlain("\n\n");
      FreeAcrossNewline("\n\n", Join(parts[1..], "\n\n"));
      FreeAcrossNewline(parts[0], "\n\n" + Join(parts[1..], "\n\n"));
      assert parts[0] + "\n\n" + Join(parts[1..], "\n\n") == parts[0] + ("\n\n" + Join(parts[1..], "\n\n"));
    }
  }

  /** The first occurrence is right after a marker-free head ending in a
      newline. */
  lemma SplitAtMarker(head: string, rest: string)
    requires Free(head) && head != [] && head[|head| - 1] == '\n'
    ensures AfterFirst(head + Marker + rest, Marker) == rest
  {
    assert forall k :: 0 <= k < |Marker| ==> Marker[k] != '\n';
    var s := head + Marker + rest;
    assert s[|head|..|head| + |Marker|] == Marker;
    assert OccursAt(s, Marker, |head|);
    forall j | 0 <= j < |head|
      ensures !OccursAt(s, Marker, j)
    {
      if j + |Marker| <= |head| {
        assert s[j..j + |Marker|] == head[j..j + |Marker|];
        assert !OccursAt(head, Marker, j);
      } else if j + |Marker| <= |s| {
        assert s[j..j + |Marker|][|head| - 1 - j] == '\n';
      }
    }
    assert s[|head| + |Marker|..] == rest;
  }

  /** `copy_summary` recovers the conclusion of a rendered response, as long
      as neither the query nor any idea contains the marker. */
  lemma ConclusionRoundTrip(query: string, ideas: seq<string>, summary: string)
    requires Free(query)
    requires forall i :: 0 <= i < |ideas| ==> Free(ideas[i])
    ensures Conclusion(Response(query, ideas, summary)) == Strip(summary)
  {
    var bullets := Bullets(ideas);
    forall i | 0 <= i < |bullets|
      ensures Free(bullets[i])
    {
      FreeAfterPlain("- ", ideas[i]);
    }
    FreeJoin(bullets);
    var joined := Join(bullets, "\n\n");
    FreeAfterPlain(QueryHeader, query);
    var a := QueryHeader + query;
    FreePlain("\n\n");
    FreeAcrossNewline(a, "\n\n");
    FreePlain(IdeasHeader);
    FreeAcrossNewline(a + "\n\n", IdeasHeader);
    var c := a + "\n\n" + IdeasHeader;
    FreeAcrossNewline(c, joined);
    FreeAcrossNewline(c + joined, "\n\n");
    var head := c + joined + "\n\n";
    assert Response(query, ideas, summary) == head + Marker + ("\n" + summary);
    SplitAtMarker(head, "\n" + summary);
    StripSkipsSpace('\n', summary);
  }
}
