/** `summarize_texts`, the extractive summarizer: every text is split into
    sentences after `.`, `!` or `?`; each sentence scores the summed
    frequencies, over the whole input, of its lower-cased words; the
    sentences are stably sorted by descending score and the best
    `max_sentences` are joined with spaces. */
module Summarize {
  import opened Text

  /** Returned when there is no sentence at all. */
  const Sentinel: string := "Could not generate a short summary."

  /** The default of `max_sentences`. */
  const DefaultMaxSentences: nat := 3

  // ---------------------------------------------------------------------
  // re.split(r'(?<=[.!?]) +', txt)

  predicate IsTerminal(c: char) {
    c == '.' || c == '!' || c == '?'
  }

  /** Where the pattern can match: a space right after `.`, `!` or `?`. */
  predicate IsBreak(s: string, p: int) {
    1 <= p < |s| && s[p] == ' ' && IsTerminal(s[p - 1])
  }

  /** The leftmost match at or after `from`, or `|s|` when there is none. */
  function FirstBreak(s: string, from: nat): (p: nat)
    ensures p <= |s|
    ensures p < |s| ==> from <= p && IsBreak(s, p)
    ensures forall q :: from <= q < p ==> !IsBreak(s, q)
    decreases |s| - from
  {
    if from >= |s| then |s|
    else if IsBreak(s, from) then from
    else FirstBreak(s, from + 1)
  }

  /** The end of the run of spaces that starts at `p` (` +` is greedy). */
  function SpaceRunEnd(s: string, p: nat): (q: nat)
    requires p <= |s|
    ensures p <= q <= |s|
    ensures forall i :: p <= i < q ==> s[i] == ' '
    ensures q < |s| ==> s[q] != ' '
    decreases |s| - p
  {
    if p < |s| && s[p] == ' ' then SpaceRunEnd(s, p + 1) else p
  }

  /** The parts `re.split` returns: the text between matches, so there is
      always at least one part (`[""]` for the empty string). */
  function SplitSentences(s: string): (parts: seq<string>)
    ensures |parts| >= 1
    decreases |s|
  {
    var p := FirstBreak(s, 1);
    if p == |s| then [s]
    else [s[..p]] + SplitSentences(s[SpaceRunEnd(s, p)..])
  }

  /** The sentences of every text, text after text. */
  function AllSentences(texts: seq<string>): seq<string> {
    if texts == [] then []
    else AllSentences(texts[..|texts| - 1]) + SplitSentences(texts[|texts| - 1])
  }

  /** The loop that fills `sentences`. */
  method CollectSentences(texts: seq<string>) returns (sentences: seq<string>)
    ensures sentences == AllSentences(texts)
  {
    sentences := [];
    for i := 0 to |texts|
      invariant sentences == AllSentences(texts[..i])
    {
      assert texts[..i + 1][..i] == texts[..i];
      var parts := SplitSentences(texts[i]);
      sentences := sentences + parts;
    }
    assert texts[..|texts|] == texts;
  }

  // ---------------------------------------------------------------------
  // Scoring

  /** `Counter(" ".join(sentences).lower().split())`. */
  function WordFreq(sentences: seq<string>): multiset<string> {
    multiset(Words(Lower(Join(sentences, " "))))
  }

  /** `sum(word_freq.get(w, 0) for w in ws)`. */
  function SumFreq(ws: seq<string>, freq: multiset<string>): nat {
    if ws == [] then 0 else freq[ws[0]] + SumFreq(ws[1..], freq)
  }

  /** The sort key of one sentence. */
  function Score(s: string, freq: multiset<string>): nat {
    SumFreq(Words(Lower(s)), freq)
  }

  function Scores(sentences: seq<string>): (keys: seq<nat>)
    ensures |keys| == |sentences|
  {
    var freq := WordFreq(sentences);
    seq(|sentences|, i requires 0 <= i < |sentences| => Score(sentences[i], freq))
  }

  // ---------------------------------------------------------------------
  // sorted(..., key=score, reverse=True): stable, descending

  /** Sentence `a` comes before sentence `b`: a higher score, or the same
      score and an earlier position (stability). */
  predicate Before(keys: seq<nat>, a: nat, b: nat)
    requires a < |keys| && b < |keys|
  {
    keys[a] > keys[b] || (keys[a] == keys[b] && a < b)
  }

  /** `r` lists sentence indices in `Before` order. */
  predicate RankedBy(keys: seq<nat>, r: seq<nat>) {
    (forall i :: 0 <= i < |r| ==> r[i] < |keys|)
    && (forall i, j :: 0 <= i < j < |r| ==> Before(keys, r[i], r[j]))
  }

  function Range(n: nat): (r: seq<nat>)
    ensures |r| == n && forall i :: 0 <= i < n ==> r[i] == i
  {
    if n == 0 then [] else Range(n - 1) + [n - 1]
  }

  /** Inserts index `x` before the first index it comes before. */
  function Insert(keys: seq<nat>, x: nat, r: seq<nat>): (r': seq<nat>)
    requires x < |keys| && forall i :: 0 <= i < |r| ==> r[i] < |keys|
    ensures |r'| == |r| + 1
    ensures forall i :: 0 <= i < |r'| ==> r'[i] < |keys|
  {
    if r == [] then [x]
    else if Before(keys, x, r[0]) then [x] + r
    else [r[0]] + Insert(keys, x, r[1..])
  }

  lemma HeadBeforeRest(keys: seq<nat>, r: seq<nat>)
    requires RankedBy(keys, r) && r != []
    ensures RankedBy(keys, r[1..])
    ensures forall y :: y in r[1..] ==> Before(keys, r[0], y)
  {
    forall y | y in r[1..]
      ensures Before(keys, r[0], y)
    {
      var k :| 0 <= k < |r[1..]| && r[1..][k] == y;
      assert r[k + 1] == y;
    }
  }

  /** Inserting adds exactly the new index. */
  lemma {:induction false} InsertElements(keys: seq<nat>, x: nat, r: seq<nat>)
    requires x < |keys| && forall i :: 0 <= i < |r| ==> r[i] < |keys|
    ensures multiset(Insert(keys, x, r)) == multiset(r) + multiset{x}
  {
    if r != [] && !Before(keys, x, r[0]) {
      InsertElements(keys, x, r[1..]);
      assert r == [r[0]] + r[1..];
    }
  }

  /** A head that comes before every later element extends a ranked list. */
  lemma ConsRanked(keys: seq<nat>, h: nat, rest: seq<nat>)
    requires h < |keys| && RankedBy(keys, rest)
    requires forall j :: 0 <= j < |rest| ==> Before(keys, h, rest[j])
    ensures RankedBy(keys, [h] + rest)
  {
    var r := [h] + rest;
    forall i, j | 0 <= i < j < |r|
      ensures Before(keys, r[i], r[j])
    {
      assert r[j] == rest[j - 1];
      if i > 0 {
        assert r[i] == rest[i - 1];
      }
    }
  }

  /** Inserting a new index into a ranked list keeps it ranked. */
  lemma {:induction false} InsertRanked(keys: seq<nat>, x: nat, r: seq<nat>)
    requires x < |keys| && RankedBy(keys, r) && x !in r
    ensures RankedBy(keys, Insert(keys, x, r))
  {
    if r == [] {
    } else if Before(keys, x, r[0]) {
      forall j | 0 <= j < |r|
        ensures Before(keys, x, r[j])
      {
        if j > 0 {
          assert Before(keys, r[0], r[j]);
        }
      }
      ConsRanked(keys, x, r);
    } else {
      var tail := r[1..];
      var rest := Insert(keys, x, tail);
      HeadBeforeRest(keys, r);
      assert x !in tail;
      InsertRanked(keys, x, tail);
      InsertElements(keys, x, tail);
      assert Before(keys, r[0], x) by {
        assert x != r[0];
      }
      forall j | 0 <= j < |rest|
        ensures Before(keys, r[0], rest[j])
      {
        assert rest[j] in multiset(rest);
        assert rest[j] == x || rest[j] in tail;
      }
      ConsRanked(keys, r[0], rest);
    }
  }

  /** One more index keeps the order ranked and the indices `0 .. n`. */
  lemma RankStep(keys: seq<nat>, n: nat, r: seq<nat>)
    requires n < |keys| && RankedBy(keys, r) && multiset(r) == multiset(Range(n))
    ensures RankedBy(keys, Insert(keys, n, r))
    ensures multiset(Insert(keys, n, r)) == multiset(Range(n + 1))
  {
    assert n !in r by {
      assert n !in multiset(Range(n));
    }
    InsertRanked(keys, n, r);
    InsertElements(keys, n, r);
    assert Range(n + 1) == Range(n) + [n];
  }

  /** The indices `0 .. n-1` in the order `sorted` puts their sentences. */
  function RankOrder(keys: seq<nat>, n: nat): (r: seq<nat>)
    requires n <= |keys|
    ensures RankedBy(keys, r)
    ensures multiset(r) == multiset(Range(n))
    ensures |r| == n
  {
    if n == 0 then []
    else
      var r := RankOrder(keys, n - 1);
      RankStep(keys, n - 1, r);
      Insert(keys, n - 1, r)
  }

  /** The indices of the sentences `ranked[:max_sentences]` keeps. */
  function ChosenIndices(sentences: seq<string>, maxSentences: nat): seq<nat> {
    Take(RankOrder(Scores(sentences), |sentences|), maxSentences)
  }

  /** `ranked[:max_sentences]`. */
  function TopSentences(sentences: seq<string>, maxSentences: nat): seq<string> {
    var chosen := ChosenIndices(sentences, maxSentences);
    seq(|chosen|, i requires 0 <= i < |chosen| =>
      assert chosen[i] in RankOrder(Scores(sentences), |sentences|);
      sentences[chosen[i]])
  }

  /** What `summarize_texts` returns: the sentinel for no texts, otherwise
      the top sentences, highest score first, joined by spaces and
      stripped. Either way `strip()` leaves it as it is. */
  function Summary(texts: seq<string>, maxSentences: nat): (r: string)
    ensures texts == [] ==> r == Sentinel
    ensures Strip(r) == r
  {
    if texts == [] then
      StripUnpadded(Sentinel);
      Sentinel
    else
      var joined := Join(TopSentences(AllSentences(texts), maxSentences), " ");
      StripIdempotent(joined);
      Strip(joined)
  }

  /** `summarize_texts(texts, max_sentences)`. */
  method SummarizeTexts(texts: seq<string>, maxSentences: nat) returns (summary: string)
    ensures texts == [] ==> summary == Sentinel
    ensures texts != [] ==> summary == Strip(Join(TopSentences(AllSentences(texts), maxSentences), " "))
    ensures summary == Summary(texts, maxSentences)
  {
    var sentences := CollectSentences(texts);
    if sentences == [] {
      return Sentinel;
    }
    AllSentencesCount(texts);
    var ranked := TopSentences(sentences, maxSentences);
    summary := Strip(Join(ranked, " "));
  }

  // ---------------------------------------------------------------------
  // Properties

  /** Every text gives at least one sentence, so there are no sentences
      exactly when there are no texts: the sentinel is returned for an
      empty input and only then. */
  lemma {:induction false} AllSentencesCount(texts: seq<string>)
    ensures |AllSentences(texts)| >= |texts|
    ensures AllSentences(texts) == [] <==> texts == []
  {
    if texts != [] {
      AllSentencesCount(texts[..|texts| - 1]);
    }
  }

  /** Every part but the last ends at a `.`, `!` or `?`. */
  lemma {:induction false} SplitPartsEndWithPunctuation(s: string)
    ensures forall i :: 0 <= i < |SplitSentences(s)| - 1 ==>
              SplitSentences(s)[i] != [] && IsTerminal(SplitSentences(s)[i][|SplitSentences(s)[i]| - 1])
    decreases |s|
  {
    var p := FirstBreak(s, 1);
    if p < |s| {
      var rest := s[SpaceRunEnd(s, p)..];
      SplitPartsEndWithPunctuation(rest);
      var parts := SplitSentences(s);
      assert parts == [s[..p]] + SplitSentences(rest);
      forall i | 0 <= i < |parts| - 1
        ensures parts[i] != [] && IsTerminal(parts[i][|parts[i]| - 1])
      {
        if i > 0 {
          assert parts[i] == SplitSentences(rest)[i - 1];
        }
      }
    }
  }

  /** Where every match is a single space, joining the parts with a space
      gives the text back: the split loses nothing else. */
  lemma {:induction false} SplitJoinRoundTrip(s: string)
    requires NoDoubleSpace(s)
    ensures Join(SplitSentences(s), " ") == s
    decreases |s|
  {
    var p := FirstBreak(s, 1);
    if p < |s| {
      assert SpaceRunEnd(s, p) == p + 1 by {
        assert p + 1 < |s| ==> s[p + 1] != ' ';
      }
      var rest := s[p + 1..];
      NoDoubleSpaceSuffix(s, p + 1);
      SplitJoinRoundTrip(rest);
      var tail := SplitSentences(rest);
      assert SplitSentences(s) == [s[..p]] + tail;
      JoinCons(s[..p], tail);
      assert s == s[..p] + " " + rest;
    }
  }

  predicate NoDoubleSpace(s: string) {
    forall i :: 0 <= i < |s| - 1 ==> !(s[i] == ' ' && s[i + 1] == ' ')
  }

  lemma NoDoubleSpaceSuffix(s: string, q: nat)
    requires NoDoubleSpace(s) && q <= |s|
    ensures NoDoubleSpace(s[q..])
  {
    var rest := s[q..];
    forall i | 0 <= i < |rest| - 1
      ensures !(rest[i] == ' ' && rest[i + 1] == ' ')
    {
      assert rest[i] == s[q + i] && rest[i + 1] == s[q + i + 1];
    }
  }

  lemma JoinCons(head: string, tail: seq<string>)
    requires tail != []
    ensures Join([head] + tail, " ") == head + " " + Join(tail, " ")
  {
    assert ([head] + tail)[1..] == tail;
  }

  /** The summary holds `min(max_sentences, #sentences)` sentences. */
  lemma TopSentencesCount(sentences: seq<string>, maxSentences: nat)
    ensures |TopSentences(sentences, maxSentences)|
            == if maxSentences < |sentences| then maxSentences else |sentences|
  {
  }

  /** The chosen sentences come in descending score; equal scores keep
      their original order. */
  lemma TopSentencesOrdered(sentences: seq<string>, maxSentences: nat, i: nat, j: nat)
    requires i < j < |TopSentences(sentences, maxSentences)|
    ensures Score(TopSentences(sentences, maxSentences)[i], WordFreq(sentences))
            >= Score(TopSentences(sentences, maxSentences)[j], WordFreq(sentences))
    ensures ChosenIndices(sentences, maxSentences)[i] < ChosenIndices(sentences, maxSentences)[j]
            || Score(TopSentences(sentences, maxSentences)[i], WordFreq(sentences))
               > Score(TopSentences(sentences, maxSentences)[j], WordFreq(sentences))
  {
    var r := RankOrder(Scores(sentences), |sentences|);
    assert Before(Scores(sentences), r[i], r[j]);
  }

  /** A sentence left out scores no more than any chosen one, and on a tie
      it comes later in the text: the summary is the best
      `max_sentences` by score, earliest first among equals. */
  lemma TopSentencesAreBest(sentences: seq<string>, maxSentences: nat, i: nat, k: nat)
    requires i < |ChosenIndices(sentences, maxSentences)|
    requires k < |sentences| && k !in ChosenIndices(sentences, maxSentences)
    ensures Scores(sentences)[ChosenIndices(sentences, maxSentences)[i]] >= Scores(sentences)[k]
    ensures Scores(sentences)[ChosenIndices(sentences, maxSentences)[i]] == Scores(sentences)[k]
            ==> ChosenIndices(sentences, maxSentences)[i] < k
  {
    var keys := Scores(sentences);
    var r := RankOrder(keys, |sentences|);
    var chosen := ChosenIndices(sentences, maxSentences);
    assert k in multiset(Range(|sentences|)) by {
      assert Range(|sentences|)[k] == k;
    }
    assert k in r;
    var j :| 0 <= j < |r| && r[j] == k;
    assert forall m :: 0 <= m < |chosen| ==> chosen[m] == r[m];
    assert Before(keys, r[i], r[j]);
  }
}
