/** The handful of Python `str` operations the bot relies on, stated over
    `seq<char>`: `isspace`, `split()`, `strip()`, `sep.join`, `lower`,
    `replace` and `split(sep, 1)[-1]`. */
module Text {
  import opened Wrappers

  /** Python's `str.isspace()` for one character: the ASCII controls TAB..CR
      and FS..US, the space, and the Unicode separators Python counts. */
  predicate IsSpace(c: char) {
    c == ' ' || ('\t' <= c <= '\r') || ('\U{1C}' <= c <= '\U{1F}')
    || c == '\U{85}' || c == '\U{A0}' || c == '\U{1680}'
    || ('\U{2000}' <= c <= '\U{200A}') || c == '\U{2028}' || c == '\U{2029}'
    || c == '\U{202F}' || c == '\U{205F}' || c == '\U{3000}'
  }

  /** A token produced by `split()`: non-empty, no whitespace. */
  predicate IsWord(w: string) {
    w != [] && forall i :: 0 <= i < |w| ==> !IsSpace(w[i])
  }

  /** `s.lstrip()`: drops exactly the leading whitespace. */
  function TrimStart(s: string): (r: string)
    ensures |r| <= |s| && r == s[|s| - |r|..]
    ensures forall i :: 0 <= i < |s| - |r| ==> IsSpace(s[i])
    ensures r == [] || !IsSpace(r[0])
  {
    if s != [] && IsSpace(s[0]) then TrimStart(s[1..]) else s
  }

  /** `s.rstrip()`: drops exactly the trailing whitespace. */
  function TrimEnd(s: string): (r: string)
    ensures |r| <= |s| && r == s[..|r|]
    ensures forall i :: |r| <= i < |s| ==> IsSpace(s[i])
    ensures r == [] || !IsSpace(r[|r| - 1])
  {
    if s != [] && IsSpace(s[|s| - 1]) then TrimEnd(s[..|s| - 1]) else s
  }

  /** `s.strip()`: neither starts nor ends with whitespace. */
  function Strip(s: string): (r: string)
    ensures |r| <= |s|
    ensures r == [] || (!IsSpace(r[0]) && !IsSpace(r[|r| - 1]))
  {
    var t := TrimStart(s);
    var r := TrimEnd(t);
    assert r == [] || r[0] == t[0];
    r
  }

  /** `r` is what remains of `s` once its first `k` characters and its
      last `|s| - k - |r|` characters, all of them whitespace, are dropped. */
  predicate Trimmed(s: string, k: nat, r: string) {
    k + |r| <= |s| && r == s[k..k + |r|]
    && (forall i :: 0 <= i < k ==> IsSpace(s[i]))
    && (forall i :: k + |r| <= i < |s| ==> IsSpace(s[i]))
  }

  /** `s.strip()` is the piece of `s` that starts after its leading
      whitespace, and every character it drops at either end is whitespace. */
  lemma {:induction false} StripPiece(s: string)
    ensures Trimmed(s, |s| - |TrimStart(s)|, Strip(s))
  {
    var t := TrimStart(s);
    var r := TrimEnd(t);
    assert Strip(s) == r;
    TrimmedPiece(s, t, r);
  }

  /** A prefix `r` of a suffix `t` of `s`, where `t` drops only whitespace
      from `s` and `r` only whitespace from `t`, is trimmed from `s`. */
  lemma TrimmedPiece(s: string, t: string, r: string)
    requires |t| <= |s| && t == s[|s| - |t|..]
    requires forall i :: 0 <= i < |s| - |t| ==> IsSpace(s[i])
    requires |r| <= |t| && r == t[..|r|]
    requires forall i :: |r| <= i < |t| ==> IsSpace(t[i])
    ensures Trimmed(s, |s| - |t|, r)
  {
    var k := |s| - |t|;
    forall i | k + |r| <= i < |s|
      ensures IsSpace(s[i])
    {
      assert s[i] == t[i - k];
    }
  }

  /** The first index at or after `i` that is not whitespace, or `|s|`. */
  function SkipSpace(s: string, i: nat): (j: nat)
    requires i <= |s|
    ensures i <= j <= |s|
    ensures forall k :: i <= k < j ==> IsSpace(s[k])
    ensures j < |s| ==> !IsSpace(s[j])
    decreases |s| - i
  {
    if i < |s| && IsSpace(s[i]) then SkipSpace(s, i + 1) else i
  }

  /** The first index at or after `i` that is whitespace, or `|s|`. */
  function SkipWord(s: string, i: nat): (j: nat)
    requires i <= |s|
    ensures i <= j <= |s|
    ensures forall k :: i <= k < j ==> !IsSpace(s[k])
    ensures j < |s| ==> IsSpace(s[j])
    decreases |s| - i
  {
    if i < |s| && !IsSpace(s[i]) then SkipWord(s, i + 1) else i
  }

  /** The tokens of `s[i..]`. */
  function WordsFrom(s: string, i: nat): seq<string>
    requires i <= |s|
    decreases |s| - i
  {
    var j := SkipSpace(s, i);
    if j == |s| then []
    else
      var k := SkipWord(s, j);
      [s[j..k]] + WordsFrom(s, k)
  }

  /** `s.split()` with no separator: the maximal runs of non-whitespace. */
  function Words(s: string): seq<string> {
    WordsFrom(s, 0)
  }

  /** `sep.join(parts)`. */
  function Join(parts: seq<string>, sep: string): string {
    if parts == [] then ""
    else if |parts| == 1 then parts[0]
    else parts[0] + sep + Join(parts[1..], sep)
  }

  function LowerChar(c: char): char {
    if 'A' <= c <= 'Z' then (c as int + 32) as char else c
  }

  /** `s.lower()`, on the ASCII letters. */
  function Lower(s: string): string {
    seq(|s|, i requires 0 <= i < |s| => LowerChar(s[i]))
  }

  /** `s.replace(a, b)` for single characters. */
  function ReplaceChar(s: string, a: char, b: char): string {
    seq(|s|, i requires 0 <= i < |s| => if s[i] == a then b else s[i])
  }

  /** The first `n` elements, as Python's `xs[:n]` for `n >= 0`. */
  function Take<T>(xs: seq<T>, n: nat): (r: seq<T>)
    ensures |r| == if n < |xs| then n else |xs|
    ensures r == xs[..|r|]
  {
    if n < |xs| then xs[..n] else xs
  }

  predicate OccursAt(s: string, pat: string, i: nat) {
    i + |pat| <= |s| && s[i..i + |pat|] == pat
  }

  /** `s.find(pat, from)` as an option: the first occurrence at or after `from`. */
  function FindFrom(s: string, pat: string, from: nat): (r: Option<nat>)
    ensures r.Some? ==> from <= r.value && OccursAt(s, pat, r.value)
    ensures r.Some? ==> forall j :: from <= j < r.value ==> !OccursAt(s, pat, j)
    ensures r.None? ==> forall j :: from <= j ==> !OccursAt(s, pat, j)
    decreases |s| - from
  {
    if from + |pat| > |s| then None
    else if OccursAt(s, pat, from) then Some(from)
    else FindFrom(s, pat, from + 1)
  }

  /** `s.split(sep, 1)[-1]`: what follows the first `sep`, or all of `s`. */
  function AfterFirst(s: string, sep: string): string {
    match FindFrom(s, sep, 0)
    case None => s
    case Some(i) => s[i + |sep|..]
  }

  // ---------------------------------------------------------------------
  // Properties

  /** Leading whitespace is invisible to `strip()`. */
  lemma StripSkipsSpace(c: char, s: string)
    requires IsSpace(c)
    ensures Strip([c] + s) == Strip(s)
  {
    assert ([c] + s)[1..] == s;
  }

  /** A text that neither starts nor ends with whitespace is left as it
      is by `strip()`. */
  lemma StripUnpadded(s: string)
    requires s == [] || (!IsSpace(s[0]) && !IsSpace(s[|s| - 1]))
    ensures Strip(s) == s
  {
  }

  /** `strip()` is idempotent. */
  lemma StripIdempotent(s: string)
    ensures Strip(Strip(s)) == Strip(s)
  {
    var t := TrimStart(s);
    var r := TrimEnd(t);
    if r != [] {
      assert r[0] == t[0];
    }
  }

  /** Every token of `split()` is a word. */
  lemma {:induction false} WordsFromAreWords(s: string, i: nat)
    requires i <= |s|
    ensures forall t :: 0 <= t < |WordsFrom(s, i)| ==> IsWord(WordsFrom(s, i)[t])
    decreases |s| - i
  {
    var j := SkipSpace(s, i);
    if j < |s| {
      var k := SkipWord(s, j);
      WordsFromAreWords(s, k);
      var ws := WordsFrom(s, i);
      assert ws == [s[j..k]] + WordsFrom(s, k);
      assert IsWord(s[j..k]);
      forall t | 0 < t < |ws|
        ensures IsWord(ws[t])
      {
        assert ws[t] == WordsFrom(s, k)[t - 1];
      }
    }
  }

  lemma WordsAreWords(s: string)
    ensures forall t :: 0 <= t < |Words(s)| ==> IsWord(Words(s)[t])
  {
    WordsFromAreWords(s, 0);
  }

  /** `t` is what follows the first `d` characters of `s`. */
  predicate ShiftedBy(s: string, t: string, d: nat) {
    |s| == d + |t| && forall k :: 0 <= k < |t| ==> s[d + k] == t[k]
  }

  lemma ShiftedByConcat(a: string, b: string)
    ensures ShiftedBy(a + b, b, |a|)
  {
  }

  lemma {:induction false} SkipSpaceShift(s: string, t: string, d: nat, i: nat)
    requires ShiftedBy(s, t, d) && i <= |t|
    ensures SkipSpace(s, d + i) == d + SkipSpace(t, i)
    decreases |t| - i
  {
    if i < |t| && IsSpace(t[i]) {
      SkipSpaceShift(s, t, d, i + 1);
    }
  }

  lemma {:induction false} SkipWordShift(s: string, t: string, d: nat, i: nat)
    requires ShiftedBy(s, t, d) && i <= |t|
    ensures SkipWord(s, d + i) == d + SkipWord(t, i)
    decreases |t| - i
  {
    if i < |t| && !IsSpace(t[i]) {
      SkipWordShift(s, t, d, i + 1);
    }
  }

  lemma WordsFromUnfold(s: string, i: nat)
    requires i <= |s| && SkipSpace(s, i) < |s|
    ensures WordsFrom(s, i) == [s[SkipSpace(s, i)..SkipWord(s, SkipSpace(s, i))]] + WordsFrom(s, SkipWord(s, SkipSpace(s, i)))
  {
  }

  lemma ShiftedSlice(s: string, t: string, d: nat, j: nat, k: nat)
    requires ShiftedBy(s, t, d) && j <= k <= |t|
    ensures s[d + j..d + k] == t[j..k]
  {
    forall m | 0 <= m < k - j
      ensures s[d + j..d + k][m] == t[j..k][m]
    {
      assert s[d + j + m] == t[j + m];
    }
  }

  /** Text in front does not change the tokens found after it. */
  lemma {:induction false} WordsFromShift(s: string, t: string, d: nat, i: nat)
    requires ShiftedBy(s, t, d) && i <= |t|
    ensures WordsFrom(s, d + i) == WordsFrom(t, i)
    decreases |t| - i
  {
    var j := SkipSpace(t, i);
    SkipSpaceShift(s, t, d, i);
    if j < |t| {
      var k := SkipWord(t, j);
      SkipWordShift(s, t, d, j);
      ShiftedSlice(s, t, d, j, k);
      WordsFromShift(s, t, d, k);
      WordsFromUnfold(s, d + i);
      WordsFromUnfold(t, i);
      assert WordsFrom(s, d + i) == [s[d + j..d + k]] + WordsFrom(s, d + k);
      assert WordsFrom(t, i) == [t[j..k]] + WordsFrom(t, k);
    } else {
      assert SkipSpace(s, d + i) == |s|;
    }
  }

  /** A word followed by nothing or by whitespace is the first token. */
  lemma WordsCons(w: string, rest: string)
    requires IsWord(w)
    requires rest == [] || IsSpace(rest[0])
    ensures Words(w + rest) == [w] + Words(rest)
  {
    var s := w + rest;
    assert s[0] == w[0];
    assert SkipSpace(s, 0) == 0;
    var k := SkipWord(s, 0);
    assert k == |w| by {
      assert forall t :: 0 <= t < |w| ==> s[t] == w[t];
      if rest != [] {
        assert s[|w|] == rest[0];
      }
    }
    assert s[0..k] == w;
    ShiftedByConcat(w, rest);
    WordsFromShift(s, rest, |w|, 0);
  }

  /** A leading space is invisible to `split()`. */
  lemma WordsSkipSpace(s: string)
    ensures Words(" " + s) == Words(s)
  {
    assert SkipSpace(" " + s, 0) == SkipSpace(" " + s, 1);
    ShiftedByConcat(" ", s);
    WordsFromShift(" " + s, s, 1, 0);
  }

  lemma ConcatAssoc(a: string, b: string, c: string)
    ensures a + b + c == a + (b + c)
  {
  }

  /** One step of `split()` over `" ".join`: the first word comes off. */
  lemma WordsOfJoinStep(ws: seq<string>)
    requires |ws| > 1 && IsWord(ws[0])
    ensures Words(Join(ws, " ")) == [ws[0]] + Words(Join(ws[1..], " "))
  {
    var tail := Join(ws[1..], " ");
    ConcatAssoc(ws[0], " ", tail);
    WordsCons(ws[0], " " + tail);
    WordsSkipSpace(tail);
  }

  /** `split()` undoes `" ".join` on tokens: the two are inverse on words. */
  lemma {:induction false} WordsOfJoin(ws: seq<string>)
    requires forall i :: 0 <= i < |ws| ==> IsWord(ws[i])
    ensures Words(Join(ws, " ")) == ws
  {
    if |ws| == 1 {
      WordsCons(ws[0], "");
      assert ws[0] + "" == ws[0];
    } else if |ws| > 1 {
      WordsOfJoinStep(ws);
      WordsOfJoin(ws[1..]);
      assert ws == [ws[0]] + ws[1..];
    }
  }

  /** `replace(a, b)` is undone by `replace(b, a)` when `b` did not occur. */
  lemma ReplaceCharRoundTrip(s: string, a: char, b: char)
    requires forall i :: 0 <= i < |s| ==> s[i] != b
    ensures ReplaceChar(ReplaceChar(s, a, b), b, a) == s
    ensures forall i :: 0 <= i < |s| ==> ReplaceChar(s, a, b)[i] != a || a == b
  {
  }
}
