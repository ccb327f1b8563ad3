/** The round-robin link merge of `find_handler`: the per-site link lists
    are read column by column (every site's first link, then every site's
    second link, ...) and appended to one list until it holds five links or
    a pass finds nothing more. Duplicates are kept: nothing is checked
    before a link is appended. */
module Merge {

  /** `max_links` in `find_handler`. */
  const MaxLinks: nat := 5

  /** Column `k` of the first `|lists|` site lists: `lists[j][k]` for every
      site `j`, in site order, skipping sites with fewer than `k + 1` links. */
  function Column<T>(lists: seq<seq<T>>, k: nat): (c: seq<T>)
    ensures |c| <= |lists|
  {
    if lists == [] then []
    else
      var last := lists[|lists| - 1];
      Column(lists[..|lists| - 1], k) + (if k < |last| then [last[k]] else [])
  }

  /** Columns `0 .. n-1`, concatenated. */
  function Columns<T>(lists: seq<seq<T>>, n: nat): seq<T> {
    if n == 0 then [] else Columns(lists, n - 1) + Column(lists, n - 1)
  }

  /** The length of the longest site list. */
  function Depth<T>(lists: seq<seq<T>>): (d: nat)
    ensures forall j :: 0 <= j < |lists| ==> |lists[j]| <= d
    ensures lists != [] ==> exists j :: 0 <= j < |lists| && |lists[j]| == d
    ensures lists == [] ==> d == 0
  {
    if lists == [] then 0
    else
      var d0 := Depth(lists[..|lists| - 1]);
      var last := |lists[|lists| - 1]|;
      assert forall j :: 0 <= j < |lists| - 1 ==> lists[..|lists| - 1][j] == lists[j];
      if last <= d0 then d0 else last
  }

  /** The full column-major interleave of all site lists. */
  function Interleave<T>(lists: seq<seq<T>>): seq<T> {
    Columns(lists, Depth(lists))
  }

  /** Total number of links over all sites. */
  function Total<T>(lists: seq<seq<T>>): nat {
    if lists == [] then 0 else Total(lists[..|lists| - 1]) + |lists[|lists| - 1]|
  }

  /** `sum(min(n, len(l)) for l in lists)`: links in the first `n` columns. */
  function TotalUpTo<T>(lists: seq<seq<T>>, n: nat): nat {
    if lists == [] then 0
    else
      var last := |lists[|lists| - 1]|;
      TotalUpTo(lists[..|lists| - 1], n) + (if last < n then last else n)
  }

  /** Where `lists[j][k]` lands in the interleave: after the first `k`
      columns and after the sites before `j` that reach depth `k`. */
  function Pos<T>(lists: seq<seq<T>>, j: nat, k: nat): nat
    requires j <= |lists|
  {
    |Columns(lists, k)| + |Column(lists[..j], k)|
  }

  /** The merge loop of `find_handler`, on the per-site results in site order. */
  method MergeLinks(siteResults: seq<seq<string>>) returns (allLinks: seq<string>)
    ensures allLinks == Interleave(siteResults)[..Min(MaxLinks, |Interleave(siteResults)|)]
  {
    allLinks := [];
    var index: nat := 0;
    ghost var depth := Depth(siteResults);
    while |allLinks| < MaxLinks
      invariant index <= depth
      invariant |allLinks| <= MaxLinks
      invariant |allLinks| < MaxLinks ==> allLinks == Columns(siteResults, index)
      invariant |allLinks| == MaxLinks ==> TakesPrefix(siteResults, allLinks)
      decreases depth - index
    {
      var added;
      allLinks, added := MergePass(siteResults, index, allLinks);
      if !added {
        ExhaustedPass(siteResults, index);
        break;
      }
      index := index + 1;
    }
    MergeResult(siteResults, allLinks);
  }

  /** One pass of the `for site_links in site_results` loop at depth
      `index`: appends the `index`-th link of every site that has one,
      stopping as soon as five links are collected. */
  method MergePass(siteResults: seq<seq<string>>, index: nat, links: seq<string>)
    returns (allLinks: seq<string>, added: bool)
    requires |links| < MaxLinks && links == Columns(siteResults, index)
    ensures added == (index < Depth(siteResults))
    ensures !added ==> allLinks == links && Column(siteResults[..|siteResults|], index) == []
    ensures |allLinks| <= MaxLinks
    ensures |allLinks| < MaxLinks ==> allLinks == Columns(siteResults, index + 1)
    ensures |allLinks| == MaxLinks ==> TakesPrefix(siteResults, allLinks)
  {
    allLinks := links;
    added := false;
    var j := 0;
    while j < |siteResults|
      invariant 0 <= j <= |siteResults|
      invariant allLinks == links + Column(siteResults[..j], index)
      invariant added == (Column(siteResults[..j], index) != [])
      invariant added ==> index < Depth(siteResults)
      invariant |allLinks| < MaxLinks
    {
      ColumnStep(siteResults, j, index);
      if index < |siteResults[j]| {
        AppendAssoc(links, Column(siteResults[..j], index), siteResults[j][index]);
        allLinks := allLinks + [siteResults[j][index]];
        added := true;
        if |allLinks| >= MaxLinks {
          PartialPrefix(siteResults, index, j + 1);
          assert TakesPrefix(siteResults, allLinks) by {
            assert allLinks == Columns(siteResults, index) + Column(siteResults[..j + 1], index);
          }
          return;
        }
      }
      j := j + 1;
    }
    if added {
      FullPass(siteResults, index);
    } else {
      ColumnEmpty(siteResults, index);
      assert siteResults[..|siteResults|] == siteResults;
    }
  }

  /** `links` is the start of the interleave of `lists`. */
  ghost predicate TakesPrefix<T>(lists: seq<seq<T>>, links: seq<T>) {
    |links| <= |Interleave(lists)| && links == Interleave(lists)[..|links|]
  }

  function Min(a: nat, b: nat): nat {
    if a < b then a else b
  }

  // ---------------------------------------------------------------------
  // Lemmas about the interleave

  /** A pass over every site that added nothing ends the interleave. */
  lemma ExhaustedPass<T>(lists: seq<seq<T>>, k: nat)
    requires k <= Depth(lists) && Column(lists[..|lists|], k) == []
    ensures Columns(lists, k) == Interleave(lists)
  {
    assert lists[..|lists|] == lists;
    ColumnEmpty(lists, k);
  }

  /** A pass over every site that added something is one more column. */
  lemma FullPass<T>(lists: seq<seq<T>>, k: nat)
    requires k < Depth(lists)
    ensures Columns(lists, k) + Column(lists[..|lists|], k) == Columns(lists, k + 1)
    ensures TakesPrefix(lists, Columns(lists, k + 1))
  {
    assert lists[..|lists|] == lists;
    ColumnsPrefix(lists, k + 1, Depth(lists));
  }

  /** Both ways out of the merge loop give the first `min(5, total)` links. */
  lemma MergeResult<T>(lists: seq<seq<T>>, links: seq<T>)
    requires (|links| == MaxLinks && TakesPrefix(lists, links))
             || (|links| < MaxLinks && links == Interleave(lists))
    ensures links == Interleave(lists)[..Min(MaxLinks, |Interleave(lists)|)]
  {
  }

  /** A column of a prefix of the sites is a prefix of the full column. */
  lemma {:induction false} ColumnPrefix<T>(lists: seq<seq<T>>, j: nat, k: nat)
    requires j <= |lists|
    ensures |Column(lists[..j], k)| <= |Column(lists, k)|
    ensures Column(lists[..j], k) == Column(lists, k)[..|Column(lists[..j], k)|]
    decreases |lists| - j
  {
    if j < |lists| {
      var init := lists[..|lists| - 1];
      assert init[..j] == lists[..j];
      ColumnPrefix(init, j, k);
    } else {
      assert lists[..j] == lists;
    }
  }

  /** Part of column `k` (its first `j` sites) after the first `k` columns
      is a prefix of the interleave. */
  lemma PartialPrefix<T>(lists: seq<seq<T>>, k: nat, j: nat)
    requires j <= |lists| && k < Depth(lists)
    ensures TakesPrefix(lists, Columns(lists, k) + Column(lists[..j], k))
  {
    var before, part, col := Columns(lists, k), Column(lists[..j], k), Column(lists, k);
    ColumnPrefix(lists, j, k);
    ColumnsPrefix(lists, k + 1, Depth(lists));
    var next := Columns(lists, k + 1);
    assert next == before + col;
    PrefixOfConcat(before, col, |part|);
    PrefixOfPrefix(Interleave(lists), |next|, |before| + |part|);
  }

  lemma PrefixOfConcat<T>(a: seq<T>, b: seq<T>, n: nat)
    requires n <= |b|
    ensures a + b[..n] == (a + b)[..|a| + n]
  {
  }

  lemma PrefixOfPrefix<T>(s: seq<T>, n: nat, m: nat)
    requires m <= n <= |s|
    ensures s[..n][..m] == s[..m]
  {
  }

  /** Earlier columns form a prefix of later ones. */
  lemma {:induction false} ColumnsPrefix<T>(lists: seq<seq<T>>, m: nat, n: nat)
    requires m <= n
    ensures |Columns(lists, m)| <= |Columns(lists, n)|
    ensures Columns(lists, m) == Columns(lists, n)[..|Columns(lists, m)|]
    decreases n - m
  {
    if m < n {
      ColumnsPrefix(lists, m, n - 1);
    }
  }

  /** A column is empty exactly when no site reaches that depth. */
  lemma {:induction false} ColumnEmpty<T>(lists: seq<seq<T>>, k: nat)
    ensures Column(lists, k) == [] <==> Depth(lists) <= k
  {
    if lists != [] {
      var init := lists[..|lists| - 1];
      ColumnEmpty(init, k);
    }
  }

  /** The length of a column is the number of sites that reach its depth. */
  lemma {:induction false} ColumnsLength<T>(lists: seq<seq<T>>, n: nat)
    ensures |Columns(lists, n)| == TotalUpTo(lists, n)
  {
    if n > 0 {
      ColumnsLength(lists, n - 1);
      ColumnLengthStep(lists, n - 1);
    } else {
      TotalUpToZero(lists);
    }
  }

  lemma {:induction false} TotalUpToZero<T>(lists: seq<seq<T>>)
    ensures TotalUpTo(lists, 0) == 0
  {
    if lists != [] {
      TotalUpToZero(lists[..|lists| - 1]);
    }
  }

  lemma {:induction false} ColumnLengthStep<T>(lists: seq<seq<T>>, k: nat)
    ensures TotalUpTo(lists, k + 1) == TotalUpTo(lists, k) + |Column(lists, k)|
  {
    if lists != [] {
      ColumnLengthStep(lists[..|lists| - 1], k);
    }
  }

  lemma {:induction false} TotalUpToDepth<T>(lists: seq<seq<T>>, n: nat)
    requires forall j :: 0 <= j < |lists| ==> |lists[j]| <= n
    ensures TotalUpTo(lists, n) == Total(lists)
  {
    if lists != [] {
      var init := lists[..|lists| - 1];
      assert forall j :: 0 <= j < |init| ==> init[j] == lists[j];
      TotalUpToDepth(init, n);
    }
  }

  /** The interleave holds every link of every site: nothing is dropped and
      nothing is merged away as a duplicate. */
  lemma InterleaveLength<T>(lists: seq<seq<T>>)
    ensures |Interleave(lists)| == Total(lists)
  {
    ColumnsLength(lists, Depth(lists));
    TotalUpToDepth(lists, Depth(lists));
  }

  lemma {:induction false} TotalZero<T>(lists: seq<seq<T>>)
    ensures Total(lists) == 0 <==> forall j :: 0 <= j < |lists| ==> lists[j] == []
  {
    if lists != [] {
      var init := lists[..|lists| - 1];
      assert forall j :: 0 <= j < |init| ==> init[j] == lists[j];
      TotalZero(init);
    }
  }

  /** `lists[j][k]` sits at position `Pos(lists, j, k)` of the interleave. */
  lemma InterleaveAt<T>(lists: seq<seq<T>>, j: nat, k: nat)
    requires j < |lists| && k < |lists[j]|
    ensures Pos(lists, j, k) < |Interleave(lists)|
    ensures Interleave(lists)[Pos(lists, j, k)] == lists[j][k]
  {
    var c := Column(lists[..j], k);
    var c1 := Column(lists[..j + 1], k);
    ColumnStep(lists, j, k);
    ColumnPrefix(lists, j + 1, k);
    var col := Column(lists, k);
    assert col[|c|] == lists[j][k];
    var before := Columns(lists, k);
    assert Columns(lists, k + 1) == before + col;
    assert Columns(lists, k + 1)[|before| + |c|] == lists[j][k];
    ColumnsPrefix(lists, k + 1, Depth(lists));
  }

  /** Adding site `j` to the first `j` sites adds its link at depth `k`. */
  lemma ColumnStep<T>(lists: seq<seq<T>>, j: nat, k: nat)
    requires j < |lists|
    ensures k < |lists[j]| ==> Column(lists[..j + 1], k) == Column(lists[..j], k) + [lists[j][k]]
    ensures k >= |lists[j]| ==> Column(lists[..j + 1], k) == Column(lists[..j], k)
  {
    var upTo := lists[..j + 1];
    assert upTo[..|upTo| - 1] == lists[..j];
    assert upTo[|upTo| - 1] == lists[j];
    assert Column(lists[..j], k) + [] == Column(lists[..j], k);
  }

  lemma AppendAssoc<T>(a: seq<T>, b: seq<T>, x: T)
    ensures (a + b) + [x] == a + (b + [x])
  {
  }

  /** Column-major order: a link from a shallower depth, or from an earlier
      site at the same depth, comes first. Within one site this is "each
      site's links keep their order"; across sites at consecutive depths it
      is fairness: no site gives a second link before every site that has a
      link at the current depth has given it. Positions are distinct, so
      equal URLs from different slots are all kept. */
  lemma PosOrder<T>(lists: seq<seq<T>>, j1: nat, k1: nat, j2: nat, k2: nat)
    requires j1 < |lists| && k1 < |lists[j1]|
    requires j2 < |lists| && k2 < |lists[j2]|
    requires k1 < k2 || (k1 == k2 && j1 < j2)
    ensures Pos(lists, j1, k1) < Pos(lists, j2, k2)
  {
    var up1 := lists[..j1 + 1];
    assert up1[..j1] == lists[..j1];
    assert Column(up1, k1) == Column(lists[..j1], k1) + [lists[j1][k1]];
    if k1 < k2 {
      ColumnPrefix(lists, j1 + 1, k1);
      ColumnsPrefix(lists, k1 + 1, k2);
    } else {
      var up2 := lists[..j2];
      assert up2[..j1 + 1] == up1;
      ColumnPrefix(up2, j1 + 1, k1);
    }
  }

  /** The merged list is empty exactly when every site returned nothing,
      which is when `find_handler` answers that no articles were found. */
  lemma MergeEmpty(lists: seq<seq<string>>)
    ensures Interleave(lists)[..Min(MaxLinks, |Interleave(lists)|)] == []
            <==> forall j :: 0 <= j < |lists| ==> lists[j] == []
  {
    InterleaveLength(lists);
    TotalZero(lists);
  }

  /** The merged list has `min(5, total)` links, each at its column-major
      slot. */
  lemma MergeContents(lists: seq<seq<string>>, j: nat, k: nat)
    requires j < |lists| && k < |lists[j]|
    ensures |Interleave(lists)[..Min(MaxLinks, |Interleave(lists)|)]| == Min(MaxLinks, Total(lists))
    ensures Pos(lists, j, k) < Min(MaxLinks, Total(lists)) ==>
              Interleave(lists)[..Min(MaxLinks, |Interleave(lists)|)][Pos(lists, j, k)] == lists[j][k]
  {
    InterleaveLength(lists);
    InterleaveAt(lists, j, k);
  }

  /** No membership check comes before an append: two slots holding the
      same URL both reach the merged list, at two different positions, when
      the later of them falls within the first five. */
  lemma MergeKeepsDuplicates(lists: seq<seq<string>>, j1: nat, k1: nat, j2: nat, k2: nat)
    requires j1 < |lists| && k1 < |lists[j1]|
    requires j2 < |lists| && k2 < |lists[j2]|
    requires k1 < k2 || (k1 == k2 && j1 < j2)
    requires lists[j1][k1] == lists[j2][k2]
    requires Pos(lists, j2, k2) < Min(MaxLinks, Total(lists))
    ensures Pos(lists, j1, k1) < Pos(lists, j2, k2)
    ensures |Interleave(lists)[..Min(MaxLinks, |Interleave(lists)|)]| == Min(MaxLinks, Total(lists))
    ensures Interleave(lists)[..Min(MaxLinks, |Interleave(lists)|)][Pos(lists, j1, k1)] == lists[j1][k1]
    ensures Interleave(lists)[..Min(MaxLinks, |Interleave(lists)|)][Pos(lists, j2, k2)] == lists[j1][k1]
  {
    PosOrder(lists, j1, k1, j2, k2);
    MergeContents(lists, j1, k1);
    MergeContents(lists, j2, k2);
  }
}
