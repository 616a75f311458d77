/**
 * The recommendation pipeline of the "Get Recommendations" button: order the catalogue by
 * similarity to the description, keep the chosen category, score each kept book by the
 * mean of the chosen moods, sort by that score and cut to the requested length.
 *
 * The similarity score of every catalogue row (TF-IDF projection and cosine similarity)
 * is an input here: `scores[i]` is the score of catalogue row `i`.
 */
module Ranking {
  import opened Text
  import opened Catalogue
  import opened Sequences

  /**
   * A result row: the projected columns of one catalogue row together with the row's
   * position in the catalogue (the index label that `df.iloc` keeps and `reset_index` exposes).
   */
  datatype Record = Record(
    index: nat, isbn13: int, title: string, thumbnail: string, authors: string,
    averageRating: real, category: string, moods: MoodScores)

  /** Catalogue row `i` with the result columns selected. */
  function Project(catalogue: seq<Book>, i: nat): Record
    requires i < |catalogue|
  {
    var b := catalogue[i];
    Record(i, b.isbn13, b.title, b.thumbnail, b.authors, b.averageRating, b.category, b.moods)
  }

  /** The whole catalogue projected, in catalogue order. */
  function AllRecords(catalogue: seq<Book>): (rs: seq<Record>)
    ensures |rs| == |catalogue|
    ensures forall i :: 0 <= i < |rs| ==> rs[i] == Project(catalogue, i)
  {
    seq(|catalogue|, i requires 0 <= i < |catalogue| => Project(catalogue, i))
  }

  /** Every record of `rs` is the projection of the catalogue row it names. */
  predicate FromCatalogue(rs: seq<Record>, catalogue: seq<Book>) {
    forall k :: 0 <= k < |rs| ==> rs[k].index < |catalogue| && rs[k] == Project(catalogue, rs[k].index)
  }

  /** No catalogue row appears twice. */
  predicate DistinctIndices(rs: seq<Record>) {
    forall i, j :: 0 <= i < j < |rs| ==> rs[i].index != rs[j].index
  }

  /** No record occurs more than once. */
  ghost predicate NoDuplicates(rs: seq<Record>) {
    forall x :: multiset(rs)[x] <= 1
  }

  // ---------------------------------------------------------------------------
  // Step 1: order the catalogue by descending similarity
  // ---------------------------------------------------------------------------

  function Similarity(scores: seq<real>, r: Record): real {
    if r.index < |scores| then scores[r.index] else 0.0
  }

  /** The sort key of the ranking step. */
  function SimKey(scores: seq<real>): Record -> real {
    r => Similarity(scores, r)
  }

  /** `df.iloc[similarity_scores.argsort()[::-1]]` with the result columns projected. */
  function RankBySimilarity(catalogue: seq<Book>, scores: seq<real>): (ranked: seq<Record>)
    requires |scores| == |catalogue|
    ensures multiset(ranked) == multiset(AllRecords(catalogue))
    ensures |ranked| == |catalogue|
    ensures FromCatalogue(ranked, catalogue)
    ensures forall i :: 0 <= i < |catalogue| ==> Project(catalogue, i) in ranked
    ensures DistinctIndices(ranked)
    ensures forall i, j :: 0 <= i < j < |ranked| ==> scores[ranked[i].index] >= scores[ranked[j].index]
  {
    var ranked := SortDesc(AllRecords(catalogue), SimKey(scores));
    PermutationOfCatalogue(catalogue, ranked);
    ranked
  }

  /** A rearrangement of the projected catalogue holds every row exactly once. */
  lemma PermutationOfCatalogue(catalogue: seq<Book>, rs: seq<Record>)
    requires multiset(rs) == multiset(AllRecords(catalogue))
    ensures |rs| == |catalogue|
    ensures FromCatalogue(rs, catalogue)
    ensures forall i :: 0 <= i < |catalogue| ==> Project(catalogue, i) in rs
    ensures DistinctIndices(rs)
  {
    var all := AllRecords(catalogue);
    assert |rs| == |multiset(rs)| == |all|;
    AllRecordsNoDuplicates(catalogue);
    forall k | 0 <= k < |rs|
      ensures rs[k].index < |catalogue| && rs[k] == Project(catalogue, rs[k].index)
    {
      assert rs[k] in multiset(all);
    }
    forall i | 0 <= i < |catalogue| ensures Project(catalogue, i) in rs {
      assert all[i] in multiset(rs);
    }
    NoDuplicatesDistinctIndices(rs, catalogue);
  }

  lemma {:induction false} AllRecordsNoDuplicates(catalogue: seq<Book>)
    ensures NoDuplicates(AllRecords(catalogue))
  {
    DistinctIndicesNoDuplicates(AllRecords(catalogue));
  }

  lemma {:induction false} DistinctIndicesNoDuplicates(rs: seq<Record>)
    requires DistinctIndices(rs)
    ensures NoDuplicates(rs)
  {
    if rs != [] {
      DistinctIndicesNoDuplicates(rs[1..]);
      assert rs == [rs[0]] + rs[1..];
      assert rs[0] !in rs[1..];
    }
  }

  /** Two positions holding the same record make it occur twice. */
  lemma RepeatedCounts(rs: seq<Record>, i: nat, j: nat)
    requires i < j < |rs| && rs[i] == rs[j]
    ensures multiset(rs)[rs[i]] >= 2
  {
    assert rs == rs[..j] + [rs[j]] + rs[j + 1..];
    assert rs[..j][i] == rs[i];
    assert rs[i] in multiset(rs[..j]);
  }

  lemma NoDuplicatesDistinctIndices(rs: seq<Record>, catalogue: seq<Book>)
    requires NoDuplicates(rs) && FromCatalogue(rs, catalogue)
    ensures DistinctIndices(rs)
  {
    forall i, j | 0 <= i < j < |rs| ensures rs[i].index != rs[j].index {
      if rs[i].index == rs[j].index {
        RepeatedCounts(rs, i, j);
      }
    }
  }

  // ---------------------------------------------------------------------------
  // Step 2: keep the chosen category
  // ---------------------------------------------------------------------------

  /** The mask `simple_categories.str.lower() == category.lower()`. */
  predicate InCategory(r: Record, category: string) {
    Lower(r.category) == Lower(category)
  }

  /** Whether the category step keeps `r`: everything under "All", else the case-insensitive match. */
  predicate Keep(r: Record, category: string) {
    category == "All" || InCategory(r, category)
  }

  /** Boolean-mask indexing by `InCategory`. */
  function SelectCategory(rows: seq<Record>, category: string): (kept: seq<Record>)
    ensures forall x :: multiset(kept)[x] == if InCategory(x, category) then multiset(rows)[x] else 0
    ensures forall k :: 0 <= k < |kept| ==> InCategory(kept[k], category)
    ensures IsSubsequence(kept, rows)
  {
    if rows == [] then []
    else
      var rest := SelectCategory(rows[1..], category);
      assert rows == [rows[0]] + rows[1..];
      if InCategory(rows[0], category) then [rows[0]] + rest else rest
  }

  /** The category step of the button handler. */
  function FilterCategory(rows: seq<Record>, category: string): (kept: seq<Record>)
    ensures category == "All" ==> kept == rows
    ensures forall x :: multiset(kept)[x] == if Keep(x, category) then multiset(rows)[x] else 0
    ensures forall k :: 0 <= k < |kept| ==> Keep(kept[k], category)
    ensures IsSubsequence(kept, rows)
  {
    if category == "All" then
      SubsequenceReflexive(rows);
      rows
    else SelectCategory(rows, category)
  }

  lemma {:induction false} SubsequenceReflexive(s: seq<Record>)
    ensures IsSubsequence(s, s)
  {
    if s != [] {
      SubsequenceReflexive(s[1..]);
    }
  }

  /** Filtering a permutation gives a permutation of the filtered rows. */
  lemma FilterPermutation(a: seq<Record>, b: seq<Record>, category: string)
    requires multiset(a) == multiset(b)
    ensures multiset(FilterCategory(a, category)) == multiset(FilterCategory(b, category))
    ensures |FilterCategory(a, category)| == |FilterCategory(b, category)|
  {
    var fa, fb := FilterCategory(a, category), FilterCategory(b, category);
    assert forall x :: multiset(fa)[x] == multiset(fb)[x];
    assert multiset(fa) == multiset(fb);
    assert |multiset(fa)| == |fa| && |multiset(fb)| == |fb|;
  }

  // ---------------------------------------------------------------------------
  // Step 3: mean of the chosen moods, and the sort by it
  // ---------------------------------------------------------------------------

  function SumScores(m: MoodScores, sel: seq<Mood>): real {
    if sel == [] then 0.0 else m.Score(sel[0]) + SumScores(m, sel[1..])
  }

  /**
   * `filter_df[mood].mean(axis=1)` for one row. Over no columns the mean is NaN,
   * written `None` here.
   */
  function MoodAvg(r: Record, sel: seq<Mood>): (avg: Option<real>)
    ensures avg.Some? <==> |sel| > 0
    ensures avg.Some? ==> avg.value * (|sel| as real) == SumScores(r.moods, sel)
  {
    if |sel| == 0 then None else Some(SumScores(r.moods, sel) / (|sel| as real))
  }

  lemma {:induction false} SumScoresBounds(m: MoodScores, sel: seq<Mood>, lo: real, hi: real)
    requires forall k :: 0 <= k < |sel| ==> lo <= m.Score(sel[k]) <= hi
    ensures lo * (|sel| as real) <= SumScores(m, sel) <= hi * (|sel| as real)
  {
    if sel != [] {
      var n := |sel[1..]| as real;
      SumScoresBounds(m, sel[1..], lo, hi);
      assert lo * (|sel| as real) == lo + lo * n;
      assert hi * (|sel| as real) == hi + hi * n;
      assert lo <= m.Score(sel[0]) <= hi;
    }
  }

  /** The mean lies between the least and the greatest selected score. */
  lemma MoodAvgWithin(r: Record, sel: seq<Mood>, lo: real, hi: real)
    requires |sel| > 0
    requires forall k :: 0 <= k < |sel| ==> lo <= r.moods.Score(sel[k]) <= hi
    ensures lo <= MoodAvg(r, sel).value <= hi
  {
    SumScoresBounds(r.moods, sel, lo, hi);
  }

  lemma {:induction false} SumScoresAppend(m: MoodScores, a: seq<Mood>, b: seq<Mood>)
    ensures SumScores(m, a + b) == SumScores(m, a) + SumScores(m, b)
  {
    if a != [] {
      assert (a + b)[0] == a[0];
      assert (a + b)[1..] == a[1..] + b;
      SumScoresAppend(m, a[1..], b);
      assert SumScores(m, a + b) == m.Score(a[0]) + SumScores(m, a[1..] + b);
    } else {
      assert a + b == b;
    }
  }

  lemma SumScoresRemove(m: MoodScores, b: seq<Mood>, j: nat)
    requires j < |b|
    ensures SumScores(m, b) == m.Score(b[j]) + SumScores(m, b[..j] + b[j + 1..])
  {
    assert b == b[..j] + ([b[j]] + b[j + 1..]);
    SumScoresAppend(m, b[..j], [b[j]] + b[j + 1..]);
    SumScoresAppend(m, b[..j], b[j + 1..]);
    assert ([b[j]] + b[j + 1..])[1..] == b[j + 1..];
  }

  lemma {:induction false} SumScoresPermutation(m: MoodScores, a: seq<Mood>, b: seq<Mood>)
    requires multiset(a) == multiset(b)
    ensures SumScores(m, a) == SumScores(m, b)
    decreases |a|
  {
    if a != [] {
      assert a[0] in multiset(b);
      var j :| 0 <= j < |b| && b[j] == a[0];
      var b' := b[..j] + b[j + 1..];
      RemoveAt(b, j);
      assert a == [a[0]] + a[1..];
      assert multiset(a[1..]) == multiset(a) - multiset{a[0]};
      SumScoresPermutation(m, a[1..], b');
      SumScoresRemove(m, b, j);
    } else {
      assert |multiset(b)| == 0;
    }
  }

  /** The order in which the moods were picked does not change the mean. */
  lemma MoodAvgSelectionOrder(r: Record, sel1: seq<Mood>, sel2: seq<Mood>)
    requires multiset(sel1) == multiset(sel2)
    ensures MoodAvg(r, sel1) == MoodAvg(r, sel2)
  {
    SumScoresPermutation(r.moods, sel1, sel2);
    assert |sel1| == |multiset(sel1)| == |sel2|;
  }

  function MoodValue(r: Record, sel: seq<Mood>): real {
    match MoodAvg(r, sel)
    case Some(v) => v
    case None => 0.0
  }

  /**
   * `sort_values(ascending=False, by='mood_avg')`. With no mood chosen every `mood_avg` is
   * NaN; pandas keeps NaN rows last in their existing order, so the order is unchanged.
   */
  function SortByMood(rows: seq<Record>, sel: seq<Mood>): (sorted: seq<Record>)
    ensures multiset(sorted) == multiset(rows)
    ensures |sel| > 0 ==> forall i, j :: 0 <= i < j < |sorted| ==>
      MoodAvg(sorted[i], sel).value >= MoodAvg(sorted[j], sel).value
    ensures |sel| == 0 ==> sorted == rows
  {
    if |sel| == 0 then rows else SortDesc(rows, r => MoodValue(r, sel))
  }

  // ---------------------------------------------------------------------------
  // Step 4: cut to the requested length
  // ---------------------------------------------------------------------------

  function Min(a: int, b: int): int { if a <= b then a else b }

  function Max(a: int, b: int): int { if a >= b then a else b }

  /** The positional slice `rows[:topN]`, with Python's reading of a negative bound. */
  function Take(rows: seq<Record>, topN: int): (top: seq<Record>)
    ensures |top| <= |rows| && top == rows[..|top|]
    ensures topN >= 0 ==> |top| == Min(topN, |rows|)
    ensures topN < 0 ==> |top| == Max(0, |rows| + topN)
  {
    if topN >= 0 then rows[..Min(topN, |rows|)] else rows[..Max(0, |rows| + topN)]
  }

  lemma PrefixKeepsFewer(rows: seq<Record>, n: nat)
    requires n <= |rows|
    ensures multiset(rows[..n]) <= multiset(rows)
  {
    assert rows == rows[..n] + rows[n..];
  }

  // ---------------------------------------------------------------------------
  // The whole pipeline
  // ---------------------------------------------------------------------------

  /** The sort key of the mood step: the mean of the chosen moods. */
  function MoodKey(sel: seq<Mood>): Record -> real {
    r => MoodValue(r, sel)
  }

  /**
   * `result` is ordered best first by `key`, and every catalogue row that passes the category
   * step but is left out of `result` has a key no greater than any returned row's.
   */
  ghost predicate TopByKey(catalogue: seq<Book>, category: string, result: seq<Record>, key: Record -> real) {
    && SortedDesc(result, key)
    && forall i, k ::
         (0 <= i < |catalogue| && 0 <= k < |result| && Keep(Project(catalogue, i), category) && Project(catalogue, i) !in result)
         ==> key(result[k]) >= key(Project(catalogue, i))
  }

  /**
   * The rows the button handler renders, before `reset_index` renumbers them. They come from the
   * catalogue, pass the category step and occur once each. Their number is the requested one,
   * clamped to the number of passing rows. They are the best passing rows by mood average when
   * moods are chosen, and by similarity when none is.
   */
  function Recommend(catalogue: seq<Book>, scores: seq<real>, category: string, sel: seq<Mood>, topN: int): (result: seq<Record>)
    requires |scores| == |catalogue|
    ensures FromCatalogue(result, catalogue) && DistinctIndices(result)
    ensures forall k :: 0 <= k < |result| ==> Keep(result[k], category)
    ensures topN >= 0 ==> |result| == Min(topN, |FilterCategory(AllRecords(catalogue), category)|)
    ensures |sel| > 0 ==> TopByKey(catalogue, category, result, MoodKey(sel))
    ensures |sel| == 0 ==> TopByKey(catalogue, category, result, SimKey(scores))
  {
    var ranked := RankBySimilarity(catalogue, scores);
    var filtered := FilterCategory(ranked, category);
    var sorted := SortByMood(filtered, sel);
    var result := Take(sorted, topN);
    var key := if |sel| > 0 then MoodKey(sel) else SimKey(scores);
    PipelineSound(catalogue, ranked, filtered, sorted, result, category);
    FilterPermutation(ranked, AllRecords(catalogue), category);
    PassingRowsKept(catalogue, scores, category);
    SortedByKey(catalogue, scores, category, sel);
    TopOfPrefix(catalogue, category, filtered, sorted, result, key);
    result
  }

  /** Rows that survive the filter, the sort and the cut are catalogue rows that pass the filter, each once. */
  lemma PipelineSound(catalogue: seq<Book>, ranked: seq<Record>, filtered: seq<Record>, sorted: seq<Record>,
                      result: seq<Record>, category: string)
    requires multiset(ranked) == multiset(AllRecords(catalogue))
    requires forall x :: multiset(filtered)[x] == if Keep(x, category) then multiset(ranked)[x] else 0
    requires multiset(sorted) == multiset(filtered)
    requires |result| <= |sorted| && result == sorted[..|result|]
    ensures FromCatalogue(result, catalogue) && DistinctIndices(result)
    ensures forall k :: 0 <= k < |result| ==> Keep(result[k], category)
  {
    PermutationOfCatalogue(catalogue, ranked);
    AllRecordsNoDuplicates(catalogue);
    PrefixKeepsFewer(sorted, |result|);
    forall k | 0 <= k < |result|
      ensures result[k].index < |catalogue| && result[k] == Project(catalogue, result[k].index)
      ensures Keep(result[k], category)
    {
      assert result[k] in multiset(sorted);
      assert result[k] in multiset(ranked);
    }
    assert NoDuplicates(result) by {
      forall x ensures multiset(result)[x] <= 1 {
        assert multiset(result)[x] <= multiset(filtered)[x] <= multiset(ranked)[x];
      }
    }
    NoDuplicatesDistinctIndices(result, catalogue);
  }

  /** No catalogue row that passes the category step is lost by ranking and filtering. */
  lemma PassingRowsKept(catalogue: seq<Book>, scores: seq<real>, category: string)
    requires |scores| == |catalogue|
    ensures forall i :: 0 <= i < |catalogue| && Keep(Project(catalogue, i), category) ==>
      Project(catalogue, i) in FilterCategory(RankBySimilarity(catalogue, scores), category)
  {
    var ranked := RankBySimilarity(catalogue, scores);
    var filtered := FilterCategory(ranked, category);
    forall i | 0 <= i < |catalogue| && Keep(Project(catalogue, i), category)
      ensures Project(catalogue, i) in filtered
    {
      assert Project(catalogue, i) in multiset(ranked);
      assert Project(catalogue, i) in multiset(filtered);
    }
  }

  /** After the mood step the rows are in descending order of the key that decides the result. */
  lemma SortedByKey(catalogue: seq<Book>, scores: seq<real>, category: string, sel: seq<Mood>)
    requires |scores| == |catalogue|
    ensures var sorted := SortByMood(FilterCategory(RankBySimilarity(catalogue, scores), category), sel);
      SortedDesc(sorted, if |sel| > 0 then MoodKey(sel) else SimKey(scores))
  {
    var filtered := FilterCategory(RankBySimilarity(catalogue, scores), category);
    if |sel| > 0 {
      var sorted := SortByMood(filtered, sel);
      forall i, j | 0 <= i < j < |sorted| ensures MoodKey(sel)(sorted[i]) >= MoodKey(sel)(sorted[j]) {
        assert MoodAvg(sorted[i], sel).value >= MoodAvg(sorted[j], sel).value;
      }
    } else {
      FilteredRankingSorted(catalogue, scores, category);
    }
  }

  /** A prefix of a descending permutation of the filtered rows holds the best passing rows. */
  lemma TopOfPrefix(catalogue: seq<Book>, category: string, filtered: seq<Record>, sorted: seq<Record>,
                    result: seq<Record>, key: Record -> real)
    requires SortedDesc(sorted, key) && multiset(sorted) == multiset(filtered)
    requires |result| <= |sorted| && result == sorted[..|result|]
    requires forall i :: 0 <= i < |catalogue| && Keep(Project(catalogue, i), category) ==> Project(catalogue, i) in filtered
    ensures TopByKey(catalogue, category, result, key)
  {
    PrefixSortedDesc(sorted, |result|, key);
    forall i, k | 0 <= i < |catalogue| && 0 <= k < |result| && Keep(Project(catalogue, i), category)
        && Project(catalogue, i) !in result
      ensures key(result[k]) >= key(Project(catalogue, i))
    {
      assert Project(catalogue, i) in multiset(filtered);
      assert Project(catalogue, i) in multiset(sorted);
      TopOfSorted(sorted, |result|, key, Project(catalogue, i));
    }
  }

  /** The category step keeps the similarity order of the rows it keeps. */
  lemma FilteredRankingSorted(catalogue: seq<Book>, scores: seq<real>, category: string)
    requires |scores| == |catalogue|
    ensures SortedDesc(FilterCategory(RankBySimilarity(catalogue, scores), category), SimKey(scores))
  {
    var ranked := RankBySimilarity(catalogue, scores);
    assert SortedDesc(ranked, SimKey(scores));
    SubsequenceSortedDesc(FilterCategory(ranked, category), ranked, SimKey(scores));
  }
}
