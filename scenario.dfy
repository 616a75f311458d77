/**
 * A worked example with three books. The category is "fiction", the chosen mood is sadness
 * and the count is 2. The similarity scores are given.
 */
module RankingScenario {
  import opened Text
  import opened Catalogue
  import opened Ranking

  function Moods(joy: real, sadness: real): MoodScores {
    MoodScores(0.0, 0.0, 0.0, joy, 0.0, sadness, 0.0)
  }

  /** Three books, two of them fiction; the query favours the first, then the third. */
  function Shelf(): seq<Book> {
    [ Book(1, "A", "", "", 4.0, "Fiction", "heartbreak romance drama", Moods(0.1, 0.9)),
      Book(2, "B", "", "", 4.0, "SciFi", "space adventure robots", Moods(0.8, 0.1)),
      Book(3, "C", "", "", 4.0, "Fiction", "heartbreak love story", Moods(0.2, 0.7)) ]
  }

  function ShelfScores(): seq<real> {
    [0.6, 0.0, 0.3]
  }

  lemma ShelfCategories()
    ensures InCategory(Project(Shelf(), 0), "fiction")
    ensures !InCategory(Project(Shelf(), 1), "fiction")
    ensures InCategory(Project(Shelf(), 2), "fiction")
  {
    assert Lower("Fiction") == Lower("fiction");
    assert Lower("SciFi") == "scifi";
  }

  /** Only the two fiction books pass the category step. */
  lemma ShelfFiction()
    ensures FilterCategory(AllRecords(Shelf()), "fiction") == [Project(Shelf(), 0), Project(Shelf(), 2)]
    ensures !Keep(Project(Shelf(), 1), "fiction")
  {
    ShelfCategories();
    var all := AllRecords(Shelf());
    assert all == [Project(Shelf(), 0), Project(Shelf(), 1), Project(Shelf(), 2)];
    assert all[1..] == [Project(Shelf(), 1), Project(Shelf(), 2)];
    assert all[1..][1..] == [Project(Shelf(), 2)];
    assert SelectCategory(all[1..][1..], "fiction") == [Project(Shelf(), 2)];
    assert SelectCategory(all[1..], "fiction") == [Project(Shelf(), 2)];
  }

  /** Two distinct fiction books of the shelf, ordered by sadness, are the first and the third. */
  lemma TwoFictionBySadness(result: seq<Record>)
    requires |result| == 2 && FromCatalogue(result, Shelf()) && DistinctIndices(result)
    requires forall k :: 0 <= k < |result| ==> Keep(result[k], "fiction")
    requires MoodValue(result[0], [Sadness]) >= MoodValue(result[1], [Sadness])
    ensures result[0].index == 0 && result[1].index == 2
  {
    ShelfCategories();
    var i, j := result[0].index, result[1].index;
    assert i != 1 && j != 1;
    assert i != j;
    assert MoodValue(Project(Shelf(), 0), [Sadness]) == 0.9;
    assert MoodValue(Project(Shelf(), 2), [Sadness]) == 0.7;
  }

  /** The fiction query ordered by sadness returns the first book, then the third. */
  lemma FictionBySadness()
    ensures var result := Recommend(Shelf(), ShelfScores(), "fiction", [Sadness], 2);
      |result| == 2 && result[0].index == 0 && result[1].index == 2
  {
    var result := Recommend(Shelf(), ShelfScores(), "fiction", [Sadness], 2);
    ShelfFiction();
    assert MoodKey([Sadness])(result[0]) >= MoodKey([Sadness])(result[1]);
    TwoFictionBySadness(result);
  }
}
