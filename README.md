# Book recommender: the ranking and filter pipeline

This project models the recommendation core of a small book recommender (`app.py`). A user
gives a free-text description, a category ("All" or one of the catalogue's `simple_categories`),
a list of moods chosen from seven emotion columns, and a result count. The core then works in
these steps:

1. **Tag normalisation at load time.** A missing `tags` cell becomes `""` and every tag is lowercased.
2. **Similarity ranking.** Every catalogue row is ordered by descending similarity score
   (`argsort()[::-1]`), and the result columns are projected.
3. **Category filter.** Under "All" every row is kept. Otherwise a row is kept when its
   category equals the chosen one, compared case-insensitively. The boolean mask keeps the rows' order.
4. **Mood score and sort.** Each kept row gets `mood_avg`, the mean of its chosen mood columns.
   The rows are then re-sorted by it, highest first. This throws away the similarity order.
5. **Truncation.** The list is cut to the first `top_n` rows.

The similarity scores are an input: `scores[i]` is the cosine similarity of catalogue row `i`
to the query. A record keeps its catalogue position in the `index` field. `df.iloc` carries
this label through the pipeline, and `reset_index()` exposes it. "No row appears twice" is
stated on that field.

Files:

- `text.dfy` (module `Text`): `Lower`, the ASCII reading of `str.lower`.
- `sequences.dfy` (module `Sequences`): the descending sort, built as an ascending insertion
  sort followed by a reversal. This is the code's own step `argsort()[::-1]` at app.py:198.
  pandas' `sort_values(ascending=False)` reverses the column, sorts it ascending and reverses
  the result again. The model's `Reverse(SortAsc(..))` can differ from that only in the order
  of equal keys, and no tie order is claimed. The module also holds the subsequence relation
  and facts about prefixes of sorted sequences.
- `catalogue.dfy` (module `Catalogue`): moods, mood scores, CSV rows, books, and `Load`.
- `ranking.dfy` (module `Ranking`): the four pipeline steps, `Recommend`, and the end-to-end lemmas.
- `scenario.dfy` (module `RankingScenario`): a worked example with three books. Two of them are
  fiction. The category is "fiction", the chosen mood is sadness and the count is 2. The
  similarity scores are given. The result is the first book and then the third.

Two behaviours one might expect are not what the code provides, and the model follows the code:

- A tie-break by ascending catalogue index in the similarity ranking, and a stable mood sort.
  The code uses `argsort` and `sort_values` with their default unstable `quicksort`. That
  promises no tie order, so the model claims only non-increasing order, never a tie-break.
- A defined result for an empty mood selection. In the code, the mean over zero columns is NaN
  for every row. pandas sorts NaN rows last and keeps their existing order. So with no mood
  chosen, the model leaves the similarity order unchanged (`MoodAvg` is `None` there). This
  is a documented modelling choice that matches that pandas rule. It is not something the code itself checks.

## Model

| member | source | states |
|---|---|---|
| `Text.Lower` | app.py:169 | the lowered string has the same length, every upper-case letter moves to its lower-case letter, every other character is kept, and no upper-case letter remains |
| `Text.LowerOfNoUpper` | app.py:169 | lowering a string with no upper-case letter returns it unchanged |
| `Text.LowerIdempotent` | app.py:169 | lowering twice equals lowering once |
| `Catalogue.NormalizeTag` | app.py:169 | the normalised tag has no upper-case letter; a missing cell gives `""`; a present cell gives a string equal to it up to case |
| `Catalogue.Load` | app.py:167-170 | loading keeps the number and order of rows; every loaded row keeps all other columns and has a present, lower-case tag that matches its cell as `NormalizeTag` describes |
| `Catalogue.LoadedTagIsLowered` | app.py:169 | the facts `Load` promises pin down the loaded tag: it is exactly the lowered cell |
| `Sequences.Insert` | app.py:198 | inserting adds exactly one occurrence of the element (as a multiset) |
| `Sequences.InsertSorted` | app.py:198 | inserting into an ascending sequence keeps it ascending |
| `Sequences.SortAsc` | app.py:198 | the ascending sort (`argsort`) returns a permutation of its input, in ascending key order for every pair of positions |
| `Sequences.Reverse` | app.py:198 | `[::-1]` puts element `i` at position `n-1-i` and is a permutation |
| `Sequences.SortDesc` | app.py:198 | the descending sort returns a permutation of its input, in non-increasing key order for every pair of positions |
| `Sequences.SubsequenceSortedDesc` | app.py:229 | rows a mask keeps from a descending sequence are still descending |
| `Sequences.TopOfSorted` | app.py:231-232 | an element of a descending sequence that is not in a prefix has a key no greater than any key in the prefix |
| `Ranking.RankBySimilarity` | app.py:196-201 | the ranking is a permutation of the projected catalogue; it has every catalogue row exactly once, each as the projection of its own row; similarity is non-increasing along it |
| `Ranking.PermutationOfCatalogue` | app.py:198-200 | any rearrangement of the projected catalogue has its length, holds every row, and names no row twice |
| `Ranking.SelectCategory` | app.py:229 | the mask keeps exactly the rows whose lowered category equals the lowered choice, each with its full multiplicity, in their original relative order |
| `Ranking.FilterCategory` | app.py:226-229 | under "All" the input comes back unchanged; otherwise every kept row matches the case-insensitive test, no matching row is dropped, and the kept rows are a subsequence of the input |
| `Ranking.FilterPermutation` | app.py:226-229 | filtering two permutations of one table gives permutations of one result, of equal length |
| `Ranking.MoodAvg` | app.py:230 | the average is defined exactly when at least one mood is chosen, and then it times the number of chosen moods equals the sum of their scores |
| `Ranking.MoodAvgWithin` | app.py:230 | the average lies between any lower and upper bound of the chosen scores |
| `Ranking.MoodAvgSelectionOrder` | app.py:230 | the order in which the moods were picked does not change the average |
| `Ranking.SumScoresPermutation` | app.py:230 | the sum of the chosen scores depends only on which moods were chosen and how often, not on their order |
| `Ranking.SortByMood` | app.py:231 | the mood sort is a permutation of the filtered rows; with moods chosen, `mood_avg` is non-increasing over every pair of positions; with none chosen, the order is unchanged |
| `Ranking.Take` | app.py:232 | the result is a prefix of its input; for `top_n >= 0` its length is `min(top_n, n)`; for negative `top_n` it follows Python's slice rule, `max(0, n + top_n)` |
| `Ranking.Recommend` | app.py:225-232 | every returned row is the projection of a catalogue row, passes the category step and appears once; for `top_n >= 0` the length is `min(top_n, number of catalogue rows that pass the category step)`; with moods chosen, the rows are in non-increasing mood average and no passing row left out has a higher average than a returned one; with no mood chosen, the same holds for similarity |
| `Ranking.PipelineSound` | app.py:225-232 | after the filter, the sort and the cut, every row is a distinct catalogue row that passes the category step |
| `Ranking.PassingRowsKept` | app.py:196-229 | no catalogue row that passes the category step is lost by the ranking and the mask |
| `Ranking.SortedByKey` | app.py:229-231 | after the mood step the rows are in non-increasing mood average, or in non-increasing similarity when no mood is chosen |
| `Ranking.TopOfPrefix` | app.py:231-232 | a prefix of the sorted filtered rows is best first, and outranks every passing row it leaves out |
| `Ranking.FilteredRankingSorted` | app.py:198-229 | the category step keeps the similarity order of the rows it keeps |
| `RankingScenario.FictionBySadness` | app.py:225-232 | in the three-book example, the category "fiction" with the mood sadness, a count of 2 and the given similarity scores returns catalogue rows 0 and 2, in that order |

## Left out

- Streamlit page setup, styling, widgets and card rendering (app.py:9-160, 208-224, 233-245): presentation only. The slider's 3-10 range is a widget bound, so `Take` accepts any integer.
- Reading the CSV file and the `@st.cache_data` / `@st.cache_resource` memoisation (app.py:166-168, 177): file I/O and framework caching. `Load` starts from the rows already read.
- TF-IDF fitting and projection (app.py:179-186, 195), and the lowercasing of the description before projection (app.py:193). These feed only the library vectoriser, whose tokeniser, stop-word list and floating-point weights are not modelled.
- Cosine similarity (app.py:196): floating-point linear algebra in a library. The score vector is an input.
- Text.Lower: models only ASCII letters. Python's `str.lower` also folds non-ASCII letters under Unicode rules, which this model does not capture.
- Ranking.RankBySimilarity: claims no order among rows with equal similarity, because numpy's default `quicksort` is not stable. The model's insertion sort picks one tie order, and nothing relies on it.
- Ranking.SortByMood: claims no order among rows with equal `mood_avg`, for the same reason (pandas' default `quicksort`).
- Missing values other than `tags` are not modelled. Categories and mood scores are assumed present. NaN mood scores, which `mean` would skip, and NaN categories, which the mask would drop, are outside the model.
- Reals are exact, so floating-point rounding in the mean and in the similarity scores is not modelled.
