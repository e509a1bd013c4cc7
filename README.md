# Movie recommender: a Dafny model of its user-based collaborative filter

This project models the core of `MovieRecommend.py`, a small user-based
collaborative-filtering engine over a ratings table and a movie catalogue:

- the **interaction filter** of `filter_data`: the per-movie and per-user
  frequency tables are taken over the *unfiltered* ratings and a row is kept
  exactly when both counts reach the threshold (2 in the code, a parameter
  here, defaulting to 2);
- the **preference matrix**: the survivors pivoted into a user x title table
  with `pivot_table` (mean of duplicate pairs, rows sorted by user id,
  columns sorted by title, rows without a title dropped) and `fillna(0)`;
  and the guard that makes the similarity table exist only when the matrix
  has a row and a column;
- the **ranker** `recommend_items`: the sentinel for a missing table or user,
  the set of titles the user rated, the nested loop that sums the other
  users' positive ratings on unrated titles into a dictionary (kept in
  first-insertion order), the stable descending sort and Python's `[:n]`;
- the **mutation** `add_or_update_rating`: catalogue lookup, append-only
  insertion with the first catalogue id of the title, full rebuild.

The module-level globals (`ratings`, `filtered_ratings`, `user_item_matrix`,
`similarity_df`) are the fields of one `Recommender.Recommender` object;
`Valid()` says that the derived fields are what `filter_data` computes from
`ratings`. `RecommendItems` keeps the nested loop (its inner loop is the
method `Recommender.AccumulateRow`; the dictionary is a value that each
`d[t] = d.get(t, 0) + x` replaces) and is proved equal to the
specification function `Ranking.Recommend`; the lemmas of `Ranking` say what
that function returns.

Files: `types.dfy` (observations, catalogue entries), `sequences.dfy`
(Python's string order, sorted duplicate-free indexes, label lookup),
`filter.dfy`, `matrix.dfy`, `ranking.dfy`, `recommender.dfy`.

The comment above `filter_data` says 5 ratings; the code uses 2, and so does
the model. `pivot_table` takes the mean of duplicate (user, title) pairs.
Columns are keyed by title, so movies that share a title share a column.

Ratings, cell means and scores are modelled as exact `real`s. The cosine similarities only fix the order in which the
other users are visited (and so the order of ties before the stable sort),
so `RecommendItems` takes that order as a parameter `neighbours`, required to
be a permutation of the other users (`Ranking.NeighbourOrder`).

## Model

| member | source | states |
|---|---|---|
| `Filter.MovieCount` | MovieRecommend.py:19 | `value_counts()` of a movie id over the given rows; never more than the number of rows |
| `Filter.UserCount` | MovieRecommend.py:20 | `value_counts()` of a user id over the given rows; never more than the number of rows |
| `Filter.CountsZeroIffAbsent` | MovieRecommend.py:19-24 | a movie count or a user count is 0 exactly when no row carries that id, so an id absent from `value_counts` never passes a positive threshold |
| `Filter.Keep` | MovieRecommend.py:21-24 | the mask condition: the row's movie id and user id each occur at least the threshold number of times in the unfiltered ratings |
| `Filter.Mask` | MovieRecommend.py:21-24 | the boolean mask applied to rows: no more rows than given, and only given rows that pass `Keep` |
| `Filter.FilterRatings` | MovieRecommend.py:19-24 | `filtered_ratings`: the mask of the ratings applied to the ratings; no more rows than the ratings, and only rows of the ratings that pass `Keep` |
| `Filter.FilterKeepsExactly` | MovieRecommend.py:19-24 | a row is in the filtered set, exactly as often as in the ratings, if and only if its movie id and its user id each occur at least the threshold number of times in the unfiltered ratings; nothing else is in it |
| `Filter.FilterIsSubsequence` | MovieRecommend.py:21-24 | the filtered set is an order-preserving subsequence of the ratings (a boolean mask: no row altered, moved or invented) |
| `Filter.FilterIsSinglePass` | MovieRecommend.py:19-24 | the counts are not recomputed on the survivors: a concrete ratings table whose filtered set contains a user and a movie with a single surviving row |
| `Filter.CountsCons` | MovieRecommend.py:19-20 | the counts over a row followed by more rows add that row's contribution |
| `Filter.MaskAll` | MovieRecommend.py:21-24 | when every row passes, the mask returns all rows |
| `Filter.MaskMultiplicity` | MovieRecommend.py:21-24 | the mask keeps each row with its multiplicity when the row passes, and drops every copy otherwise |
| `Filter.MaskSubsequence` | MovieRecommend.py:21-24 | the mask applied to any rows yields a subsequence of them |
| `Sequences.SortedUnique` | MovieRecommend.py:27 | the pivot index: exactly the keys of the input, each once, in ascending order |
| `Sequences.InsertNew` | MovieRecommend.py:27 | inserting a new key keeps the index ascending and duplicate-free and adds exactly that key |
| `Sequences.LexLess` | MovieRecommend.py:27 | Python's `<` on strings (code-point order, a proper prefix first), the order of the pivot's title columns and so of the dictionary's insertion order |
| `Sequences.LexLessTrichotomy` | MovieRecommend.py:27 | Python's string order is total, so the title columns can be sorted |
| `Sequences.RemoveMatching` | MovieRecommend.py:52 | taking matching users out of two orderings of the same users leaves two orderings of the same users |
| `Sequences.IndexOf` | MovieRecommend.py:53 | a label lookup (`.loc`) finds the first position holding the label |
| `PreferenceMatrix.TitledUsers` | MovieRecommend.py:27 | collects exactly the users that have a row with a title |
| `PreferenceMatrix.TitlesIn` | MovieRecommend.py:27 | collects exactly the titles that occur |
| `PreferenceMatrix.MatchCount` | MovieRecommend.py:27 | the number of filtered rows for a (user, title) pair |
| `PreferenceMatrix.MatchSum` | MovieRecommend.py:27 | the sum of the ratings of those rows |
| `PreferenceMatrix.Cell` | MovieRecommend.py:27 | the `pivot_table` mean of the pair's ratings, replaced by 0 (`fillna(0)`) when the pair has none |
| `PreferenceMatrix.Entry` | MovieRecommend.py:27 | the matrix value for a user and a title by label, 0 outside the index |
| `PreferenceMatrix.Build` | MovieRecommend.py:27 | the matrix is well formed; its rows are exactly the users with a titled filtered row and its columns exactly the titles that occur, each once, ascending |
| `PreferenceMatrix.EntryIsCell` | MovieRecommend.py:27 | every entry, inside or outside the index, is the mean of the ratings for its (user, title) pair, or 0 when there is none |
| `PreferenceMatrix.MatchCountZero` | MovieRecommend.py:27 | a pair has no rating exactly when no row has that user and that title |
| `PreferenceMatrix.CellIsMean` | MovieRecommend.py:27 | with positive ratings, the pivot value is 0 exactly when the pair is unrated, else positive and times the count equal to the sum |
| `PreferenceMatrix.EntryZeroIffUnrated` | MovieRecommend.py:27 | with positive ratings, an entry is 0 exactly when the filtered set has no row for the pair, and positive otherwise |
| `PreferenceMatrix.EntryWithinRatingRange` | MovieRecommend.py:27 | the mean of ratings in [lo, hi] lies in [lo, hi], so a rated cell stays within the rating scale |
| `PreferenceMatrix.CellWithinRatingRange` | MovieRecommend.py:27 | the same bound for the pivot value computed from the rows |
| `PreferenceMatrix.MatchSumBounds` | MovieRecommend.py:27 | the sum of a pair's ratings lies between count times the lowest and count times the highest possible rating |
| `PreferenceMatrix.MatchSumPositive` | MovieRecommend.py:27 | with positive ratings, a rated pair has a positive sum |
| `PreferenceMatrix.RowEntry` | MovieRecommend.py:53-54 | reading a user's row by column position gives the entry for that column's title |
| `PreferenceMatrix.SimilarityIndex` | MovieRecommend.py:31-35 | the similarity table's index: the matrix users when it has a row and a column, otherwise `None` |
| `PreferenceMatrix.SimilarityAbsentIffNoTitledRow` | MovieRecommend.py:31-35 | the similarity table is absent exactly when no filtered row has a title; the matrix has no rows exactly when it has no columns |
| `Ranking.Rated` | MovieRecommend.py:49 | `user_rated_items`: the titles of the user's row whose value is above 0 |
| `Ranking.Get` | MovieRecommend.py:56 | `recommendations.get(t, 0)` |
| `Ranking.Add` | MovieRecommend.py:56 | the dictionary update keeps the keys unique and the key list equal to the key set |
| `Ranking.Others` | MovieRecommend.py:46 | `drop(user)`: exactly the users of the index other than the target |
| `Ranking.ScanRow` | MovieRecommend.py:54-56 | the inner loop's dictionary stays a valid dictionary |
| `Ranking.ScanNeighbours` | MovieRecommend.py:52-56 | the outer loop's dictionary stays a valid dictionary |
| `Ranking.AddEffect` | MovieRecommend.py:56 | one update adds its amount to the score of its title only, and makes that title a key |
| `Ranking.ScanRowEffect` | MovieRecommend.py:54-56 | one neighbour's row adds its positive rating to an unrated title and changes nothing else; a title becomes a key exactly when it is unrated and that rating is positive |
| `Ranking.ScanNeighboursStep` | MovieRecommend.py:52-56 | one more neighbour adds its positive rating to the score of an unrated title, and makes it a key exactly when that rating is above 0 |
| `Ranking.ScanNeighboursScore` | MovieRecommend.py:52-56 | after the first k neighbours, an unrated title's score is the sum of their positive ratings and any other title's is 0 |
| `Ranking.ScanNeighboursKeys` | MovieRecommend.py:52-56 | after the first k neighbours, a title is a key exactly when it is an unrated column and their positive ratings of it sum above 0 |
| `Ranking.NeighbourSumAppend` | MovieRecommend.py:52-56 | summing over two groups of neighbours adds their sums |
| `Ranking.NeighbourSumLast` | MovieRecommend.py:52-56 | one more user adds exactly that user's positive rating to the sum |
| `Ranking.NeighbourSumRemove` | MovieRecommend.py:52-56 | taking a user out of the list takes out exactly that user's contribution |
| `Ranking.NeighbourSumNonNegative` | MovieRecommend.py:52-56 | the sum of positive ratings is never negative |
| `Ranking.NeighbourSumPositive` | MovieRecommend.py:52-56 | the sum of positive ratings is above 0 exactly when one of the users rated the title above 0 |
| `Ranking.NeighbourSumPermutation` | MovieRecommend.py:52-56 | the sum of positive ratings does not depend on the order in which the neighbours are visited |
| `Ranking.DictIsScores` | MovieRecommend.py:49-56 | whatever the neighbour order, the final dictionary holds exactly the candidate titles (unrated by the user, rated above 0 by some other user), each with the sum of the other users' positive ratings |
| `Ranking.Items` | MovieRecommend.py:59 | `recommendations.items()`: the (title, score) pairs in key order |
| `Ranking.InsertByScore` | MovieRecommend.py:59 | inserting an item adds exactly that item |
| `Ranking.InsertKeepsDescending` | MovieRecommend.py:59 | inserting into a list in descending score order keeps it in that order |
| `Ranking.HeadDominates` | MovieRecommend.py:59 | the head of a descending list scores at least as much as every item |
| `Ranking.BoundByMultiset` | MovieRecommend.py:59 | a bound on the items of a list and on an inserted item bounds every item of the result |
| `Ranking.SortByScore` | MovieRecommend.py:59 | `sorted(..., reverse=True)`: a permutation of the items in descending score order |
| `Ranking.InsertWithScore` | MovieRecommend.py:59 | an inserted item goes before every item of equal score |
| `Ranking.SortByScoreIsStable` | MovieRecommend.py:59 | the sort is stable: for every score, the items with that score keep their dictionary (first-insertion) order |
| `Ranking.DescendingCons` | MovieRecommend.py:59 | an item at least as large as all others can lead a descending list |
| `Ranking.DistinctCons` | MovieRecommend.py:59 | an item whose title is new can lead a list of distinct titles |
| `Ranking.DistinctTail` | MovieRecommend.py:59 | the tail of a list of distinct titles has distinct titles, none of them the head's |
| `Ranking.InsertKeepsTitlesDistinct` | MovieRecommend.py:59 | inserting an item with a new title keeps the titles distinct |
| `Ranking.SortKeepsTitlesDistinct` | MovieRecommend.py:59 | sorting keeps the dictionary's titles distinct |
| `Ranking.Take` | MovieRecommend.py:60 | Python's `s[:n]`: a prefix of length min(n, len) for n >= 0 and max(0, len + n) for n < 0 |
| `Ranking.TitlesOf` | MovieRecommend.py:60 | `[item[0] for item in ...]`: the titles, position by position |
| `Ranking.TopOfSorted` | MovieRecommend.py:59-60 | the first n sorted items are dictionary items with their scores, each title once, in descending order |
| `Ranking.LeftOutOfTop` | MovieRecommend.py:59-60 | a dictionary key is left out only when n items were taken, and each of those scores at least as much |
| `Ranking.Recommend` | MovieRecommend.py:41-60 | the specification of `recommend_items`: the sentinel, or the titles of the first `n` items of the sorted dictionary built over the neighbours |
| `Ranking.RecommendSound` | MovieRecommend.py:42-60 | the result has no duplicates, at most n titles for n >= 0, and only candidates: titles the user has not rated above 0 and some other user has |
| `Ranking.RecommendRanked` | MovieRecommend.py:52-60 | the returned titles are in non-increasing order of their order-independent score |
| `Ranking.RecommendTopN` | MovieRecommend.py:52-60 | a candidate is missing only when n titles came back, and then it scores no higher than any of them |
| `Recommender.Merged` | MovieRecommend.py:14 | the result of the join: every rating carries the catalogue title of its movie id |
| `Recommender.AppendedRow` | MovieRecommend.py:70 | the row `add_or_update_rating` evidently means to append, carrying the title |
| `Recommender.AppendedRowAsWritten` | MovieRecommend.py:70 | `new_row` as the code builds it: user, movie id, rating and timestamp, with no title |
| `Recommender.Recommender.Valid` | MovieRecommend.py:17-35 | the globals are consistent: filtered rows, matrix and similarity index are what `filter_data` computes from the merged ratings |
| `Recommender.FirstWithTitle` | MovieRecommend.py:65-69 | finds the first catalogue entry with the title, or reports that there is none |
| `Recommender.AccumulateRow` | MovieRecommend.py:53-56 | the inner loop over one neighbour's row returns exactly `Ranking.ScanRow` of the dictionary it was given |
| `Recommender.Recommender.constructor` | MovieRecommend.py:14-38 | the initial `filter_data()` leaves the derived state consistent with the ratings |
| `Recommender.Recommender.FilterData` | MovieRecommend.py:17-35 | rebuilds filtered rows, matrix and similarity index from the current ratings, leaving the ratings unchanged |
| `Recommender.Recommender.RecommendItems` | MovieRecommend.py:41-60 | the loop over the neighbours (with `AccumulateRow` as its inner loop) and the ranking return exactly `Ranking.Recommend` on the current matrix and similarity index |
| `Recommender.Recommender.AddOrUpdateRating` | MovieRecommend.py:63-74 | an unknown title changes nothing and reports not found; a known one appends exactly one row (user, first catalogue id, rating, timestamp, and the title: the corrected row, see Findings) after the unchanged earlier rows and rebuilds the derived state |
| `Recommender.NotFoundIffUserFilteredOut` | MovieRecommend.py:42-43 | the sentinel comes back exactly when the user has no titled row that passes the filter (never rated, filtered out, or empty data) |
| `Recommender.AddedRatingReachesMatrix` | MovieRecommend.py:70-74 | with the title carried, a positive rating that passes the filter makes the user a row and the title a column with a positive cell, so it counts as rated |
| `Recommender.AddedRatingLostAsWritten` | MovieRecommend.py:70-71 | as written, an added rating that passes the filter leaves its matrix cell at 0 |
| `Recommender.PresentButUnrated` | MovieRecommend.py:27 | a user and a title that both occur but never together meet in a 0 cell, outside the user's rated titles |
| `Recommender.ExampleAsWrittenPassesFilter` | MovieRecommend.py:19-24 | in the example, every row, the appended one included, passes the filter |

## Findings

| source | as written | input that shows it | evidently intended | confidence | as-written member | corrected member |
|---|---|---|---|---|---|---|
| MovieRecommend.py:70-71 | the new row has no `title` column, so after `pd.concat` its title is NaN and `pivot_table` drops it: the added rating never reaches the matrix (it only changes the frequency counts) | ratings (1, 10, "A", 4.0), (1, 20, "B", 2.0), (2, 10, "A", 5.0); then `add_or_update_rating(2, "B", 3.0)`: the cell for user 2 and "B" stays 0, so "B" can be recommended to user 2 | the appended row carries the title, so the cell for user 2 and "B" becomes 3.0 and "B" counts as rated | high; not executed | `Recommender.AddedRatingLostAsWritten` | `Recommender.AddedRatingReachesMatrix` |

The class uses the corrected row (`Recommender.AppendedRow`); the row as the
code builds it is `Recommender.AppendedRowAsWritten`.

## Left out

- Loading `ratings.csv` and `movies.csv` and the exit when a file is missing: file I/O with fixed paths; the tables are constructor parameters.
- The join `ratings.merge(movies, on='movieId')`: modelled as the precondition `Recommender.Merged` (every row carries the catalogue title of its movie id); the genres column plays no part.
- The console menu, the parsing of user input, the 0.5–5 range check and all printing: user interface; the not-found message of `add_or_update_rating` is the result `MovieNotFound`.
- `cosine_similarity` and the similarity values: floating point with square roots in a library; only the index of the similarity table (its presence and its users) is modelled, and the neighbour order is the parameter `neighbours`.
- The tie order of `sort_values` on the similarities: not guaranteed stable, so no claim is made about the order of equally similar neighbours.
- `csr_matrix`: a lossless change of representation with no behaviour of its own.
- `pd.Timestamp.now()`: the wall clock; the timestamp is the parameter `now`.
- Floating-point rounding: the model computes with exact `real`s. Ratings in the loaded file are halves, but the menu accepts any float in [0.5, 5] (MovieRecommend.py:88-89), so neither sums of ratings nor cell means such as (0.5 + 0.5 + 1.0) / 3 are exact in general, and sums of means may round so that near-ties compare differently from the exact values.
- Recommender.Recommender.AddOrUpdateRating: appends the titled row `Recommender.AppendedRow`, while the code's row has no title (see Findings); `Valid` therefore keeps `Merged`, and the untitled rows the code accumulates after an addition, with the zero cells they leave behind, are not part of the class's state (they are modelled only by `Recommender.AppendedRowAsWritten` and `Recommender.AddedRatingLostAsWritten`).
- Recommender.Recommender.RecommendItems: takes the neighbour order as an input and requires it to be a permutation of the other users, where the code computes it from the similarities.
