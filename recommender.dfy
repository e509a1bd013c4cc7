/**
 * The recommender's process-wide state (the ratings table and everything
 * `filter_data` derives from it) as one object, with `recommend_items` and
 * `add_or_update_rating` as its methods.
 */
module Recommender {
  import opened Types
  import opened Sequences
  import opened Filter
  import opened PreferenceMatrix
  import opened Ranking

  datatype AddOutcome = Added | MovieNotFound

  /** Every row carries the title its movie id has in the catalogue: the join with the movies table. */
  ghost predicate Merged(rs: seq<Observation>, movies: seq<Movie>)
  {
    forall r :: r in rs ==> r.title.Some? && Movie(r.movieId, r.title.value) in movies
  }

  /** `movies[movies['title'] == title]`, first row: the catalogue position used for a title. */
  function FirstWithTitle(movies: seq<Movie>, title: Title): (r: Option<nat>)
    ensures r.None? <==> forall k :: 0 <= k < |movies| ==> movies[k].title != title
    ensures r.Some? ==>
      && r.value < |movies| && movies[r.value].title == title
      && forall k :: 0 <= k < r.value ==> movies[k].title != title
  {
    if movies == [] then None
    else if movies[0].title == title then Some(0)
    else
      match FirstWithTitle(movies[1..], title)
      case None => None
      case Some(k) =>
        assert forall i :: 1 <= i <= k ==> movies[i] == movies[1..][i - 1];
        Some(k + 1)
  }

  /** The appended observation, carrying its title so that the pivot sees it. */
  function AppendedRow(user: UserId, movieId: MovieId, title: Title, rating: real, now: real): Observation
  {
    Observation(user, movieId, rating, now, Some(title))
  }

  /**
   * The appended observation as the code builds it: the new row has no title
   * column, so after the concatenation its title is missing.
   */
  function AppendedRowAsWritten(user: UserId, movieId: MovieId, rating: real, now: real): Observation
  {
    Observation(user, movieId, rating, now, None)
  }

  /**
   * The inner loop of `recommend_items`: one neighbour's row of the matrix,
   * added title by title to the dictionary `recs`.
   */
  method AccumulateRow(m: Matrix, rated: set<Title>, v: UserId, recs0: Scores) returns (recs: Scores)
    requires WellFormed(m) && v in m.users && DictValid(recs0)
    ensures recs == ScanRow(m, rated, v, recs0, |m.titles|)
  {
    recs := recs0;
    var row := m.cells[IndexOf(m.users, v)];
    for j := 0 to |m.titles|
      invariant recs == ScanRow(m, rated, v, recs0, j)
    {
      var item := m.titles[j];
      RowEntry(m, v, j);
      if item !in rated && row[j] > 0.0 {
        recs := Add(recs, item, row[j]);
      }
    }
  }

  class Recommender {
    const movies: seq<Movie>
    const minMovie: nat
    const minUser: nat
    var ratings: seq<Observation>
    var filtered: seq<Observation>
    var matrix: Matrix
    var similarity: Option<seq<UserId>>

    /** The derived state is what `filter_data` computes from the current ratings. */
    ghost predicate Valid()
      reads this
    {
      && Merged(ratings, movies)
      && filtered == FilterRatings(ratings, minMovie, minUser)
      && matrix == Build(filtered)
      && similarity == SimilarityIndex(matrix)
    }

    /** Loading (already parsed and joined) followed by the initial `filter_data()`. */
    constructor (ratings0: seq<Observation>, movies0: seq<Movie>,
                 minMovie0: nat := DefaultMinCount, minUser0: nat := DefaultMinCount)
      requires Merged(ratings0, movies0)
      ensures Valid()
      ensures ratings == ratings0 && movies == movies0 && minMovie == minMovie0 && minUser == minUser0
    {
      movies := movies0;
      minMovie := minMovie0;
      minUser := minUser0;
      ratings := ratings0;
      new;
      FilterData();
    }

    /** `filter_data`: rebuilds the filtered rows, the matrix and the similarity index in full. */
    method FilterData()
      requires Merged(ratings, movies)
      modifies this
      ensures Valid() && ratings == old(ratings)
    {
      filtered := FilterRatings(ratings, minMovie, minUser);
      matrix := Build(filtered);
      similarity := SimilarityIndex(matrix);
    }

    /**
     * `recommend_items(user, n)`. `neighbours` is the order in which the
     * other users are visited, by descending similarity in the code.
     */
    method RecommendItems(user: UserId, neighbours: seq<UserId>, n: int := 5) returns (r: Recommendation)
      requires WellFormed(matrix)
      requires similarity.Some? && user in similarity.value ==> NeighbourOrder(matrix, user, neighbours)
      ensures r == Recommend(matrix, similarity, user, neighbours, n)
    {
      var m, sim := matrix, similarity;
      if sim.None? || user !in sim.value {
        return NotFound;
      }
      var rated := Rated(m, user);
      var recs := Scores([], map[]);
      for i := 0 to |neighbours|
        invariant recs == ScanNeighbours(m, rated, neighbours, i)
      {
        var v := neighbours[i];
        assert v in multiset(neighbours);
        recs := AccumulateRow(m, rated, v, recs);
      }
      var ranked := SortByScore(Items(recs));
      r := Titles(TitlesOf(Take(ranked, n)));
    }

    /**
     * `add_or_update_rating`: an unknown title changes nothing; otherwise one
     * row is appended (never replacing an earlier one) with the first
     * catalogue id of the title, and the derived state is rebuilt.
     */
    method AddOrUpdateRating(user: UserId, title: Title, rating: real, now: real) returns (outcome: AddOutcome)
      requires Valid()
      modifies this
      ensures Valid()
      ensures outcome == MovieNotFound <==> forall k :: 0 <= k < |movies| ==> movies[k].title != title
      ensures outcome == MovieNotFound ==>
        ratings == old(ratings) && filtered == old(filtered) && matrix == old(matrix) && similarity == old(similarity)
      ensures outcome == Added ==>
        var k := FirstWithTitle(movies, title).value;
        ratings == old(ratings) + [AppendedRow(user, movies[k].movieId, title, rating, now)]
    {
      var k := FirstWithTitle(movies, title);
      if k.None? {
        return MovieNotFound;
      }
      var row := AppendedRow(user, movies[k.value].movieId, title, rating, now);
      assert movies[k.value] in movies;
      ratings := ratings + [row];
      FilterData();
      outcome := Added;
    }
  }

  /**
   * The "not found or insufficient data" sentinel comes back exactly when the
   * user has no titled row that passes the filter: never rated anything,
   * filtered out, or no data at all.
   */
  lemma {:induction false} NotFoundIffUserFilteredOut(rs: seq<Observation>, minMovie: nat, minUser: nat,
                                                      u: UserId, ns: seq<UserId>, n: int)
    ensures var m := Build(FilterRatings(rs, minMovie, minUser));
      Recommend(m, SimilarityIndex(m), u, ns, n).NotFound? <==>
      !exists r :: r in rs && r.userId == u && r.title.Some? && Keep(rs, r, minMovie, minUser)
  {
    var f := FilterRatings(rs, minMovie, minUser);
    var m := Build(f);
    SimilarityAbsentIffNoTitledRow(f);
    if exists r :: r in rs && r.userId == u && r.title.Some? && Keep(rs, r, minMovie, minUser) {
      var r :| r in rs && r.userId == u && r.title.Some? && Keep(rs, r, minMovie, minUser);
      FilterKeepsExactly(rs, minMovie, minUser, r);
      assert r in f;
    }
    if u in m.users {
      var r :| r in f && r.title.Some? && r.userId == u;
      FilterKeepsExactly(rs, minMovie, minUser, r);
    }
  }

  /**
   * With the title carried, a rating that passes the filter reaches the
   * matrix: the user becomes a row, the title a column, the cell is
   * positive, and the title counts as rated by the user (so it is never
   * recommended back to them).
   */
  lemma {:induction false} AddedRatingReachesMatrix(rs: seq<Observation>, minMovie: nat, minUser: nat,
                                                    user: UserId, movieId: MovieId, title: Title,
                                                    rating: real, now: real)
    requires forall r :: r in rs ==> r.rating > 0.0
    requires rating > 0.0
    requires Keep(rs + [AppendedRow(user, movieId, title, rating, now)],
                  AppendedRow(user, movieId, title, rating, now), minMovie, minUser)
    ensures var m := Build(FilterRatings(rs + [AppendedRow(user, movieId, title, rating, now)], minMovie, minUser));
      user in m.users && title in m.titles && Entry(m, user, title) > 0.0 && title in Rated(m, user)
  {
    var row := AppendedRow(user, movieId, title, rating, now);
    var rs' := rs + [row];
    var f := FilterRatings(rs', minMovie, minUser);
    FilterKeepsExactly(rs', minMovie, minUser, row);
    assert row in f;
    forall r | r in f ensures r.rating > 0.0 {
      FilterKeepsExactly(rs', minMovie, minUser, r);
      assert r in rs || r == row;
    }
    MatchCountZero(f, user, title);
    EntryZeroIffUnrated(f, user, title);
  }

  /** Ratings before the addition in the example below: user 2 passes only with a second row. */
  function ExampleRatings(): seq<Observation>
  {
    [Observation(1, 10, 4.0, 0.0, Some("A")),
     Observation(1, 20, 2.0, 0.0, Some("B")),
     Observation(2, 10, 5.0, 0.0, Some("A"))]
  }

  lemma ExampleAsWrittenPassesFilter()
    ensures var rs := ExampleRatings() + [AppendedRowAsWritten(2, 20, 3.0, 1.0)];
      FilterRatings(rs) == rs
  {
    var o1, o2, o3 := ExampleRatings()[0], ExampleRatings()[1], ExampleRatings()[2];
    var row := AppendedRowAsWritten(2, 20, 3.0, 1.0);
    var rs' := ExampleRatings() + [row];
    var s3 := [row];
    var s2 := [o3] + s3;
    var s1 := [o2] + s2;
    assert rs' == [o1] + s1;
    assert s3 == [row] + [];
    CountsCons(row, [], 10, 1);
    CountsCons(row, [], 20, 2);
    CountsCons(o3, s3, 10, 1);
    CountsCons(o3, s3, 20, 2);
    CountsCons(o2, s2, 10, 1);
    CountsCons(o2, s2, 20, 2);
    CountsCons(o1, s1, 10, 1);
    CountsCons(o1, s1, 20, 2);
    assert MovieCount(rs', 10) == 2 && MovieCount(rs', 20) == 2;
    assert UserCount(rs', 1) == 2 && UserCount(rs', 2) == 2;
    Filter.MaskAll(rs', rs', DefaultMinCount, DefaultMinCount);
  }

  /**
   * As written, the appended row has no title and the pivot drops it: here
   * user 2 rates "B" (movie 20), the row passes the filter (and lets user 2's
   * older row pass too), yet the matrix cell for user 2 and "B" stays 0, so
   * "B" is not among the titles user 2 has rated.
   */
  lemma {:induction false} AddedRatingLostAsWritten()
    ensures var row := AppendedRowAsWritten(2, 20, 3.0, 1.0);
            var f := FilterRatings(ExampleRatings() + [row]);
            var m := Build(f);
            && row in f
            && 2 in m.users && "B" in m.titles
            && Entry(m, 2, "B") == 0.0 && "B" !in Rated(m, 2)
  {
    var row := AppendedRowAsWritten(2, 20, 3.0, 1.0);
    var rs' := ExampleRatings() + [row];
    ExampleAsWrittenPassesFilter();
    var f := FilterRatings(rs');
    assert f == rs';
    assert rs'[1] in f && rs'[2] in f && rs'[3] == row;
    assert forall r :: r in f ==> r == rs'[0] || r == rs'[1] || r == rs'[2] || r == row;
    PresentButUnrated(f, 2, "B");
  }

  /** A user and a title that both have rows, but not together, meet in a 0 cell. */
  lemma {:induction false} PresentButUnrated(f: seq<Observation>, u: UserId, t: Title)
    requires exists r :: r in f && r.userId == u && r.title.Some?
    requires exists r :: r in f && r.title == Some(t)
    requires forall r :: r in f ==> !(r.userId == u && r.title == Some(t))
    ensures var m := Build(f);
      u in m.users && t in m.titles && Entry(m, u, t) == 0.0 && t !in Rated(m, u)
  {
    MatchCountZero(f, u, t);
    EntryIsCell(f, u, t);
  }
}
