/**
 * The preference matrix of `filter_data`: the filtered rows pivoted into a
 * user x title table (rows sorted by user id, columns by title), each cell
 * the mean of the ratings for that pair and 0 where there is none; and the
 * guard that decides whether a similarity table exists.
 */
module PreferenceMatrix {
  import opened Types
  import opened Sequences

  /** A dense table: `cells[i][j]` is the value for `users[i]` and `titles[j]`. */
  datatype Matrix = Matrix(users: seq<UserId>, titles: seq<Title>, cells: seq<seq<real>>)

  ghost predicate WellFormed(m: Matrix)
  {
    && |m.cells| == |m.users|
    && (forall i :: 0 <= i < |m.cells| ==> |m.cells[i]| == |m.titles|)
    && NoDuplicates(m.users)
    && NoDuplicates(m.titles)
  }

  /** The user of every row that has a title (rows without one fall out of the pivot). */
  function TitledUsers(f: seq<Observation>): (us: seq<UserId>)
    ensures forall u :: u in us <==> exists r :: r in f && r.title.Some? && r.userId == u
  {
    if f == [] then []
    else
      var rest := TitledUsers(f[1..]);
      assert forall r :: r in f[1..] ==> r in f;
      assert forall r :: r in f ==> r == f[0] || r in f[1..];
      (if f[0].title.Some? then [f[0].userId] else []) + rest
  }

  /** The title of every row that has one. */
  function TitlesIn(f: seq<Observation>): (ts: seq<Title>)
    ensures forall t :: t in ts <==> exists r :: r in f && r.title == Some(t)
  {
    if f == [] then []
    else
      var rest := TitlesIn(f[1..]);
      assert forall r :: r in f[1..] ==> r in f;
      assert forall r :: r in f ==> r == f[0] || r in f[1..];
      (if f[0].title.Some? then [f[0].title.value] else []) + rest
  }

  /** Number of rows for the pair (`u`, `t`). */
  function MatchCount(f: seq<Observation>, u: UserId, t: Title): nat
  {
    if f == [] then 0
    else (if f[0].userId == u && f[0].title == Some(t) then 1 else 0) + MatchCount(f[1..], u, t)
  }

  /** Sum of the ratings of the rows for the pair (`u`, `t`). */
  function MatchSum(f: seq<Observation>, u: UserId, t: Title): real
  {
    if f == [] then 0.0
    else (if f[0].userId == u && f[0].title == Some(t) then f[0].rating else 0.0) + MatchSum(f[1..], u, t)
  }

  /** `pivot_table(..., values="rating")` (mean aggregation) followed by `fillna(0)`. */
  function Cell(f: seq<Observation>, u: UserId, t: Title): real
  {
    var n := MatchCount(f, u, t);
    if n == 0 then 0.0 else MatchSum(f, u, t) / n as real
  }

  /**
   * `user_item_matrix` built from the filtered rows: its rows are exactly the
   * users that have a titled row, its columns exactly the titles that occur,
   * each once and in ascending order.
   */
  function Build(f: seq<Observation>): (m: Matrix)
    ensures WellFormed(m)
    ensures forall u :: u in m.users <==> exists r :: r in f && r.title.Some? && r.userId == u
    ensures forall t :: t in m.titles <==> exists r :: r in f && r.title == Some(t)
    ensures Ascending(m.users, IntLess) && Ascending(m.titles, LexLess)
  {
    IntLessIsTotal();
    LexLessIsTotal();
    var users := SortedUnique(TitledUsers(f), IntLess);
    var titles := SortedUnique(TitlesIn(f), LexLess);
    Matrix(users, titles,
      seq(|users|, i requires 0 <= i < |users| =>
        seq(|titles|, j requires 0 <= j < |titles| => Cell(f, users[i], titles[j]))))
  }

  /** The value of the matrix for a user and a title; 0 outside its index. */
  function Entry(m: Matrix, u: UserId, t: Title): real
    requires WellFormed(m)
  {
    if u in m.users && t in m.titles then m.cells[IndexOf(m.users, u)][IndexOf(m.titles, t)] else 0.0
  }

  /** Reading a user's row by column position gives the entry for that column's title. */
  lemma RowEntry(m: Matrix, u: UserId, j: nat)
    requires WellFormed(m) && u in m.users && j < |m.titles|
    ensures m.cells[IndexOf(m.users, u)][j] == Entry(m, u, m.titles[j])
  {
    IndexOfDistinct(m.titles, j);
  }

  /**
   * The index of the similarity table, which exists only when the matrix has
   * at least one row and one column; the similarity values themselves are
   * not modelled.
   */
  function SimilarityIndex(m: Matrix): Option<seq<UserId>>
  {
    if |m.users| > 0 && |m.titles| > 0 then Some(m.users) else None
  }

  lemma {:induction false} MatchCountZero(f: seq<Observation>, u: UserId, t: Title)
    ensures MatchCount(f, u, t) == 0 <==> forall r :: r in f ==> !(r.userId == u && r.title == Some(t))
  {
    if f != [] {
      MatchCountZero(f[1..], u, t);
      assert forall r :: r in f ==> r == f[0] || r in f[1..];
    }
  }

  /** Every cell of the matrix is the pivot value of its pair, and so is every pair outside it. */
  lemma EntryIsCell(f: seq<Observation>, u: UserId, t: Title)
    ensures Entry(Build(f), u, t) == Cell(f, u, t)
  {
    var m := Build(f);
    if u in m.users && t in m.titles {
    } else {
      MatchCountZero(f, u, t);
    }
  }

  lemma {:induction false} MatchSumBounds(f: seq<Observation>, u: UserId, t: Title, lo: real, hi: real)
    requires forall r :: r in f ==> lo <= r.rating <= hi
    ensures lo * MatchCount(f, u, t) as real <= MatchSum(f, u, t) <= hi * MatchCount(f, u, t) as real
  {
    if f != [] {
      MatchSumBounds(f[1..], u, t, lo, hi);
      assert f[0] in f;
      var c := MatchCount(f[1..], u, t) as real;
      assert lo * (c + 1.0) == lo * c + lo && hi * (c + 1.0) == hi * c + hi;
    }
  }

  lemma {:induction false} MatchSumPositive(f: seq<Observation>, u: UserId, t: Title)
    requires forall r :: r in f ==> r.rating > 0.0
    ensures MatchCount(f, u, t) > 0 ==> MatchSum(f, u, t) > 0.0
    ensures MatchSum(f, u, t) >= 0.0
  {
    if f != [] {
      MatchSumPositive(f[1..], u, t);
      assert f[0] in f;
    }
  }

  lemma MeanBounds(s: real, n: real, lo: real, hi: real)
    requires n > 0.0 && lo * n <= s <= hi * n
    ensures s / n * n == s && lo <= s / n <= hi
  {
  }

  lemma CellIsMean(f: seq<Observation>, u: UserId, t: Title)
    requires forall r :: r in f ==> r.rating > 0.0
    ensures Cell(f, u, t) == 0.0 <==> MatchCount(f, u, t) == 0
    ensures MatchCount(f, u, t) > 0 ==>
      Cell(f, u, t) > 0.0 && Cell(f, u, t) * MatchCount(f, u, t) as real == MatchSum(f, u, t)
  {
    MatchSumPositive(f, u, t);
    var n := MatchCount(f, u, t);
    if n > 0 {
      var s := MatchSum(f, u, t);
      assert 0.0 * n as real <= s <= s * n as real;
      MeanBounds(s, n as real, 0.0, s);
    }
  }

  /**
   * With positive ratings, a cell is 0 exactly when the filtered rows have no
   * rating for its pair; otherwise it is their mean, which is positive.
   */
  lemma {:induction false} EntryZeroIffUnrated(f: seq<Observation>, u: UserId, t: Title)
    requires forall r :: r in f ==> r.rating > 0.0
    ensures Entry(Build(f), u, t) == 0.0 <==> MatchCount(f, u, t) == 0
    ensures MatchCount(f, u, t) > 0 ==> Entry(Build(f), u, t) > 0.0
  {
    EntryIsCell(f, u, t);
    CellIsMean(f, u, t);
  }

  /** The mean of ratings in [lo, hi] lies in [lo, hi]. */
  lemma {:induction false} EntryWithinRatingRange(f: seq<Observation>, u: UserId, t: Title, lo: real, hi: real)
    requires forall r :: r in f ==> lo <= r.rating <= hi
    requires MatchCount(f, u, t) > 0
    ensures lo <= Entry(Build(f), u, t) <= hi
  {
    EntryIsCell(f, u, t);
    CellWithinRatingRange(f, u, t, lo, hi);
  }

  lemma CellWithinRatingRange(f: seq<Observation>, u: UserId, t: Title, lo: real, hi: real)
    requires forall r :: r in f ==> lo <= r.rating <= hi
    requires MatchCount(f, u, t) > 0
    ensures lo <= Cell(f, u, t) <= hi
  {
    MatchSumBounds(f, u, t, lo, hi);
    MeanBounds(MatchSum(f, u, t), MatchCount(f, u, t) as real, lo, hi);
  }

  /**
   * The similarity table is absent exactly when no filtered row has a title;
   * the matrix never has rows without columns or columns without rows.
   */
  lemma SimilarityAbsentIffNoTitledRow(f: seq<Observation>)
    ensures SimilarityIndex(Build(f)).None? <==> forall r :: r in f ==> r.title.None?
    ensures |Build(f).users| == 0 <==> |Build(f).titles| == 0
  {
    var m := Build(f);
    if exists r :: r in f && r.title.Some? {
      var r :| r in f && r.title.Some?;
      assert r.userId in m.users && r.title.value in m.titles;
    }
  }
}
