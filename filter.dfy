/**
 * The interaction filter of `filter_data`: both frequency tables are taken
 * over the unfiltered ratings, and a row is kept exactly when its movie and
 * its user both reach their threshold. It is one boolean mask, not an
 * iterated prune.
 */
module Filter {
  import opened Types

  /** The threshold the code uses for both tables. */
  const DefaultMinCount: nat := 2

  /** `ratings['movieId'].value_counts()[m]`, zero for an absent id. */
  function MovieCount(rs: seq<Observation>, m: MovieId): (c: nat)
    ensures c <= |rs|
  {
    if rs == [] then 0
    else (if rs[0].movieId == m then 1 else 0) + MovieCount(rs[1..], m)
  }

  /** `ratings['userId'].value_counts()[u]`, zero for an absent id. */
  function UserCount(rs: seq<Observation>, u: UserId): (c: nat)
    ensures c <= |rs|
  {
    if rs == [] then 0
    else (if rs[0].userId == u then 1 else 0) + UserCount(rs[1..], u)
  }

  /** The mask: both counts are taken over `all`, the unfiltered ratings. */
  predicate Keep(all: seq<Observation>, r: Observation, minMovie: nat, minUser: nat)
  {
    MovieCount(all, r.movieId) >= minMovie && UserCount(all, r.userId) >= minUser
  }

  /** Applies the mask of `all` to the rows of `s`, in order. */
  function Mask(all: seq<Observation>, s: seq<Observation>, minMovie: nat, minUser: nat): (r: seq<Observation>)
    ensures |r| <= |s|
    ensures forall x :: x in r ==> x in s && Keep(all, x, minMovie, minUser)
  {
    if s == [] then []
    else (if Keep(all, s[0], minMovie, minUser) then [s[0]] else []) + Mask(all, s[1..], minMovie, minUser)
  }

  /** `filtered_ratings` of `filter_data`. */
  function FilterRatings(rs: seq<Observation>, minMovie: nat := DefaultMinCount, minUser: nat := DefaultMinCount)
    : (r: seq<Observation>)
    ensures |r| <= |rs|
    ensures forall x :: x in r ==> x in rs && Keep(rs, x, minMovie, minUser)
  {
    Mask(rs, rs, minMovie, minUser)
  }

  lemma MaskAll(all: seq<Observation>, s: seq<Observation>, minMovie: nat, minUser: nat)
    requires forall r :: r in s ==> Keep(all, r, minMovie, minUser)
    ensures Mask(all, s, minMovie, minUser) == s
  {
    if s != [] {
      MaskAll(all, s[1..], minMovie, minUser);
    }
  }

  /** A count is 0 exactly for an id that no row carries (`value_counts` has no entry for it). */
  lemma {:induction false} CountsZeroIffAbsent(rs: seq<Observation>, mv: MovieId, u: UserId)
    ensures MovieCount(rs, mv) == 0 <==> forall r :: r in rs ==> r.movieId != mv
    ensures UserCount(rs, u) == 0 <==> forall r :: r in rs ==> r.userId != u
  {
    if rs != [] {
      CountsZeroIffAbsent(rs[1..], mv, u);
      assert forall r :: r in rs <==> r == rs[0] || r in rs[1..];
    }
  }

  /** Counting over a row followed by more rows. */
  lemma CountsCons(x: Observation, rs: seq<Observation>, mv: MovieId, u: UserId)
    ensures MovieCount([x] + rs, mv) == (if x.movieId == mv then 1 else 0) + MovieCount(rs, mv)
    ensures UserCount([x] + rs, u) == (if x.userId == u then 1 else 0) + UserCount(rs, u)
  {
    assert ([x] + rs)[1..] == rs;
  }

  /** `a` is `b` with some rows left out and the rest in their original order. */
  ghost predicate Subsequence<T>(a: seq<T>, b: seq<T>)
    decreases |b|
  {
    a == [] || (b != [] && ((a[0] == b[0] && Subsequence(a[1..], b[1..])) || Subsequence(a, b[1..])))
  }

  lemma {:induction false} MaskMultiplicity(all: seq<Observation>, s: seq<Observation>, minMovie: nat, minUser: nat, x: Observation)
    ensures multiset(Mask(all, s, minMovie, minUser))[x] == if Keep(all, x, minMovie, minUser) then multiset(s)[x] else 0
  {
    if s != [] {
      MaskMultiplicity(all, s[1..], minMovie, minUser, x);
      assert s == [s[0]] + s[1..];
    }
  }

  lemma {:induction false} MaskSubsequence(all: seq<Observation>, s: seq<Observation>, minMovie: nat, minUser: nat)
    ensures Subsequence(Mask(all, s, minMovie, minUser), s)
  {
    if s != [] {
      MaskSubsequence(all, s[1..], minMovie, minUser);
      var m := Mask(all, s, minMovie, minUser);
      if Keep(all, s[0], minMovie, minUser) {
        assert m[0] == s[0] && m[1..] == Mask(all, s[1..], minMovie, minUser);
      } else {
        assert m == Mask(all, s[1..], minMovie, minUser);
      }
    }
  }

  /**
   * Soundness and completeness: every row of the ratings is kept, as often
   * as it occurs, exactly when its movie and its user reach the thresholds
   * in the unfiltered ratings; nothing else is in the result.
   */
  lemma FilterKeepsExactly(rs: seq<Observation>, minMovie: nat, minUser: nat, x: Observation)
    ensures multiset(FilterRatings(rs, minMovie, minUser))[x]
         == if MovieCount(rs, x.movieId) >= minMovie && UserCount(rs, x.userId) >= minUser
            then multiset(rs)[x] else 0
    ensures x in FilterRatings(rs, minMovie, minUser)
        <==> x in rs && MovieCount(rs, x.movieId) >= minMovie && UserCount(rs, x.userId) >= minUser
  {
    MaskMultiplicity(rs, rs, minMovie, minUser, x);
  }

  /** The filter is a boolean mask: an order-preserving subsequence of the ratings. */
  lemma FilterIsSubsequence(rs: seq<Observation>, minMovie: nat, minUser: nat)
    ensures Subsequence(FilterRatings(rs, minMovie, minUser), rs)
  {
    MaskSubsequence(rs, rs, minMovie, minUser);
  }

  /**
   * The counts are not recomputed on the survivors: here user 1 keeps a row
   * although only one of that user's rows survives, so the filtered set does
   * not itself meet the thresholds.
   */
  lemma FilterIsSinglePass()
    ensures var rs := [Observation(1, 10, 4.0, 0.0, Some("A")),
                       Observation(1, 20, 2.0, 0.0, Some("B")),
                       Observation(2, 10, 5.0, 0.0, Some("A"))];
            var f := FilterRatings(rs);
            f == [rs[0]] && UserCount(f, 1) == 1 && MovieCount(f, 10) == 1
  {
    var rs := [Observation(1, 10, 4.0, 0.0, Some("A")),
               Observation(1, 20, 2.0, 0.0, Some("B")),
               Observation(2, 10, 5.0, 0.0, Some("A"))];
    assert MovieCount(rs, 10) == 2 && MovieCount(rs, 20) == 1;
    assert UserCount(rs, 1) == 2 && UserCount(rs, 2) == 1;
  }
}
