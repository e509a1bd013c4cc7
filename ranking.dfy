/**
 * The ranking of `recommend_items`, as functions: the score dictionary that
 * the nested loop builds, the stable descending sort of its items, and the
 * slice that keeps the first N titles. The loop itself is
 * `Recommender.Recommender.RecommendItems`.
 */
module Ranking {
  import opened Types
  import opened Sequences
  import opened PreferenceMatrix

  /** A Python dict from title to score: `keys` in first-insertion order. */
  datatype Scores = Scores(keys: seq<Title>, val: map<Title, real>)

  /** One item of `recommendations.items()`. */
  datatype Scored = Scored(title: Title, score: real)

  datatype Recommendation = NotFound | Titles(titles: seq<Title>)

  ghost predicate DictValid(d: Scores)
  {
    NoDuplicates(d.keys) && forall t :: t in d.val <==> t in d.keys
  }

  /** `d.get(t, 0)` */
  function Get(d: Scores, t: Title): real
  {
    if t in d.val then d.val[t] else 0.0
  }

  /**
   * `d[t] = d.get(t, 0) + x`: a new key goes to the end, an existing key
   * keeps its place.
   */
  function Add(d: Scores, t: Title, x: real): (r: Scores)
    requires DictValid(d)
    ensures DictValid(r)
  {
    if t in d.val then Scores(d.keys, d.val[t := d.val[t] + x])
    else
      assert forall i :: 0 <= i < |d.keys| ==> d.keys[i] in d.val;
      Scores(d.keys + [t], d.val[t := 0.0 + x])
  }

  function Positive(x: real): real
  {
    if x > 0.0 then x else 0.0
  }

  /** `user_rated_items`: the titles the user's row rates above 0. */
  function Rated(m: Matrix, u: UserId): set<Title>
    requires WellFormed(m)
  {
    set t | t in m.titles && Entry(m, u, t) > 0.0
  }

  /** The other users, in row order: `similarity_df[user].drop(user).index` before sorting. */
  function Others(users: seq<UserId>, u: UserId): (r: seq<UserId>)
    ensures forall v :: v in r <==> v in users && v != u
  {
    if users == [] then []
    else (if users[0] == u then [] else [users[0]]) + Others(users[1..], u)
  }

  /** A traversal order of the neighbours: some permutation of the other users. */
  ghost predicate NeighbourOrder(m: Matrix, u: UserId, ns: seq<UserId>)
  {
    multiset(ns) == multiset(Others(m.users, u))
  }

  /** The inner loop: the first `j` columns of the row of neighbour `v` added into `d`. */
  function ScanRow(m: Matrix, rated: set<Title>, v: UserId, d: Scores, j: nat): (r: Scores)
    requires WellFormed(m) && DictValid(d) && j <= |m.titles|
    ensures DictValid(r)
  {
    if j == 0 then d
    else
      var prev := ScanRow(m, rated, v, d, j - 1);
      var t := m.titles[j - 1];
      var x := Entry(m, v, t);
      if t !in rated && x > 0.0 then Add(prev, t, x) else prev
  }

  /** The outer loop: the dictionary after the first `k` neighbours of `ns`. */
  function ScanNeighbours(m: Matrix, rated: set<Title>, ns: seq<UserId>, k: nat): (r: Scores)
    requires WellFormed(m) && k <= |ns|
    ensures DictValid(r)
  {
    if k == 0 then Scores([], map[])
    else ScanRow(m, rated, ns[k - 1], ScanNeighbours(m, rated, ns, k - 1), |m.titles|)
  }

  /** `recommendations.items()` */
  function Items(d: Scores): seq<Scored>
    requires DictValid(d)
  {
    seq(|d.keys|, i requires 0 <= i < |d.keys| => Scored(d.keys[i], d.val[d.keys[i]]))
  }

  ghost predicate Descending(s: seq<Scored>)
  {
    forall i, j :: 0 <= i < j < |s| ==> s[i].score >= s[j].score
  }

  lemma DescendingCons(a: Scored, s: seq<Scored>)
    requires Descending(s) && forall y :: y in s ==> a.score >= y.score
    ensures Descending([a] + s)
  {
    forall i, j | 0 <= i < j < |[a] + s| ensures ([a] + s)[i].score >= ([a] + s)[j].score {
      if i > 0 { assert ([a] + s)[i] == s[i - 1]; }
      assert ([a] + s)[j] == s[j - 1];
      assert s[j - 1] in s;
    }
  }

  /** The head of a descending list scores at least as much as every item. */
  lemma HeadDominates(s: seq<Scored>)
    requires Descending(s) && s != []
    ensures forall y :: y in s ==> s[0].score >= y.score
  {
    forall y | y in s ensures s[0].score >= y.score {
      var k :| 0 <= k < |s| && s[k] == y;
      assert k > 0 ==> s[0].score >= s[k].score;
    }
  }

  /** A bound on the items of `s` and on `x` bounds every item of `r`, which holds just those. */
  lemma BoundByMultiset(a: real, x: Scored, s: seq<Scored>, r: seq<Scored>)
    requires multiset(r) == multiset(s) + multiset{x}
    requires a >= x.score && forall y :: y in s ==> a >= y.score
    ensures forall y :: y in r ==> a >= y.score
  {
    forall y | y in r ensures a >= y.score {
      assert y in multiset(r);
      if y != x {
        assert y in multiset(s);
      }
    }
  }

  /** Puts `x` before the first item whose score it reaches. */
  function InsertByScore(x: Scored, s: seq<Scored>): (r: seq<Scored>)
    ensures multiset(r) == multiset(s) + multiset{x}
  {
    if s == [] then [x]
    else if s[0].score <= x.score then [x] + s
    else
      assert s == [s[0]] + s[1..];
      [s[0]] + InsertByScore(x, s[1..])
  }

  lemma {:induction false} InsertKeepsDescending(x: Scored, s: seq<Scored>)
    requires Descending(s)
    ensures Descending(InsertByScore(x, s))
  {
    if s != [] {
      HeadDominates(s);
      if s[0].score <= x.score {
        DescendingCons(x, s);
      } else {
        var rest := InsertByScore(x, s[1..]);
        InsertKeepsDescending(x, s[1..]);
        assert s == [s[0]] + s[1..];
        BoundByMultiset(s[0].score, x, s[1..], rest);
        DescendingCons(s[0], rest);
      }
    }
  }

  /**
   * `sorted(items, key=lambda x: x[1], reverse=True)`: Python's sort is
   * stable, also with `reverse=True`.
   */
  function SortByScore(s: seq<Scored>): (r: seq<Scored>)
    ensures multiset(r) == multiset(s)
    ensures Descending(r)
  {
    if s == [] then []
    else
      assert s == [s[0]] + s[1..];
      var rest := SortByScore(s[1..]);
      InsertKeepsDescending(s[0], rest);
      InsertByScore(s[0], rest)
  }

  /** Python's `s[:n]`, including a negative `n`, which counts from the end. */
  function Take<T>(s: seq<T>, n: int): (r: seq<T>)
    ensures 0 <= n ==> |r| == if n <= |s| then n else |s|
    ensures n < 0 ==> |r| == if |s| + n >= 0 then |s| + n else 0
    ensures r == s[..|r|]
  {
    if 0 <= n then (if n <= |s| then s[..n] else s)
    else if |s| + n >= 0 then s[..|s| + n]
    else []
  }

  function TitlesOf(s: seq<Scored>): (r: seq<Title>)
    ensures |r| == |s| && forall i :: 0 <= i < |s| ==> r[i] == s[i].title
  {
    if s == [] then [] else [s[0].title] + TitlesOf(s[1..])
  }

  /** `recommend_items(user, n)` on the current matrix and similarity index. */
  function Recommend(m: Matrix, sim: Option<seq<UserId>>, u: UserId, ns: seq<UserId>, n: int): Recommendation
    requires WellFormed(m)
  {
    if sim.None? || u !in sim.value then NotFound
    else Titles(TitlesOf(Take(SortByScore(Items(ScanNeighbours(m, Rated(m, u), ns, |ns|))), n)))
  }

  // ---------------------------------------------------------------------------
  // What the scores are, whatever the neighbour order

  /** The sum of the positive ratings of `t` by the users in `vs`. */
  function NeighbourSum(m: Matrix, vs: seq<UserId>, t: Title): real
    requires WellFormed(m)
  {
    if vs == [] then 0.0
    else NeighbourSum(m, vs[..|vs| - 1], t) + Positive(Entry(m, vs[|vs| - 1], t))
  }

  /** The score of a title for user `u`: its positive ratings summed over all other users. */
  function Score(m: Matrix, u: UserId, t: Title): real
    requires WellFormed(m)
  {
    NeighbourSum(m, Others(m.users, u), t)
  }

  /** A title `u` has not rated (> 0) and some other user has. */
  ghost predicate Candidate(m: Matrix, u: UserId, t: Title)
    requires WellFormed(m)
  {
    && t in m.titles
    && !(Entry(m, u, t) > 0.0)
    && exists v :: v in m.users && v != u && Entry(m, v, t) > 0.0
  }

  lemma {:induction false} NeighbourSumAppend(m: Matrix, a: seq<UserId>, b: seq<UserId>, t: Title)
    requires WellFormed(m)
    ensures NeighbourSum(m, a + b, t) == NeighbourSum(m, a, t) + NeighbourSum(m, b, t)
    decreases |b|
  {
    if b == [] {
      assert a + b == a;
    } else {
      NeighbourSumAppend(m, a, b[..|b| - 1], t);
      assert (a + b)[..|a + b| - 1] == a + b[..|b| - 1];
    }
  }

  /** Taking out the user at position `i` takes out exactly that user's contribution. */
  lemma NeighbourSumRemove(m: Matrix, b: seq<UserId>, i: nat, t: Title)
    requires WellFormed(m) && i < |b|
    ensures NeighbourSum(m, b, t) == NeighbourSum(m, b[..i] + b[i + 1..], t) + Positive(Entry(m, b[i], t))
  {
    assert b == b[..i] + [b[i]] + b[i + 1..];
    NeighbourSumAppend(m, b[..i] + [b[i]], b[i + 1..], t);
    NeighbourSumAppend(m, b[..i], [b[i]], t);
    NeighbourSumAppend(m, b[..i], b[i + 1..], t);
    assert [b[i]][..0] == [];
  }

  /** The sum does not depend on the order in which the users are visited. */
  lemma {:induction false} NeighbourSumPermutation(m: Matrix, a: seq<UserId>, b: seq<UserId>, t: Title)
    requires WellFormed(m) && multiset(a) == multiset(b)
    ensures NeighbourSum(m, a, t) == NeighbourSum(m, b, t)
    decreases |a|
  {
    if a == [] {
      assert |b| == |multiset(b)| == 0;
    } else {
      var x := a[|a| - 1];
      var a' := a[..|a| - 1];
      assert a == a' + [x];
      assert x in multiset(b);
      var i :| 0 <= i < |b| && b[i] == x;
      var b' := b[..i] + b[i + 1..];
      RemoveMatching(a, b, i);
      NeighbourSumPermutation(m, a', b', t);
      NeighbourSumRemove(m, b, i, t);
    }
  }

  /** One dictionary update adds `x` to the score of `s` and to no other. */
  lemma AddEffect(d: Scores, s: Title, x: real, t: Title)
    requires DictValid(d)
    ensures Get(Add(d, s, x), t) == Get(d, t) + if t == s then x else 0.0
    ensures t in Add(d, s, x).val <==> t in d.val || t == s
  {
  }

  /** What scanning the first `j` columns of one neighbour's row does to the score of `t`. */
  lemma {:induction false} ScanRowEffect(m: Matrix, rated: set<Title>, v: UserId, d: Scores, j: nat, t: Title)
    requires WellFormed(m) && DictValid(d) && j <= |m.titles|
    ensures Get(ScanRow(m, rated, v, d, j), t)
         == Get(d, t) + if t !in rated && t in m.titles[..j] then Positive(Entry(m, v, t)) else 0.0
    ensures t in ScanRow(m, rated, v, d, j).val
        <==> t in d.val || (t !in rated && t in m.titles[..j] && Entry(m, v, t) > 0.0)
  {
    if j > 0 {
      var prev := ScanRow(m, rated, v, d, j - 1);
      var s := m.titles[j - 1];
      var x := Entry(m, v, s);
      ScanRowEffect(m, rated, v, d, j - 1, t);
      assert m.titles[..j] == m.titles[..j - 1] + [s];
      var inPrefix := t in m.titles[..j - 1];
      assert t in m.titles[..j] <==> inPrefix || t == s;
      var now := ScanRow(m, rated, v, d, j);
      if s !in rated && x > 0.0 {
        AddEffect(prev, s, x, t);
        assert now == Add(prev, s, x);
      } else {
        assert now == prev;
      }
      if t == s {
        assert !inPrefix;
        assert Get(now, t) == Get(prev, t) + if t !in rated then Positive(x) else 0.0;
      } else {
        assert Get(now, t) == Get(prev, t);
      }
    }
  }

  lemma NeighbourSumLast(m: Matrix, ns: seq<UserId>, k: nat, t: Title)
    requires WellFormed(m) && 0 < k <= |ns|
    ensures NeighbourSum(m, ns[..k], t) == NeighbourSum(m, ns[..k - 1], t) + Positive(Entry(m, ns[k - 1], t))
  {
    assert ns[..k][..k - 1] == ns[..k - 1];
  }

  /** What the `k`-th neighbour's row adds, to the score of `t` and to the keys. */
  lemma ScanNeighboursStep(m: Matrix, rated: set<Title>, ns: seq<UserId>, k: nat, t: Title)
    requires WellFormed(m) && 0 < k <= |ns|
    ensures var here := t !in rated && t in m.titles;
      && Get(ScanNeighbours(m, rated, ns, k), t)
         == Get(ScanNeighbours(m, rated, ns, k - 1), t) + (if here then Positive(Entry(m, ns[k - 1], t)) else 0.0)
      && (t in ScanNeighbours(m, rated, ns, k).val
         <==> t in ScanNeighbours(m, rated, ns, k - 1).val || (here && Entry(m, ns[k - 1], t) > 0.0))
  {
    ScanRowEffect(m, rated, ns[k - 1], ScanNeighbours(m, rated, ns, k - 1), |m.titles|, t);
    assert m.titles[..|m.titles|] == m.titles;
  }

  /** What the first `k` neighbours contribute to the score of `t`. */
  lemma {:induction false} ScanNeighboursScore(m: Matrix, rated: set<Title>, ns: seq<UserId>, k: nat, t: Title)
    requires WellFormed(m) && k <= |ns|
    ensures Get(ScanNeighbours(m, rated, ns, k), t)
         == if t !in rated && t in m.titles then NeighbourSum(m, ns[..k], t) else 0.0
  {
    if k == 0 {
      assert ns[..0] == [];
    } else {
      ScanNeighboursScore(m, rated, ns, k - 1, t);
      ScanNeighboursStep(m, rated, ns, k, t);
      NeighbourSumLast(m, ns, k, t);
    }
  }

  /** A title is a key after the first `k` neighbours exactly when it is unrated and their positive ratings sum above 0. */
  lemma {:induction false} ScanNeighboursKeys(m: Matrix, rated: set<Title>, ns: seq<UserId>, k: nat, t: Title)
    requires WellFormed(m) && k <= |ns|
    ensures t in ScanNeighbours(m, rated, ns, k).val
        <==> t !in rated && t in m.titles && NeighbourSum(m, ns[..k], t) > 0.0
  {
    if k == 0 {
      assert ns[..0] == [];
    } else {
      ScanNeighboursKeys(m, rated, ns, k - 1, t);
      ScanNeighboursStep(m, rated, ns, k, t);
      NeighbourSumLast(m, ns, k, t);
      NeighbourSumNonNegative(m, ns[..k - 1], t);
      assert NeighbourSum(m, ns[..k], t) > 0.0
        <==> NeighbourSum(m, ns[..k - 1], t) > 0.0 || Entry(m, ns[k - 1], t) > 0.0;
    }
  }

  lemma {:induction false} NeighbourSumNonNegative(m: Matrix, vs: seq<UserId>, t: Title)
    requires WellFormed(m)
    ensures NeighbourSum(m, vs, t) >= 0.0
    decreases |vs|
  {
    if vs != [] {
      NeighbourSumNonNegative(m, vs[..|vs| - 1], t);
    }
  }

  /** The sum of positive ratings is above 0 exactly when one of the users rated the title above 0. */
  lemma {:induction false} NeighbourSumPositive(m: Matrix, vs: seq<UserId>, t: Title)
    requires WellFormed(m)
    ensures NeighbourSum(m, vs, t) > 0.0 <==> exists v :: v in vs && Entry(m, v, t) > 0.0
    decreases |vs|
  {
    if vs != [] {
      var w := vs[..|vs| - 1];
      var last := vs[|vs| - 1];
      assert vs == w + [last];
      NeighbourSumPositive(m, w, t);
      NeighbourSumNonNegative(m, w, t);
      if exists v :: v in vs && Entry(m, v, t) > 0.0 {
        var v :| v in vs && Entry(m, v, t) > 0.0;
        if v != last {
          assert v in w;
        }
      }
      if exists v :: v in w && Entry(m, v, t) > 0.0 {
        var v :| v in w && Entry(m, v, t) > 0.0;
        assert v in vs;
      }
    }
  }

  /**
   * After the whole traversal, the dictionary holds exactly the candidate
   * titles, each with its order-independent score.
   */
  lemma {:induction false} DictIsScores(m: Matrix, u: UserId, ns: seq<UserId>, t: Title)
    requires WellFormed(m) && NeighbourOrder(m, u, ns)
    ensures var d := ScanNeighbours(m, Rated(m, u), ns, |ns|);
      && (t in d.val <==> Candidate(m, u, t))
      && (t in d.val ==> d.val[t] == Score(m, u, t))
  {
    ScanNeighboursScore(m, Rated(m, u), ns, |ns|, t);
    ScanNeighboursKeys(m, Rated(m, u), ns, |ns|, t);
    assert ns[..|ns|] == ns;
    NeighbourSumPermutation(m, ns, Others(m.users, u), t);
    NeighbourSumPositive(m, Others(m.users, u), t);
  }

  // ---------------------------------------------------------------------------
  // The stable sort and the slice

  function WithScore(s: seq<Scored>, x: real): seq<Scored>
  {
    if s == [] then [] else (if s[0].score == x then [s[0]] else []) + WithScore(s[1..], x)
  }

  lemma {:induction false} InsertWithScore(y: Scored, s: seq<Scored>, x: real)
    ensures WithScore(InsertByScore(y, s), x) == (if y.score == x then [y] else []) + WithScore(s, x)
  {
    var ys := if y.score == x then [y] else [];
    var r := InsertByScore(y, s);
    if s != [] && s[0].score > y.score {
      var rest := InsertByScore(y, s[1..]);
      InsertWithScore(y, s[1..], x);
      assert r == [s[0]] + rest;
      assert r[1..] == rest;
      var w := WithScore(s[1..], x);
      if s[0].score == x {
        assert y.score != x;
        assert WithScore(r, x) == [s[0]] + w;
        assert WithScore(s, x) == [s[0]] + w;
      } else {
        assert WithScore(r, x) == WithScore(rest, x);
        assert WithScore(s, x) == w;
      }
    } else {
      assert r == [y] + s;
      assert r[1..] == s;
      assert WithScore(r, x) == ys + WithScore(r[1..], x);
    }
  }

  /**
   * Stability: for every score, the items with that score keep their order
   * (the dictionary's first-insertion order, for the ranker).
   */
  lemma {:induction false} SortByScoreIsStable(s: seq<Scored>, x: real)
    ensures WithScore(SortByScore(s), x) == WithScore(s, x)
  {
    if s != [] {
      SortByScoreIsStable(s[1..], x);
      InsertWithScore(s[0], SortByScore(s[1..]), x);
    }
  }

  ghost predicate DistinctTitles(s: seq<Scored>)
  {
    forall i, j :: 0 <= i < j < |s| ==> s[i].title != s[j].title
  }

  lemma DistinctCons(a: Scored, s: seq<Scored>)
    requires DistinctTitles(s) && forall y :: y in s ==> y.title != a.title
    ensures DistinctTitles([a] + s)
  {
    var r := [a] + s;
    forall i, j | 0 <= i < j < |r| ensures r[i].title != r[j].title {
      assert r[j] == s[j - 1] && s[j - 1] in s;
      if i > 0 {
        assert r[i] == s[i - 1];
      }
    }
  }

  lemma DistinctTail(s: seq<Scored>)
    requires DistinctTitles(s) && s != []
    ensures DistinctTitles(s[1..]) && forall y :: y in s[1..] ==> y.title != s[0].title
  {
    forall y | y in s[1..] ensures y.title != s[0].title {
      var k :| 0 <= k < |s[1..]| && s[1..][k] == y;
      assert s[k + 1] == y;
    }
  }

  lemma {:induction false} InsertKeepsTitlesDistinct(x: Scored, s: seq<Scored>)
    requires DistinctTitles(s) && forall y :: y in s ==> y.title != x.title
    ensures DistinctTitles(InsertByScore(x, s))
  {
    if s != [] && s[0].score > x.score {
      DistinctTail(s);
      assert forall y :: y in s[1..] ==> y in s;
      InsertKeepsTitlesDistinct(x, s[1..]);
      var rest := InsertByScore(x, s[1..]);
      assert s[0] in s;
      forall y | y in rest ensures y.title != s[0].title {
        assert y in multiset(rest);
        if y != x {
          assert y in multiset(s[1..]);
        }
      }
      DistinctCons(s[0], rest);
    } else {
      DistinctCons(x, s);
    }
  }

  lemma {:induction false} SortKeepsTitlesDistinct(s: seq<Scored>)
    requires DistinctTitles(s)
    ensures DistinctTitles(SortByScore(s))
  {
    if s != [] {
      SortKeepsTitlesDistinct(s[1..]);
      var rest := SortByScore(s[1..]);
      forall y | y in rest ensures y.title != s[0].title {
        assert y in multiset(rest);
        var k :| 0 <= k < |s[1..]| && s[1..][k] == y;
        assert s[k + 1] == y;
      }
      InsertKeepsTitlesDistinct(s[0], rest);
    }
  }

  /** The first `n` items of the sorted dictionary are items of the dictionary, each title once, best first. */
  lemma {:induction false} TopOfSorted(d: Scores, n: int)
    requires DictValid(d)
    ensures var p := Take(SortByScore(Items(d)), n);
      && (forall k :: 0 <= k < |p| ==> p[k].title in d.val && p[k].score == d.val[p[k].title])
      && DistinctTitles(p) && Descending(p)
  {
    var items := Items(d);
    var sorted := SortByScore(items);
    var p := Take(sorted, n);
    assert DistinctTitles(items);
    SortKeepsTitlesDistinct(items);
    forall k | 0 <= k < |p| ensures p[k].title in d.val && p[k].score == d.val[p[k].title] {
      assert p[k] == sorted[k] && sorted[k] in multiset(items);
      var i :| 0 <= i < |items| && items[i] == p[k];
    }
  }

  /**
   * A dictionary key is left out of the first `n` sorted items only when `n`
   * items were taken, all scoring at least as much as it.
   */
  lemma {:induction false} LeftOutOfTop(d: Scores, n: int, t: Title)
    requires DictValid(d) && t in d.val
    ensures var p := Take(SortByScore(Items(d)), n);
      t !in TitlesOf(p) ==> (0 <= n ==> |p| == n) && forall k :: 0 <= k < |p| ==> p[k].score >= d.val[t]
  {
    var items := Items(d);
    var sorted := SortByScore(items);
    var p := Take(sorted, n);
    if t !in TitlesOf(p) {
      var i := IndexOf(d.keys, t);
      var e := items[i];
      assert e.score == d.val[t];
      assert e in multiset(sorted);
      var q :| 0 <= q < |sorted| && sorted[q] == e;
      var names := TitlesOf(p);
      forall k | 0 <= k < |p| ensures p[k] == sorted[k] && p[k].title != t {
        assert names[k] == p[k].title && names[k] in names;
      }
      assert |p| <= q;
    }
  }

  // ---------------------------------------------------------------------------
  // What recommend_items returns

  /**
   * The result names only candidates (unrated by the user, rated above 0 by
   * another user), each once, and at most `n` of them for `n >= 0` (Python's
   * slice for a negative `n`).
   */
  lemma {:induction false} RecommendSound(m: Matrix, u: UserId, ns: seq<UserId>, n: int)
    requires WellFormed(m) && NeighbourOrder(m, u, ns)
    ensures var r := Recommend(m, SimilarityIndex(m), u, ns, n);
      r.Titles? ==>
        && NoDuplicates(r.titles)
        && (forall k :: 0 <= k < |r.titles| ==> Candidate(m, u, r.titles[k]) && r.titles[k] !in Rated(m, u))
        && (0 <= n ==> |r.titles| <= n)
  {
    var r := Recommend(m, SimilarityIndex(m), u, ns, n);
    if r.Titles? {
      var d := ScanNeighbours(m, Rated(m, u), ns, |ns|);
      TopOfSorted(d, n);
      forall k | 0 <= k < |r.titles| ensures Candidate(m, u, r.titles[k]) {
        DictIsScores(m, u, ns, r.titles[k]);
      }
    }
  }

  /** The titles come in non-increasing order of their score. */
  lemma {:induction false} RecommendRanked(m: Matrix, u: UserId, ns: seq<UserId>, n: int)
    requires WellFormed(m) && NeighbourOrder(m, u, ns)
    ensures var r := Recommend(m, SimilarityIndex(m), u, ns, n);
      r.Titles? ==>
        forall i, j :: 0 <= i < j < |r.titles| ==> Score(m, u, r.titles[i]) >= Score(m, u, r.titles[j])
  {
    var r := Recommend(m, SimilarityIndex(m), u, ns, n);
    if r.Titles? {
      var d := ScanNeighbours(m, Rated(m, u), ns, |ns|);
      TopOfSorted(d, n);
      forall k | 0 <= k < |r.titles| ensures r.titles[k] in d.val && d.val[r.titles[k]] == Score(m, u, r.titles[k]) {
        DictIsScores(m, u, ns, r.titles[k]);
      }
    }
  }

  /**
   * Top N: a candidate is missing from the result only when `n` titles were
   * returned, and then it scores no higher than any returned title.
   */
  lemma {:induction false} RecommendTopN(m: Matrix, u: UserId, ns: seq<UserId>, n: int, t: Title)
    requires WellFormed(m) && NeighbourOrder(m, u, ns)
    requires Candidate(m, u, t)
    ensures var r := Recommend(m, SimilarityIndex(m), u, ns, n);
      r.Titles? && t !in r.titles ==>
        && (0 <= n ==> |r.titles| == n)
        && forall k :: 0 <= k < |r.titles| ==> Score(m, u, r.titles[k]) >= Score(m, u, t)
  {
    var r := Recommend(m, SimilarityIndex(m), u, ns, n);
    if r.Titles? && t !in r.titles {
      var d := ScanNeighbours(m, Rated(m, u), ns, |ns|);
      var p := Take(SortByScore(Items(d)), n);
      assert r.titles == TitlesOf(p);
      TopOfSorted(d, n);
      DictIsScores(m, u, ns, t);
      LeftOutOfTop(d, n, t);
      forall k | 0 <= k < |p| ensures Score(m, u, p[k].title) >= Score(m, u, t) {
        DictIsScores(m, u, ns, p[k].title);
      }
    }
  }
}
