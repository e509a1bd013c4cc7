/**
 * Orders and sequence helpers shared by the filter, the pivot and the ranker:
 * Python's ordering of strings, duplicate-free ascending key lists (the index
 * of a pivot table) and positions of keys.
 */
module Sequences {

  /** Python's `<` on `str`: code point by code point, a proper prefix first. */
  predicate LexLess(a: string, b: string)
  {
    if a == [] then b != []
    else if b == [] then false
    else a[0] < b[0] || (a[0] == b[0] && LexLess(a[1..], b[1..]))
  }

  predicate IntLess(a: int, b: int)
  {
    a < b
  }

  ghost predicate Total<T(!new)>(lt: (T, T) -> bool)
  {
    forall a, b :: a == b || lt(a, b) || lt(b, a)
  }

  predicate Ascending<T>(s: seq<T>, lt: (T, T) -> bool)
  {
    forall i :: 0 < i < |s| ==> lt(s[i - 1], s[i])
  }

  predicate NoDuplicates<T(==)>(s: seq<T>)
  {
    forall i, j :: 0 <= i < j < |s| ==> s[i] != s[j]
  }

  lemma {:induction false} LexLessTrichotomy(a: string, b: string)
    ensures a == b || LexLess(a, b) || LexLess(b, a)
  {
    if a != [] && b != [] && a[0] == b[0] {
      LexLessTrichotomy(a[1..], b[1..]);
      if a[1..] == b[1..] {
        assert a == [a[0]] + a[1..] && b == [b[0]] + b[1..];
      }
    }
  }

  lemma LexLessIsTotal()
    ensures Total(LexLess)
  {
    forall a: string, b: string
      ensures a == b || LexLess(a, b) || LexLess(b, a)
    {
      LexLessTrichotomy(a, b);
    }
  }

  lemma IntLessIsTotal()
    ensures Total(IntLess)
  {
  }

  /** Inserts a key that is not yet present into an ascending list. */
  function InsertNew<T(==,!new)>(x: T, s: seq<T>, lt: (T, T) -> bool): (r: seq<T>)
    requires Total(lt) && Ascending(s, lt) && NoDuplicates(s) && x !in s
    ensures forall y :: y in r <==> y == x || y in s
    ensures Ascending(r, lt) && NoDuplicates(r)
    ensures |r| == |s| + 1 && (r[0] == x || (s != [] && r[0] == s[0]))
  {
    if s == [] then [x]
    else if lt(x, s[0]) then [x] + s
    else
      var rest := InsertNew(x, s[1..], lt);
      assert lt(s[0], x);
      assert s[1..] != [] ==> lt(s[0], s[1]);
      assert s[0] !in s[1..] by {
        forall k | 0 <= k < |s[1..]| ensures s[1..][k] != s[0] { assert s[1..][k] == s[k + 1]; }
      }
      [s[0]] + rest
  }

  /**
   * The duplicate-free ascending list of the keys in `xs`: what a pandas
   * pivot table uses as its (sorted) row or column index.
   */
  function SortedUnique<T(==,!new)>(xs: seq<T>, lt: (T, T) -> bool): (r: seq<T>)
    requires Total(lt)
    ensures forall y :: y in r <==> y in xs
    ensures Ascending(r, lt) && NoDuplicates(r)
  {
    if xs == [] then []
    else
      var rest := SortedUnique(xs[1..], lt);
      if xs[0] in rest then rest else InsertNew(xs[0], rest, lt)
  }

  /** Position of a key in a sequence (a label lookup such as `df.loc`). */
  function IndexOf<T(==)>(s: seq<T>, x: T): (k: nat)
    requires x in s
    ensures k < |s| && s[k] == x
    ensures forall i :: 0 <= i < k ==> s[i] != x
  {
    if s[0] == x then 0 else 1 + IndexOf(s[1..], x)
  }

  lemma IndexOfDistinct<T>(s: seq<T>, k: nat)
    requires NoDuplicates(s) && k < |s|
    ensures IndexOf(s, s[k]) == k
  {
  }

  /** Taking the last item out of `a` and a matching item out of `b` keeps two permutations permutations. */
  lemma RemoveMatching<T>(a: seq<T>, b: seq<T>, i: nat)
    requires multiset(a) == multiset(b) && a != [] && i < |b| && b[i] == a[|a| - 1]
    ensures multiset(a[..|a| - 1]) == multiset(b[..i] + b[i + 1..])
  {
    var x := b[i];
    assert a == a[..|a| - 1] + [x];
    assert b == b[..i] + [x] + b[i + 1..];
    var a', b' := multiset(a[..|a| - 1]), multiset(b[..i] + b[i + 1..]);
    assert a' + multiset{x} == b' + multiset{x};
    assert a' == a' + multiset{x} - multiset{x};
    assert b' == b' + multiset{x} - multiset{x};
  }
}
