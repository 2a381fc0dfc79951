/** `Array.prototype.filter`, `sort` and `reverse` as functions on sequences.
    `Sort` is a stable insertion sort driven by a "less than or equal"
    predicate, which is how a JavaScript comparator returning a number is
    read here: `le(a, b)` holds when the comparator does not place `b`
    strictly before `a`. */
module Seqs {

  function Filter<T(!new)>(s: seq<T>, keep: T -> bool): (r: seq<T>)
    ensures |r| <= |s|
    ensures forall x :: multiset(r)[x] == if keep(x) then multiset(s)[x] else 0
    ensures forall i :: 0 <= i < |r| ==> keep(r[i])
  {
    if |s| == 0 then []
    else
      var rest := Filter(s[..|s| - 1], keep);
      assert s == s[..|s| - 1] + [s[|s| - 1]];
      if keep(s[|s| - 1]) then rest + [s[|s| - 1]] else rest
  }

  /** A filter that keeps every element returns its input. */
  lemma {:induction false} FilterKeepsAll<T(!new)>(s: seq<T>, keep: T -> bool)
    requires forall i :: 0 <= i < |s| ==> keep(s[i])
    ensures Filter(s, keep) == s
  {
    if |s| > 0 {
      FilterKeepsAll(s[..|s| - 1], keep);
      assert s == s[..|s| - 1] + [s[|s| - 1]];
    }
  }

  /** Two filters in a row are one filter by both tests. */
  lemma {:induction false} FilterTwice<T(!new)>(s: seq<T>, p: T -> bool, q: T -> bool, both: T -> bool)
    requires forall x :: both(x) == (p(x) && q(x))
    ensures Filter(Filter(s, p), q) == Filter(s, both)
  {
    if |s| > 0 {
      var t, y := s[..|s| - 1], s[|s| - 1];
      FilterTwice(t, p, q, both);
      if p(y) {
        var f := Filter(t, p);
        assert (f + [y])[..|f|] == f;
      }
    }
  }

  /** Every element of `s` is ordered before every later one. */
  ghost predicate SortedBy<T>(s: seq<T>, le: (T, T) -> bool)
  {
    forall i, j :: 0 <= i < j < |s| ==> le(s[i], s[j])
  }

  /** What a consistent comparator gives: a total preorder. */
  ghost predicate TotalPreorder<T(!new)>(le: (T, T) -> bool)
  {
    && (forall a, b :: le(a, b) || le(b, a))
    && (forall a, b, c :: le(a, b) && le(b, c) ==> le(a, c))
  }

  /** Places `x` before the first element it is ordered before. */
  function Insert<T>(x: T, s: seq<T>, le: (T, T) -> bool): (r: seq<T>)
    ensures |r| == |s| + 1
    ensures multiset(r) == multiset(s) + multiset{x}
  {
    if |s| == 0 then [x]
    else if le(x, s[0]) then [x] + s
    else
      assert s == [s[0]] + s[1..];
      [s[0]] + Insert(x, s[1..], le)
  }

  function Sort<T>(s: seq<T>, le: (T, T) -> bool): (r: seq<T>)
    ensures |r| == |s|
    ensures multiset(r) == multiset(s)
  {
    if |s| == 0 then []
    else
      assert s == [s[0]] + s[1..];
      Insert(s[0], Sort(s[1..], le), le)
  }

  lemma {:induction false} InsertSorted<T(!new)>(x: T, s: seq<T>, le: (T, T) -> bool)
    requires TotalPreorder(le) && SortedBy(s, le)
    ensures SortedBy(Insert(x, s, le), le)
  {
    if |s| > 0 && !le(x, s[0]) {
      InsertSorted(x, s[1..], le);
      var r := Insert(x, s[1..], le);
      assert le(s[0], x);
      forall j | 0 <= j < |r| ensures le(s[0], r[j]) {
        assert r[j] in multiset(r);
        if r[j] != x {
          assert r[j] in multiset(s[1..]);
          var k :| 0 <= k < |s[1..]| && s[1..][k] == r[j];
          assert s[k + 1] == r[j];
        }
      }
    }
  }

  /** `Sort` orders its result whenever `le` is a total preorder. */
  lemma {:induction false} SortSorted<T(!new)>(s: seq<T>, le: (T, T) -> bool)
    requires TotalPreorder(le)
    ensures SortedBy(Sort(s, le), le)
  {
    if |s| > 0 {
      SortSorted(s[1..], le);
      InsertSorted(s[0], Sort(s[1..], le), le);
    }
  }

  /** Sorting a sequence that is already in order changes nothing. */
  lemma {:induction false} SortOfSorted<T>(s: seq<T>, le: (T, T) -> bool)
    requires SortedBy(s, le)
    ensures Sort(s, le) == s
  {
    if |s| > 0 {
      assert SortedBy(s[1..], le) by {
        forall i, j | 0 <= i < j < |s[1..]| ensures le(s[1..][i], s[1..][j]) {
          assert le(s[i + 1], s[j + 1]);
        }
      }
      SortOfSorted(s[1..], le);
      if |s| > 1 {
        assert le(s[0], s[1]);
      }
    }
  }

  // ---------------------------------------------------------------- stability

  /** The elements `le` ranks level with `a`. */
  function Tied<T>(le: (T, T) -> bool, a: T): T -> bool
  {
    x => le(x, a) && le(a, x)
  }

  /** Filtering distributes over concatenation. */
  lemma {:induction false} FilterConcat<T(!new)>(a: seq<T>, b: seq<T>, keep: T -> bool)
    ensures Filter(a + b, keep) == Filter(a, keep) + Filter(b, keep)
    decreases |b|
  {
    if |b| == 0 {
      assert a + b == a;
    } else {
      var b' := b[..|b| - 1];
      assert (a + b)[..|a + b| - 1] == a + b';
      assert (a + b)[|a + b| - 1] == b[|b| - 1];
      FilterConcat(a, b', keep);
    }
  }

  lemma FilterSingleton<T(!new)>(x: T, keep: T -> bool)
    ensures Filter([x], keep) == if keep(x) then [x] else []
  {
    assert [x][..0] == [];
  }

  /** Inserting keeps, among elements that are all ranked level, the
      inserted one in front of the others. */
  lemma {:induction false} FilterInsert<T(!new)>(x: T, s: seq<T>, le: (T, T) -> bool, keep: T -> bool)
    requires forall a, b :: keep(a) && keep(b) ==> le(a, b)
    ensures Filter(Insert(x, s, le), keep) == Filter([x] + s, keep)
  {
    if |s| > 0 && !le(x, s[0]) {
      var t := s[1..];
      assert s == [s[0]] + t;
      assert Insert(x, s, le) == [s[0]] + Insert(x, t, le);
      assert !(keep(x) && keep(s[0]));
      calc {
        Filter(Insert(x, s, le), keep);
        { FilterConcat([s[0]], Insert(x, t, le), keep); }
        Filter([s[0]], keep) + Filter(Insert(x, t, le), keep);
        { FilterInsert(x, t, le, keep); FilterConcat([x], t, keep); }
        Filter([s[0]], keep) + (Filter([x], keep) + Filter(t, keep));
        { SwapUnkept(x, s[0], keep, Filter(t, keep)); }
        Filter([x], keep) + (Filter([s[0]], keep) + Filter(t, keep));
        { FilterConcat([s[0]], t, keep); }
        Filter([x], keep) + Filter(s, keep);
        { FilterConcat([x], s, keep); }
        Filter([x] + s, keep);
      }
    }
  }

  /** Two elements of which at most one is kept may swap places before a filter. */
  lemma SwapUnkept<T(!new)>(x: T, y: T, keep: T -> bool, u: seq<T>)
    requires !(keep(x) && keep(y))
    ensures Filter([y], keep) + (Filter([x], keep) + u) == Filter([x], keep) + (Filter([y], keep) + u)
  {
    FilterSingleton(x, keep);
    FilterSingleton(y, keep);
  }

  /** `Sort` is stable: among elements that are all ranked level, the
      sorted sequence keeps the order of the input. */
  lemma {:induction false} SortStable<T(!new)>(s: seq<T>, le: (T, T) -> bool, keep: T -> bool)
    requires forall a, b :: keep(a) && keep(b) ==> le(a, b)
    ensures Filter(Sort(s, le), keep) == Filter(s, keep)
  {
    if |s| > 0 {
      var t := s[1..];
      assert s == [s[0]] + t;
      SortStable(t, le, keep);
      FilterInsert(s[0], Sort(t, le), le, keep);
      FilterConcat([s[0]], Sort(t, le), keep);
      FilterConcat([s[0]], t, keep);
    }
  }

  /** Under a total preorder, elements ranked level with `a` come out of
      `Sort` in the order the input has them. */
  lemma SortKeepsTies<T(!new)>(s: seq<T>, le: (T, T) -> bool, a: T)
    requires TotalPreorder(le)
    ensures Filter(Sort(s, le), Tied(le, a)) == Filter(s, Tied(le, a))
  {
    var keep := Tied(le, a);
    forall x, y | keep(x) && keep(y) ensures le(x, y) {
      assert le(x, a) && le(a, y);
    }
    SortStable(s, le, keep);
  }

  /** `SortKeepsTies` for every element at once. */
  lemma SortKeepsEveryTie<T(!new)>(s: seq<T>, le: (T, T) -> bool)
    requires TotalPreorder(le)
    ensures forall a :: Filter(Sort(s, le), Tied(le, a)) == Filter(s, Tied(le, a))
  {
    forall a ensures Filter(Sort(s, le), Tied(le, a)) == Filter(s, Tied(le, a)) {
      SortKeepsTies(s, le, a);
    }
  }

  /** Two kept elements keep their relative order in the filtered sequence. */
  lemma {:induction false} FilterKeepsPairOrder<T(!new)>(s: seq<T>, keep: T -> bool, i: int, j: int)
    requires 0 <= i < j < |s| && keep(s[i]) && keep(s[j])
    ensures exists i', j' :: 0 <= i' < j' < |Filter(s, keep)| && Filter(s, keep)[i'] == s[i] && Filter(s, keep)[j'] == s[j]
  {
    var t := s[..|s| - 1];
    var f := Filter(t, keep);
    assert s[i] == t[i];
    FilterExtends(s, keep);
    if j == |s| - 1 {
      FilterHasKept(t, keep, i);
      var i' :| 0 <= i' < |f| && f[i'] == s[i];
      assert Filter(s, keep)[i'] == s[i];
      assert Filter(s, keep)[|f|] == s[j];
    } else {
      assert s[j] == t[j];
      FilterKeepsPairOrder(t, keep, i, j);
      var i', j' :| 0 <= i' < j' < |f| && f[i'] == s[i] && f[j'] == s[j];
      assert Filter(s, keep)[i'] == s[i] && Filter(s, keep)[j'] == s[j];
    }
  }

  /** A kept element of the input is an element of the filtered sequence. */
  lemma FilterHasKept<T(!new)>(s: seq<T>, keep: T -> bool, i: int)
    requires 0 <= i < |s| && keep(s[i])
    ensures exists i' :: 0 <= i' < |Filter(s, keep)| && Filter(s, keep)[i'] == s[i]
  {
    assert s[i] in multiset(s);
    assert multiset(Filter(s, keep))[s[i]] == multiset(s)[s[i]];
    assert s[i] in multiset(Filter(s, keep));
  }

  /** Filtering a non-empty sequence extends the filtered sequence of its front. */
  lemma FilterExtends<T(!new)>(s: seq<T>, keep: T -> bool)
    requires |s| > 0
    ensures Filter(s, keep) == Filter(s[..|s| - 1], keep) + (if keep(s[|s| - 1]) then [s[|s| - 1]] else [])
  {
  }

  /** Filtering keeps a sequence ordered. */
  lemma {:induction false} FilterSortedBy<T(!new)>(s: seq<T>, keep: T -> bool, rel: (T, T) -> bool)
    requires SortedBy(s, rel)
    ensures SortedBy(Filter(s, keep), rel)
  {
    if |s| > 0 {
      var t, y := s[..|s| - 1], s[|s| - 1];
      assert SortedBy(t, rel) by {
        forall i, j | 0 <= i < j < |t| ensures rel(t[i], t[j]) {
          assert t[i] == s[i] && t[j] == s[j];
        }
      }
      FilterSortedBy(t, keep, rel);
      var f := Filter(t, keep);
      if keep(y) {
        forall i | 0 <= i < |f| ensures rel(f[i], y) {
          assert f[i] in multiset(f);
          assert f[i] in multiset(t);
          var k :| 0 <= k < |t| && t[k] == f[i];
          assert s[k] == f[i];
        }
      }
    }
  }

  /** When the input is ordered by `rel`, elements that `Sort` ranks level
      come out ordered by `rel` as well. */
  lemma SortTiesFollowInput<T(!new)>(s: seq<T>, le: (T, T) -> bool, rel: (T, T) -> bool)
    requires TotalPreorder(le) && SortedBy(s, rel)
    ensures forall i, j :: 0 <= i < j < |Sort(s, le)| && le(Sort(s, le)[j], Sort(s, le)[i]) ==> rel(Sort(s, le)[i], Sort(s, le)[j])
  {
    var r := Sort(s, le);
    SortSorted(s, le);
    forall i, j | 0 <= i < j < |r| && le(r[j], r[i]) ensures rel(r[i], r[j]) {
      var keep := Tied(le, r[i]);
      assert le(r[i], r[j]);
      assert keep(r[i]) && keep(r[j]);
      FilterKeepsPairOrder(r, keep, i, j);
      SortKeepsTies(s, le, r[i]);
      FilterSortedBy(s, keep, rel);
      var f := Filter(r, keep);
      var i', j' :| 0 <= i' < j' < |f| && f[i'] == r[i] && f[j'] == r[j];
    }
  }

  function Reverse<T>(s: seq<T>): (r: seq<T>)
    ensures |r| == |s|
    ensures forall i :: 0 <= i < |s| ==> r[i] == s[|s| - 1 - i]
  {
    if |s| == 0 then []
    else
      var r := [s[|s| - 1]] + Reverse(s[..|s| - 1]);
      assert forall i :: 0 < i < |s| ==> r[i] == Reverse(s[..|s| - 1])[i - 1];
      r
  }

  lemma ReverseMultiset<T>(s: seq<T>)
    ensures multiset(Reverse(s)) == multiset(s)
    decreases |s|
  {
    if |s| > 0 {
      ReverseMultiset(s[1..]);
      assert Reverse(s) == Reverse(s[1..]) + [s[0]];
      assert s == [s[0]] + s[1..];
    }
  }

  /** Reversing a sorted sequence orders it the other way round. */
  lemma ReverseSorted<T>(s: seq<T>, le: (T, T) -> bool)
    requires SortedBy(s, le)
    ensures forall i, j :: 0 <= i < j < |s| ==> le(Reverse(s)[j], Reverse(s)[i])
  {
    var r := Reverse(s);
    forall i, j | 0 <= i < j < |s| ensures le(r[j], r[i]) {
      assert r[j] == s[|s| - 1 - j] && r[i] == s[|s| - 1 - i];
    }
  }

  /** Filtering a reversed sequence is reversing the filtered one. */
  lemma {:induction false} FilterReverse<T(!new)>(s: seq<T>, keep: T -> bool)
    ensures Filter(Reverse(s), keep) == Reverse(Filter(s, keep))
  {
    if |s| > 0 {
      var t, y := s[..|s| - 1], s[|s| - 1];
      var f := Filter(t, keep);
      FilterReverse(t, keep);
      FilterConcat([y], Reverse(t), keep);
      FilterSingleton(y, keep);
      if keep(y) {
        ReverseSnoc(f, y);
      }
    }
  }

  lemma ReverseSnoc<T>(t: seq<T>, y: T)
    ensures Reverse(t + [y]) == [y] + Reverse(t)
  {
    assert (t + [y])[..|t|] == t;
  }

  /** The elements of `s` are pairwise different. */
  ghost predicate NoDuplicates<T>(s: seq<T>)
  {
    forall i, j :: 0 <= i < j < |s| ==> s[i] != s[j]
  }

  /** A sequence has no duplicates exactly when no element occurs twice in its multiset. */
  lemma {:induction false} NoDuplicatesCount<T(!new)>(s: seq<T>)
    ensures NoDuplicates(s) <==> forall x :: multiset(s)[x] <= 1
  {
    if |s| > 0 {
      var t, y := s[..|s| - 1], s[|s| - 1];
      assert s == t + [y];
      NoDuplicatesCount(t);
      assert NoDuplicates(s) <==> NoDuplicates(t) && y !in t by {
        if NoDuplicates(s) {
          assert NoDuplicates(t) by {
            forall i, j | 0 <= i < j < |t| ensures t[i] != t[j] {
              assert t[i] == s[i] && t[j] == s[j];
            }
          }
        }
      }
      assert forall x :: multiset(s)[x] == multiset(t)[x] + (if x == y then 1 else 0);
      if forall x :: multiset(s)[x] <= 1 {
        assert forall x :: multiset(t)[x] <= 1 by {
          forall x ensures multiset(t)[x] <= 1 {
            assert multiset(s)[x] <= 1;
          }
        }
        assert multiset(s)[y] <= 1;
        assert y !in t;
      } else {
        var x :| multiset(s)[x] > 1;
        if x != y {
          assert multiset(t)[x] > 1;
        } else {
          assert multiset(t)[y] > 0;
          assert y in t;
        }
      }
    }
  }

  /** Reordering keeps a sequence free of duplicates. */
  lemma NoDuplicatesPermutation<T(!new)>(a: seq<T>, b: seq<T>)
    requires multiset(a) == multiset(b) && NoDuplicates(a)
    ensures NoDuplicates(b)
  {
    NoDuplicatesCount(a);
    NoDuplicatesCount(b);
  }

  /** A duplicate-free sequence has as many distinct elements as it is long. */
  lemma {:induction false} NoDuplicatesCardinality<T>(s: seq<T>)
    requires NoDuplicates(s)
    ensures |set x | x in s| == |s|
  {
    if |s| > 0 {
      var t, y := s[..|s| - 1], s[|s| - 1];
      assert s == t + [y];
      assert NoDuplicates(t) by {
        forall i, j | 0 <= i < j < |t| ensures t[i] != t[j] {
          assert t[i] == s[i] && t[j] == s[j];
        }
      }
      NoDuplicatesCardinality(t);
      assert y !in t;
      assert (set x | x in s) == (set x | x in t) + {y};
    }
  }

  /** A non-empty set has an element (the witness a loop over a set's keys picks). */
  lemma NonEmptySetHasElement(s: set<int>)
    requires s != {}
    ensures exists x :: x in s
  {
    if forall x :: x !in s {
      assert false;
    }
  }
}
