/** Stable sorting, standing in for std::stable_sort and JavaScript's Array.prototype.sort:
    the library's own algorithm is not the repository's, so only its promise is used, and that
    promise is proved here of a stable insertion sort. */
module Sorting {

  function Insert<T>(x: T, s: seq<T>, less: (T, T) -> bool): seq<T>
  {
    if s == [] then [x]
    else if less(s[0], x) then [s[0]] + Insert(x, s[1..], less)
    else [x] + s
  }

  function StableSort<T>(s: seq<T>, less: (T, T) -> bool): seq<T>
  {
    if s == [] then [] else Insert(s[0], StableSort(s[1..], less), less)
  }

  /** What a C++ comparator has to be. */
  ghost predicate StrictWeakOrder<T(!new)>(less: (T, T) -> bool)
  {
    && (forall a, b :: less(a, b) ==> !less(b, a))
    && (forall a, b, c :: less(a, b) ==> less(a, c) || less(c, b))
  }

  predicate Sorted<T>(s: seq<T>, less: (T, T) -> bool)
  {
    forall i, j :: 0 <= i < j < |s| ==> !less(s[j], s[i])
  }

  predicate Ascending<T>(s: seq<T>, before: (T, T) -> bool)
  {
    forall i, j :: 0 <= i < j < |s| ==> before(s[i], s[j])
  }

  predicate NoRepeats<T(==)>(s: seq<T>)
  {
    forall i, j :: 0 <= i < j < |s| ==> s[i] != s[j]
  }

  lemma {:induction false} InsertPermutes<T>(x: T, s: seq<T>, less: (T, T) -> bool)
    ensures multiset(Insert(x, s, less)) == multiset(s) + multiset{x}
  {
    if s != [] && less(s[0], x) {
      InsertPermutes(x, s[1..], less);
      assert s == [s[0]] + s[1..];
    }
  }

  lemma {:induction false} SortPermutes<T>(s: seq<T>, less: (T, T) -> bool)
    ensures multiset(StableSort(s, less)) == multiset(s)
    ensures |StableSort(s, less)| == |s|
  {
    if s != [] {
      SortPermutes(s[1..], less);
      InsertPermutes(s[0], StableSort(s[1..], less), less);
      assert s == [s[0]] + s[1..];
    }
    assert |multiset(StableSort(s, less))| == |multiset(s)|;
  }

  lemma MultisetMembers<T>(a: seq<T>, b: seq<T>)
    requires multiset(a) == multiset(b)
    ensures |a| == |b|
    ensures forall x :: x in a <==> x in b
  {
    assert |multiset(a)| == |multiset(b)|;
    forall x ensures x in a <==> x in b {
      assert x in multiset(a) <==> x in a;
    }
  }

  /** The order a stable sort leaves between two elements of its result: `less` decides, and where
      it does not, they stand as they stood in the input (any relation `before` the input respects). */
  predicate StableBefore<T>(less: (T, T) -> bool, before: (T, T) -> bool, a: T, b: T)
  {
    less(a, b) || (!less(b, a) && before(a, b))
  }

  lemma {:induction false} InsertIsStable<T(!new)>(x: T, s: seq<T>, less: (T, T) -> bool, before: (T, T) -> bool)
    requires StrictWeakOrder(less)
    requires Ascending(s, (a, b) => StableBefore(less, before, a, b))
    requires forall y :: y in s ==> before(x, y)
    ensures Ascending(Insert(x, s, less), (a, b) => StableBefore(less, before, a, b))
  {
    if s != [] && less(s[0], x) {
      InsertIsStable(x, s[1..], less, before);
      InsertPermutes(x, s[1..], less);
      var r := Insert(x, s[1..], less);
      forall j | 0 <= j < |r| ensures StableBefore(less, before, s[0], r[j]) {
        assert r[j] in multiset(r);
        assert r[j] == x || r[j] in s[1..];
        if r[j] != x {
          var k :| 0 <= k < |s[1..]| && s[1..][k] == r[j];
          assert s[k + 1] == r[j];
        }
      }
    } else if s != [] {
      forall j | 0 <= j < |s| ensures StableBefore(less, before, x, s[j]) {
        assert before(x, s[j]);
        assert j > 0 ==> StableBefore(less, before, s[0], s[j]);
      }
    }
  }

  /** The sort is stable: the result is ordered by `less`, and by the input's own order where `less`
      does not decide. */
  lemma {:induction false} SortIsStable<T(!new)>(s: seq<T>, less: (T, T) -> bool, before: (T, T) -> bool)
    requires StrictWeakOrder(less)
    requires Ascending(s, before)
    ensures Ascending(StableSort(s, less), (a, b) => StableBefore(less, before, a, b))
  {
    if s != [] {
      var rest := StableSort(s[1..], less);
      SortIsStable(s[1..], less, before);
      SortPermutes(s[1..], less);
      MultisetMembers(rest, s[1..]);
      forall y | y in rest ensures before(s[0], y) {
        var k :| 0 <= k < |s[1..]| && s[1..][k] == y;
        assert s[k + 1] == y;
      }
      InsertIsStable(s[0], rest, less, before);
    }
  }

  lemma SortSorts<T(!new)>(s: seq<T>, less: (T, T) -> bool)
    requires StrictWeakOrder(less)
    ensures Sorted(StableSort(s, less), less)
  {
    var always := (a: T, b: T) => true;
    SortIsStable(s, less, always);
    var r := StableSort(s, less);
    forall i, j | 0 <= i < j < |r| ensures !less(r[j], r[i]) {
      assert StableBefore(less, always, r[i], r[j]);
    }
  }

  ghost predicate Asymmetric<T>(a: seq<T>, before: (T, T) -> bool)
  {
    forall x, y :: x in a && y in a && before(x, y) ==> !before(y, x)
  }

  lemma FirstIsFirst<T>(a: seq<T>, b: seq<T>, before: (T, T) -> bool)
    requires Ascending(a, before) && Ascending(b, before)
    requires multiset(a) == multiset(b)
    requires Asymmetric(a, before)
    requires a != [] && b != []
    ensures a[0] == b[0]
  {
    MultisetMembers(a, b);
    assert a[0] in b && b[0] in a;
    var i :| 0 <= i < |b| && b[i] == a[0];
    var j :| 0 <= j < |a| && a[j] == b[0];
    assert i > 0 ==> before(b[0], a[0]);
    assert j > 0 ==> before(a[0], b[0]);
  }

  lemma TwiceInMultiset<T>(s: seq<T>, i: nat, j: nat)
    requires i < j < |s| && s[i] == s[j]
    ensures multiset(s)[s[i]] >= 2
  {
    assert s == s[..j] + [s[j]] + s[j + 1..];
    assert s[..j][i] == s[i];
    assert s[i] in multiset(s[..j]);
  }

  lemma OccursOnce<T>(s: seq<T>, x: T, i: nat, j: nat)
    requires multiset(s)[x] == 1 && i < |s| && j < |s| && s[i] == x && s[j] == x
    ensures i == j
  {
    if i < j { TwiceInMultiset(s, i, j); } else if j < i { TwiceInMultiset(s, j, i); }
  }

  lemma RemovedMultiset<T>(a: seq<T>, i: nat)
    requires i < |a|
    ensures multiset(a[..i] + a[i + 1..]) == multiset(a) - multiset{a[i]}
  {
    assert a == a[..i] + [a[i]] + a[i + 1..];
  }

  lemma TailMultiset<T>(a: seq<T>)
    requires a != []
    ensures multiset(a[1..]) == multiset(a) - multiset{a[0]}
  {
    assert a == [a[0]] + a[1..];
  }

  /** A sequence strictly ascending in an asymmetric relation is the only arrangement of its elements. */
  lemma {:induction false} AscendingIsUnique<T>(a: seq<T>, b: seq<T>, before: (T, T) -> bool)
    requires Ascending(a, before) && Ascending(b, before)
    requires multiset(a) == multiset(b)
    requires Asymmetric(a, before)
    ensures a == b
  {
    hide Ascending, Asymmetric;
    assert |a| == |b| by { MultisetMembers(a, b); }
    if a != [] {
      FirstIsFirst(a, b, before);
      TailMultiset(a);
      TailMultiset(b);
      TailAscends(a, before);
      TailAscends(b, before);
      TailIsAsymmetric(a, before);
      AscendingIsUnique(a[1..], b[1..], before);
      SameHeadAndTail(a, b);
    }
  }

  lemma SameHeadAndTail<T>(a: seq<T>, b: seq<T>)
    requires a != [] && b != [] && a[0] == b[0] && a[1..] == b[1..]
    ensures a == b
  {
    assert a == [a[0]] + a[1..] && b == [b[0]] + b[1..];
  }

  lemma TailAscends<T>(a: seq<T>, before: (T, T) -> bool)
    requires a != [] && Ascending(a, before)
    ensures Ascending(a[1..], before)
  {
  }

  lemma TailIsAsymmetric<T>(a: seq<T>, before: (T, T) -> bool)
    requires a != [] && Asymmetric(a, before)
    ensures Asymmetric(a[1..], before)
  {
    assert forall x :: x in a[1..] ==> x in a;
  }

  /** A sequence already in strict order is left as it is. */
  lemma {:induction false} SortKeepsSorted<T>(s: seq<T>, less: (T, T) -> bool)
    requires Ascending(s, (a, b) => !less(b, a))
    ensures StableSort(s, less) == s
  {
    if s != [] {
      SortKeepsSorted(s[1..], less);
      if |s| > 1 {
        assert !less(s[1], s[0]);
      }
    }
  }

  lemma SwappedWhenLess<T>(a: T, b: T, less: (T, T) -> bool)
    requires less(b, a)
    ensures StableSort([a, b], less) == [b, a]
  {
    assert [a, b][1..] == [b] && [b][1..] == [];
    assert StableSort([b], less) == [b];
    assert Insert(a, [], less) == [a];
    assert Insert(a, [b], less) == [b] + [a];
  }
}
