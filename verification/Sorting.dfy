/** Sorting a slice: what sort.Slice and sort.Strings promise. */
module Sorting {

  /** Always true: mentioning it names the values that the laws of an ordering, which
      are stated for all values, are to be used on. */
  ghost predicate Compare<T>(a: T, b: T, c: T) {
    true
  }

  /** A comparison that sort.Slice accepts. */
  ghost predicate WeakOrder<T(!new)>(less: (T, T) -> bool) {
    && (forall a, b {:trigger Compare(a, b, b)} :: less(a, b) ==> !less(b, a))
    && (forall a, b, c {:trigger Compare(a, b, c)} :: less(a, c) ==> less(a, b) || less(b, c))
  }

  ghost predicate TotalOrder<T(!new)>(less: (T, T) -> bool) {
    WeakOrder(less) && forall a, b {:trigger Compare(a, b, b)} :: a != b ==> less(a, b) || less(b, a)
  }

  function Insert<T>(s: seq<T>, x: T, less: (T, T) -> bool): seq<T> {
    if s != [] && less(x, s[|s| - 1]) then Insert(s[..|s| - 1], x, less) + [s[|s| - 1]]
    else s + [x]
  }

  function Sort<T>(s: seq<T>, less: (T, T) -> bool): seq<T> {
    if s == [] then [] else Insert(Sort(s[..|s| - 1], less), s[|s| - 1], less)
  }

  ghost predicate Sorted<T>(s: seq<T>, less: (T, T) -> bool) {
    forall i, j :: 0 <= i < j < |s| ==> !less(s[j], s[i])
  }

  lemma {:induction false} InsertKeeps<T>(s: seq<T>, x: T, less: (T, T) -> bool)
    ensures multiset(Insert(s, x, less)) == multiset(s) + multiset{x}
  {
    if s != [] && less(x, s[|s| - 1]) {
      InsertKeeps(s[..|s| - 1], x, less);
      DropLast(s);
    }
  }

  lemma {:induction false} InsertSorts<T(!new)>(s: seq<T>, x: T, less: (T, T) -> bool)
    requires WeakOrder(less) && Sorted(s, less)
    ensures Sorted(Insert(s, x, less), less)
  {
    if s != [] {
      var init, last := s[..|s| - 1], s[|s| - 1];
      if less(x, last) {
        InsertSorts(init, x, less);
        InsertKeeps(init, x, less);
        var r := Insert(init, x, less);
        forall i | 0 <= i < |r| ensures !less(last, r[i]) {
          assert r[i] in multiset(r);
          assert r[i] in init || r[i] == x;
          assert Compare(x, last, last);
        }
      } else {
        forall i | 0 <= i < |s| ensures !less(x, s[i]) {
          assert Compare(x, last, s[i]);
        }
      }
    }
  }

  lemma DropLast<T>(s: seq<T>)
    requires s != []
    ensures multiset(s) == multiset(s[..|s| - 1]) + multiset{s[|s| - 1]}
    ensures multiset(s[..|s| - 1]) == multiset(s) - multiset{s[|s| - 1]}
  {
    assert s == s[..|s| - 1] + [s[|s| - 1]];
  }

  lemma {:induction false} SortKeeps<T>(s: seq<T>, less: (T, T) -> bool)
    ensures multiset(Sort(s, less)) == multiset(s)
  {
    if s != [] {
      SortKeeps(s[..|s| - 1], less);
      InsertKeeps(Sort(s[..|s| - 1], less), s[|s| - 1], less);
      DropLast(s);
    }
  }

  lemma {:induction false} SortSorts<T(!new)>(s: seq<T>, less: (T, T) -> bool)
    requires WeakOrder(less)
    ensures Sorted(Sort(s, less), less)
  {
    if s != [] {
      SortSorts(s[..|s| - 1], less);
      InsertSorts(Sort(s[..|s| - 1], less), s[|s| - 1], less);
    }
  }

  /** A multiset has one sorted listing. */
  lemma {:induction false} SortedOnce<T(!new)>(a: seq<T>, b: seq<T>, less: (T, T) -> bool)
    requires TotalOrder(less) && Sorted(a, less) && Sorted(b, less) && multiset(a) == multiset(b)
    ensures a == b
  {
    assert |a| == |multiset(a)| == |multiset(b)| == |b|;
    if a != [] {
      var n := |a| - 1;
      LastIsGreatest(a, b, less);
      DropLast(a);
      DropLast(b);
      SortedOnce(a[..n], b[..n], less);
    }
  }

  lemma LastIsGreatest<T(!new)>(a: seq<T>, b: seq<T>, less: (T, T) -> bool)
    requires TotalOrder(less) && Sorted(a, less) && Sorted(b, less) && multiset(a) == multiset(b)
    requires |a| == |b| > 0
    ensures a[|a| - 1] == b[|b| - 1]
  {
    var x, y := a[|a| - 1], b[|b| - 1];
    assert x in multiset(b) && y in multiset(a);
    var i :| 0 <= i < |b| && b[i] == x;
    var j :| 0 <= j < |a| && a[j] == y;
    assert Compare(x, y, y);
  }

  /** Comparing sorted copies compares multisets. */
  lemma SortedCopiesAgree<T(!new)>(a: seq<T>, b: seq<T>, less: (T, T) -> bool)
    requires TotalOrder(less)
    ensures Sort(a, less) == Sort(b, less) <==> multiset(a) == multiset(b)
  {
    SortKeeps(a, less);
    SortKeeps(b, less);
    SortSorts(a, less);
    SortSorts(b, less);
    if multiset(a) == multiset(b) {
      SortedOnce(Sort(a, less), Sort(b, less), less);
    }
  }
}
