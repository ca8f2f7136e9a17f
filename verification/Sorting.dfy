/** Python's `sorted`: a stable insertion sort, and when its result is the only possible one. */
module Sorting {
  import opened Ordering

  function Insert<T>(x: T, s: seq<T>, less: (T, T) -> bool): seq<T> {
    if s == [] then [x]
    else if less(s[0], x) then [s[0]] + Insert(x, s[1..], less)
    else [x] + s
  }

  function Sort<T>(s: seq<T>, less: (T, T) -> bool): seq<T> {
    if s == [] then [] else Insert(s[0], Sort(s[1..], less), less)
  }

  /** No element is less than an earlier one. */
  ghost predicate Ordered<T>(s: seq<T>, less: (T, T) -> bool) {
    forall i, j :: 0 <= i < j < |s| ==> !less(s[j], s[i])
  }

  /** `less` is a strict partial order. */
  ghost predicate StrictOrder<T(!new)>(less: (T, T) -> bool) {
    && (forall x :: !less(x, x))
    && (forall x, y, z :: less(x, y) && less(y, z) ==> less(x, z))
  }

  /** Elements that neither precede the other are equal. */
  ghost predicate Separates<T>(s: seq<T>, less: (T, T) -> bool) {
    forall x, y :: x in s && y in s ==> x == y || less(x, y) || less(y, x)
  }

  /** `less` compares by a key that is itself totally ordered. */
  ghost predicate WeakOrder<T(!new)>(less: (T, T) -> bool) {
    && StrictOrder(less)
    && (forall x, y, z :: less(x, z) ==> less(x, y) || less(y, z))
  }

  lemma {:induction false} InsertSame<T>(x: T, s: seq<T>, less: (T, T) -> bool)
    ensures multiset(Insert(x, s, less)) == multiset{x} + multiset(s)
  {
    if s != [] && less(s[0], x) {
      InsertSame(x, s[1..], less);
      assert s == [s[0]] + s[1..];
    }
  }

  /** Sorting only reorders. */
  lemma {:induction false} SortSame<T>(s: seq<T>, less: (T, T) -> bool)
    ensures multiset(Sort(s, less)) == multiset(s)
  {
    if s == [] {
    } else {
      SortSame(s[1..], less);
      InsertSame(s[0], Sort(s[1..], less), less);
      assert s == [s[0]] + s[1..];
    }
  }

  lemma {:induction false} InsertOrdered<T(!new)>(x: T, s: seq<T>, less: (T, T) -> bool)
    requires WeakOrder(less) && Ordered(s, less)
    ensures Ordered(Insert(x, s, less), less)
  {
    if s != [] && less(s[0], x) {
      InsertOrdered(x, s[1..], less);
      InsertSame(x, s[1..], less);
      var rest := Insert(x, s[1..], less);
      forall j | 0 <= j < |rest| ensures !less(rest[j], s[0]) {
        assert rest[j] in multiset(rest);
        assert rest[j] == x || rest[j] in s[1..];
      }
    }
  }

  lemma {:induction false} SortOrdered<T(!new)>(s: seq<T>, less: (T, T) -> bool)
    requires WeakOrder(less)
    ensures Ordered(Sort(s, less), less)
  {
    if s == [] {
    } else {
      SortOrdered(s[1..], less);
      InsertOrdered(s[0], Sort(s[1..], less), less);
    }
  }

  lemma {:induction false} SameFirst<T(!new)>(a: seq<T>, b: seq<T>, less: (T, T) -> bool)
    requires Separates(a, less) && a != [] && b != []
    requires Ordered(a, less) && Ordered(b, less) && multiset(a) == multiset(b)
    ensures a[0] == b[0]
  {
    assert a[0] in multiset(b) && b[0] in multiset(a);
    var i, j :| 0 <= i < |a| && 0 <= j < |b| && a[i] == b[0] && b[j] == a[0];
    assert i == 0 || !less(a[i], a[0]);
    assert j == 0 || !less(b[j], b[0]);
  }

  lemma {:induction false} RestSame<T>(a: seq<T>, b: seq<T>)
    requires a != [] && b != [] && a[0] == b[0] && multiset(a) == multiset(b)
    ensures multiset(a[1..]) == multiset(b[1..])
  {
    assert a == [a[0]] + a[1..] && b == [b[0]] + b[1..];
    assert multiset(a[1..]) == multiset(a) - multiset{a[0]};
    assert multiset(b[1..]) == multiset(b) - multiset{b[0]};
  }

  /** One multiset of separated elements has one ordered sequence. */
  lemma {:induction false} OrderedUnique<T(!new)>(a: seq<T>, b: seq<T>, less: (T, T) -> bool)
    requires Separates(a, less)
    requires Ordered(a, less) && Ordered(b, less) && multiset(a) == multiset(b)
    ensures a == b
  {
    assert |multiset(a)| == |a| && |multiset(b)| == |b|;
    if a == [] {
    } else {
      SameFirst(a, b, less);
      RestSame(a, b);
      OrderedUnique(a[1..], b[1..], less);
      assert a == [a[0]] + a[1..] && b == [b[0]] + b[1..];
    }
  }

  /** Sorting forgets the order its argument had. */
  lemma {:induction false} SortForgetsOrder<T(!new)>(a: seq<T>, b: seq<T>, less: (T, T) -> bool)
    requires WeakOrder(less) && Separates(a, less) && multiset(a) == multiset(b)
    ensures Sort(a, less) == Sort(b, less)
  {
    SortSame(a, less);
    SortSame(b, less);
    SortOrdered(a, less);
    SortOrdered(b, less);
    forall x | x in Sort(a, less) ensures x in a {
      assert x in multiset(Sort(a, less));
    }
    OrderedUnique(Sort(a, less), Sort(b, less), less);
  }

  lemma {:induction false} TotalIsWeak<T(!new)>(less: (T, T) -> bool)
    requires StrictTotal(less)
    ensures WeakOrder(less)
  {
  }

  /** `sorted` of a set of strings. */
  method SortedSet(s: set<string>) returns (r: seq<string>)
    ensures forall x :: x in r <==> x in s
    ensures forall i, j :: 0 <= i < j < |r| ==> StringLess(r[i], r[j]) && r[i] != r[j]
  {
    r := [];
    var rest := s;
    StringOrder();
    TotalIsWeak(StringLess);
    while rest != {}
      invariant rest <= s
      invariant forall x :: x in r <==> x in s - rest
      invariant Ordered(r, StringLess)
      invariant forall i, j :: 0 <= i < j < |r| ==> r[i] != r[j]
      decreases rest
    {
      var x :| x in rest;
      rest := rest - {x};
      InsertSame(x, r, StringLess);
      InsertOrdered(x, r, StringLess);
      InsertDistinct(x, r, StringLess);
      ghost var before := r;
      r := Insert(x, r, StringLess);
      assert forall y :: y in r <==> y in multiset(r);
      assert forall y :: y in before <==> y in multiset(before);
    }
  }

  lemma {:induction false} InsertDistinct<T>(x: T, s: seq<T>, less: (T, T) -> bool)
    requires x !in s && forall i, j :: 0 <= i < j < |s| ==> s[i] != s[j]
    ensures var r := Insert(x, s, less); forall i, j :: 0 <= i < j < |r| ==> r[i] != r[j]
  {
    if s != [] && less(s[0], x) {
      InsertDistinct(x, s[1..], less);
      InsertSame(x, s[1..], less);
      var rest := Insert(x, s[1..], less);
      forall j | 0 <= j < |rest| ensures rest[j] != s[0] {
        assert rest[j] in multiset(rest);
        assert rest[j] == x || rest[j] in s[1..];
      }
    }
  }

  /** A sequence without the element at `k`. */
  function Without<T>(s: seq<T>, k: nat): (r: seq<T>)
    requires k < |s|
    ensures |r| == |s| - 1 && forall i :: 0 <= i < |r| ==> r[i] == if i < k then s[i] else s[i + 1]
  {
    s[..k] + s[k + 1..]
  }

  lemma {:induction false} WithoutCounts<T>(s: seq<T>, k: nat)
    requires k < |s|
    ensures multiset(Without(s, k)) == multiset(s) - multiset{s[k]}
  {
    assert s == s[..k] + [s[k]] + s[k + 1..];
  }

  /** Taking the first element out of a reordering leaves a reordering. */
  lemma {:induction false} FindFirst<T>(a: seq<T>, b: seq<T>) returns (k: nat)
    requires multiset(a) == multiset(b) && a != []
    ensures k < |b| && b[k] == a[0] && multiset(a[1..]) == multiset(Without(b, k))
  {
    assert a[0] in multiset(b);
    k :| 0 <= k < |b| && b[k] == a[0];
    WithoutCounts(b, k);
    WithoutCounts(a, 0);
    assert Without(a, 0) == a[1..];
  }
}
