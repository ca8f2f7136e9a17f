/** Lexicographic order on sequences, as Python and Rust compare tuples, lists and strings. */
module Ordering {

  /** Lexicographic comparison: decided by the first difference; a proper prefix is less. */
  predicate Lex<T(==)>(a: seq<T>, b: seq<T>, less: (T, T) -> bool) {
    if b == [] then false
    else if a == [] then true
    else if a[0] != b[0] then less(a[0], b[0])
    else Lex(a[1..], b[1..], less)
  }

  predicate CharLess(a: char, b: char) { a < b }

  predicate NatLess(a: nat, b: nat) { a < b }

  predicate StringLess(a: string, b: string) { Lex(a, b, CharLess) }

  ghost predicate StrictTotal<T(!new)>(less: (T, T) -> bool) {
    && (forall x :: !less(x, x))
    && (forall x, y, z :: less(x, y) && less(y, z) ==> less(x, z))
    && (forall x, y :: x == y || less(x, y) || less(y, x))
  }

  lemma {:induction false} LexIrreflexive<T>(a: seq<T>, less: (T, T) -> bool)
    ensures !Lex(a, a, less)
  {
    if a == [] {
    } else {
      LexIrreflexive(a[1..], less);
    }
  }

  lemma {:induction false} LexTransitive<T(!new)>(a: seq<T>, b: seq<T>, c: seq<T>, less: (T, T) -> bool)
    requires StrictTotal(less)
    requires Lex(a, b, less) && Lex(b, c, less)
    ensures Lex(a, c, less)
  {
    if a != [] && a[0] == b[0] && b[0] == c[0] {
      LexTransitive(a[1..], b[1..], c[1..], less);
    }
  }

  lemma {:induction false} LexTotal<T(!new)>(a: seq<T>, b: seq<T>, less: (T, T) -> bool)
    requires StrictTotal(less)
    ensures a == b || Lex(a, b, less) || Lex(b, a, less)
  {
    if a != [] && b != [] && a[0] == b[0] {
      LexTotal(a[1..], b[1..], less);
      assert a[1..] == b[1..] ==> a == [a[0]] + a[1..] == b;
    }
  }

  lemma {:induction false} LexIsStrictTotal<T(!new)>(less: (T, T) -> bool)
    requires StrictTotal(less)
    ensures StrictTotal((a: seq<T>, b: seq<T>) => Lex(a, b, less))
  {
    forall a: seq<T> ensures !Lex(a, a, less) { LexIrreflexive(a, less); }
    forall a: seq<T>, b: seq<T>, c: seq<T> | Lex(a, b, less) && Lex(b, c, less) ensures Lex(a, c, less) {
      LexTransitive(a, b, c, less);
    }
    forall a: seq<T>, b: seq<T> ensures a == b || Lex(a, b, less) || Lex(b, a, less) { LexTotal(a, b, less); }
  }

  lemma {:induction false} StringOrder()
    ensures StrictTotal(StringLess)
  {
    LexIsStrictTotal(CharLess);
    var less := (a: string, b: string) => Lex(a, b, CharLess);
    assert forall a, b :: less(a, b) == StringLess(a, b);
  }

  /** The same order, said of positions: `i` is the first difference. */
  ghost predicate DiffersAt<T(!new)>(a: seq<T>, b: seq<T>, less: (T, T) -> bool, i: nat) {
    && i <= |a| && i < |b|
    && (forall j :: 0 <= j < i ==> a[j] == b[j])
    && (i < |a| ==> a[i] != b[i] && less(a[i], b[i]))
  }

  lemma {:induction false} LexIsFirstDifference<T(!new)>(a: seq<T>, b: seq<T>, less: (T, T) -> bool)
    ensures Lex(a, b, less) <==> exists i :: DiffersAt(a, b, less, i)
  {
    if Lex(a, b, less) {
      var i := FirstDifference(a, b, less);
    }
    if i :| DiffersAt(a, b, less, i) {
      LexFromDifference(a, b, less, i);
    }
  }

  lemma {:induction false} FirstDifference<T(!new)>(a: seq<T>, b: seq<T>, less: (T, T) -> bool) returns (i: nat)
    requires Lex(a, b, less)
    ensures DiffersAt(a, b, less, i)
  {
    if a == [] || a[0] != b[0] {
      i := 0;
    } else {
      i := FirstDifference(a[1..], b[1..], less);
      i := i + 1;
    }
  }

  lemma {:induction false} LexFromDifference<T(!new)>(a: seq<T>, b: seq<T>, less: (T, T) -> bool, i: nat)
    requires DiffersAt(a, b, less, i)
    ensures Lex(a, b, less)
  {
    if i == 0 {
    } else {
      assert a[0] == b[0];
      LexFromDifference(a[1..], b[1..], less, i - 1);
    }
  }

  /** The last elements decide only when everything before them is equal. */
  lemma {:induction false} LexLast<T>(a: seq<T>, b: seq<T>, less: (T, T) -> bool)
    requires |a| == |b| > 0
    ensures var m := |a| - 1;
      Lex(a, b, less) <==>
        if a[..m] == b[..m] then a[m] != b[m] && less(a[m], b[m]) else Lex(a[..m], b[..m], less)
  {
    var m := |a| - 1;
    if m == 0 {
    } else {
      assert a[1..][..m - 1] == a[..m][1..] && b[1..][..m - 1] == b[..m][1..];
      if a[0] == b[0] {
        LexLast(a[1..], b[1..], less);
        assert a[..m] == [a[0]] + a[..m][1..] && b[..m] == [b[0]] + b[..m][1..];
      } else {
        assert a[..m][0] != b[..m][0];
      }
    }
  }
}
