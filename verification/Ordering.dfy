/** String order as JavaScript compares strings, and stable sorting. */
module Ordering {

  /** Position of a character when strings are compared by UTF-16 code units:
      a supplementary character starts with a surrogate, so it precedes the
      characters from U+E000 to U+FFFF. */
  function Rank(c: char): int {
    if 0xE000 <= c as int <= 0xFFFF then c as int + 0x11_0000 else c as int
  }

  predicate Before(a: string, b: string) {
    if b == "" then false
    else if a == "" then true
    else Rank(a[0]) < Rank(b[0]) || (a[0] == b[0] && Before(a[1..], b[1..]))
  }

  lemma {:induction false} BeforeTotal(a: string, b: string)
    ensures a == b || Before(a, b) || Before(b, a)
  {
    if a != "" && b != "" && a[0] == b[0] {
      BeforeTotal(a[1..], b[1..]);
      assert a == [a[0]] + a[1..] && b == [b[0]] + b[1..];
    }
  }

  lemma {:induction false} BeforeTransitive(a: string, b: string, c: string)
    requires Before(a, b) && Before(b, c)
    ensures Before(a, c)
  {
    if a != "" && a[0] == b[0] && b[0] == c[0] {
      BeforeTransitive(a[1..], b[1..], c[1..]);
    }
  }

  lemma {:induction false} BeforeIrreflexive(a: string)
    ensures !Before(a, a)
  {
    if a != "" {
      BeforeIrreflexive(a[1..]);
    }
  }

  /** A strict order whose ties form classes, as sorting requires. */
  ghost predicate StrictWeakOrder<T(!new)>(less: (T, T) -> bool) {
    && (forall x :: !less(x, x))
    && (forall x, y, z :: less(x, y) && less(y, z) ==> less(x, z))
    && (forall x, y, z :: less(x, z) ==> less(x, y) || less(y, z))
  }

  lemma BeforeIsStrictOrder()
    ensures StrictWeakOrder(Before)
  {
    forall x, y, z: string
      ensures !Before(x, x)
      ensures Before(x, y) && Before(y, z) ==> Before(x, z)
      ensures Before(x, z) ==> Before(x, y) || Before(y, z)
    {
      BeforeIrreflexive(x);
      BeforeTotal(x, y);
      if Before(x, y) && Before(y, z) {
        BeforeTransitive(x, y, z);
      }
      if Before(y, x) && Before(x, z) {
        BeforeTransitive(y, x, z);
      }
    }
  }

  ghost predicate Sorted<T>(s: seq<T>, less: (T, T) -> bool) {
    forall i, j :: 0 <= i < j < |s| ==> !less(s[j], s[i])
  }

  /** `x` goes after every element that is not greater than it. */
  function Insert<T>(s: seq<T>, x: T, less: (T, T) -> bool): seq<T> {
    if s == [] || !less(x, s[|s| - 1]) then s + [x]
    else Insert(s[..|s| - 1], x, less) + [s[|s| - 1]]
  }

  /** Stable sort (Array.prototype.sort with a comparator). */
  function Sort<T>(s: seq<T>, less: (T, T) -> bool): seq<T> {
    if s == [] then [] else Insert(Sort(s[..|s| - 1], less), s[|s| - 1], less)
  }

  lemma {:induction false} InsertMultiset<T>(s: seq<T>, x: T, less: (T, T) -> bool)
    ensures multiset(Insert(s, x, less)) == multiset(s) + multiset{x}
  {
    if s != [] {
      assert s == s[..|s| - 1] + [s[|s| - 1]];
      InsertMultiset(s[..|s| - 1], x, less);
    }
  }

  lemma {:induction false} SortMultiset<T>(s: seq<T>, less: (T, T) -> bool)
    ensures multiset(Sort(s, less)) == multiset(s)
    ensures |Sort(s, less)| == |s|
  {
    if s != [] {
      assert s == s[..|s| - 1] + [s[|s| - 1]];
      SortMultiset(s[..|s| - 1], less);
      InsertMultiset(Sort(s[..|s| - 1], less), s[|s| - 1], less);
    }
    assert |multiset(Sort(s, less))| == |Sort(s, less)| && |multiset(s)| == |s|;
  }

  lemma SortElements<T>(s: seq<T>, less: (T, T) -> bool, x: T)
    ensures x in Sort(s, less) <==> x in s
  {
    SortMultiset(s, less);
    assert x in Sort(s, less) <==> x in multiset(Sort(s, less));
  }

  lemma {:induction false} InsertSorted<T(!new)>(s: seq<T>, x: T, less: (T, T) -> bool)
    requires StrictWeakOrder(less) && Sorted(s, less)
    ensures Sorted(Insert(s, x, less), less)
  {
    if s == [] {
    } else if !less(x, s[|s| - 1]) {
      var last := s[|s| - 1];
      forall i | 0 <= i < |s|
        ensures !less(x, s[i])
      {
        assert less(x, last) || less(last, s[i]) || !less(x, s[i]);
      }
    } else {
      var front, last := s[..|s| - 1], s[|s| - 1];
      InsertSorted(front, x, less);
      var r := Insert(front, x, less);
      InsertMultiset(front, x, less);
      forall i | 0 <= i < |r|
        ensures !less(last, r[i])
      {
        assert r[i] in multiset(r);
        if r[i] == x {
          assert less(x, last);
        } else {
          assert r[i] in front;
        }
      }
    }
  }

  lemma {:induction false} SortSorted<T(!new)>(s: seq<T>, less: (T, T) -> bool)
    requires StrictWeakOrder(less)
    ensures Sorted(Sort(s, less), less)
  {
    if s != [] {
      SortSorted(s[..|s| - 1], less);
      InsertSorted(Sort(s[..|s| - 1], less), s[|s| - 1], less);
    }
  }

  /** A sorted list is left alone. */
  lemma {:induction false} SortIdempotent<T(!new)>(s: seq<T>, less: (T, T) -> bool)
    requires Sorted(s, less)
    ensures Sort(s, less) == s
  {
    if s != [] {
      SortIdempotent(s[..|s| - 1], less);
    }
  }

  lemma SortedLast<T>(s: seq<T>, x: T, less: (T, T) -> bool)
    requires Sorted(s, less) && x in s
    ensures x == s[|s| - 1] || !less(s[|s| - 1], x)
  {
    var i :| 0 <= i < |s| && s[i] == x;
  }

  /** No two different elements tie. */
  ghost predicate NoTies<T>(s: seq<T>, less: (T, T) -> bool) {
    forall x, y :: x in s && y in s && x != y ==> less(x, y) || less(y, x)
  }

  lemma MultisetFront<T>(s: seq<T>)
    requires s != []
    ensures multiset(s[..|s| - 1]) == multiset(s) - multiset{s[|s| - 1]}
  {
    assert s == s[..|s| - 1] + [s[|s| - 1]];
  }

  /** Without ties, a multiset has only one sorted listing. */
  lemma {:induction false} SortedUnique<T>(a: seq<T>, b: seq<T>, less: (T, T) -> bool)
    requires Sorted(a, less) && Sorted(b, less)
    requires multiset(a) == multiset(b)
    requires NoTies(a, less)
    ensures a == b
  {
    assert |multiset(a)| == |a| && |multiset(b)| == |b|;
    if a != [] {
      var n := |a| - 1;
      SameLast(a, b, less);
      MultisetFront(a);
      MultisetFront(b);
      SortedUnique(a[..n], b[..n], less);
      assert a == a[..n] + [a[n]] && b == b[..n] + [b[n]];
    }
  }

  lemma SameLast<T>(a: seq<T>, b: seq<T>, less: (T, T) -> bool)
    requires a != [] && |a| == |b|
    requires Sorted(a, less) && Sorted(b, less)
    requires multiset(a) == multiset(b)
    requires NoTies(a, less)
    ensures a[|a| - 1] == b[|b| - 1]
  {
    var x, y := a[|a| - 1], b[|b| - 1];
    assert x in multiset(a) && y in multiset(b);
    SortedLast(a, y, less);
    SortedLast(b, x, less);
  }

  /** Without ties, sorting identifies exactly the reorderings of a list. */
  lemma SameSortIff<T(!new)>(a: seq<T>, b: seq<T>, less: (T, T) -> bool)
    requires StrictWeakOrder(less) && NoTies(a, less)
    ensures Sort(a, less) == Sort(b, less) <==> multiset(a) == multiset(b)
  {
    SortMultiset(a, less);
    SortMultiset(b, less);
    if multiset(a) == multiset(b) {
      SortSorted(a, less);
      SortSorted(b, less);
      assert NoTies(Sort(a, less), less) by {
        forall x ensures x in Sort(a, less) <==> x in a {
          SortElements(a, less, x);
        }
      }
      SortedUnique(Sort(a, less), Sort(b, less), less);
    }
  }
}
