/**
 Sorting as the Go library promises it. `Sort` keeps the order of equal elements, as
 `sort.SliceStable` does; users of `sort.Slice` rely only on the permutation and the order.
 */
module Sorting {
  import opened Listing

  ghost predicate StrictWeakOrder<T(!new)>(less: (T, T) -> bool) {
    && (forall a, b :: less(a, b) ==> !less(b, a))
    && (forall a, b, c :: less(a, c) ==> less(a, b) || less(b, c))
  }

  lemma NotLessTransitive<T(!new)>(less: (T, T) -> bool, a: T, b: T, c: T)
    requires StrictWeakOrder(less) && !less(a, b) && !less(b, c)
    ensures !less(a, c)
  {
  }

  ghost predicate Sorted<T>(s: seq<T>, less: (T, T) -> bool) {
    forall i, j :: 0 <= i < j < |s| ==> !less(s[j], s[i])
  }

  function Insert<T>(x: T, s: seq<T>, less: (T, T) -> bool): seq<T> {
    if s == [] || !less(s[0], x) then [x] + s else [s[0]] + Insert(x, s[1..], less)
  }

  function Sort<T>(s: seq<T>, less: (T, T) -> bool): seq<T> {
    if s == [] then [] else Insert(s[0], Sort(s[1..], less), less)
  }

  lemma {:induction false} InsertMultiset<T>(x: T, s: seq<T>, less: (T, T) -> bool)
    ensures multiset(Insert(x, s, less)) == multiset([x]) + multiset(s)
  {
    if s == [] || !less(s[0], x) {
    } else {
      InsertMultiset(x, s[1..], less);
      assert s == [s[0]] + s[1..];
    }
  }

  lemma {:induction false} SortMultiset<T>(s: seq<T>, less: (T, T) -> bool)
    ensures multiset(Sort(s, less)) == multiset(s) && |Sort(s, less)| == |s|
  {
    if s != [] {
      SortMultiset(s[1..], less);
      InsertMultiset(s[0], Sort(s[1..], less), less);
      assert s == [s[0]] + s[1..];
      assert |Sort(s, less)| == |multiset(Sort(s, less))|;
    }
  }

  lemma {:induction false} InsertSorted<T(!new)>(x: T, s: seq<T>, less: (T, T) -> bool)
    requires StrictWeakOrder(less) && Sorted(s, less)
    ensures Sorted(Insert(x, s, less), less)
  {
    var r := Insert(x, s, less);
    if s == [] {
    } else if !less(s[0], x) {
      forall i, j | 0 <= i < j < |r| ensures !less(r[j], r[i]) {
        if i == 0 {
          assert r[j] == s[j - 1];
          NotLessTransitive(less, r[j], s[0], x);
        }
      }
    } else {
      InsertSorted(x, s[1..], less);
      InsertMultiset(x, s[1..], less);
      var t := Insert(x, s[1..], less);
      forall j | 0 <= j < |t| ensures !less(t[j], s[0]) {
        assert t[j] in multiset(t);
        assert t[j] == x || t[j] in s[1..];
      }
    }
  }

  lemma {:induction false} SortSorted<T(!new)>(s: seq<T>, less: (T, T) -> bool)
    requires StrictWeakOrder(less)
    ensures Sorted(Sort(s, less), less)
  {
    if s != [] {
      SortSorted(s[1..], less);
      InsertSorted(s[0], Sort(s[1..], less), less);
    }
  }

  /** The head of a stable sort is the first of the least elements. */
  lemma {:induction false} SortHead<T(!new)>(s: seq<T>, less: (T, T) -> bool) returns (k: nat)
    requires StrictWeakOrder(less) && s != []
    ensures k < |s| && Sort(s, less) != [] && Sort(s, less)[0] == s[k]
    ensures forall i :: 0 <= i < |s| ==> !less(s[i], s[k])
    ensures forall i :: 0 <= i < k ==> less(s[k], s[i])
  {
    if |s| == 1 {
      k := 0;
      assert Sort(s[1..], less) == [];
    } else {
      var t := s[1..];
      var m := SortHead(t, less);
      if less(t[m], s[0]) {
        k := m + 1;
        forall i | 0 <= i < |s| ensures !less(s[i], s[k]) && (i < k ==> less(s[k], s[i])) {
          if i > 0 { assert s[i] == t[i - 1]; }
        }
      } else {
        k := 0;
        forall i | 0 <= i < |s| ensures !less(s[i], s[0]) {
          if i > 0 {
            assert s[i] == t[i - 1];
            NotLessTransitive(less, s[i], t[m], s[0]);
          }
        }
      }
    }
  }

  lemma {:induction false} AtMostOnce<T>(s: seq<T>, x: T)
    requires NoDup(s)
    ensures multiset(s)[x] <= 1
  {
    if s != [] {
      NoDupTail(s);
      AtMostOnce(s[1..], x);
      assert s == [s[0]] + s[1..];
      if x == s[0] { assert x !in multiset(s[1..]); }
    }
  }

  /** A rearrangement of distinct elements has distinct elements. */
  lemma DistinctIfSame<T>(s: seq<T>, t: seq<T>)
    requires NoDup(s) && multiset(s) == multiset(t)
    ensures NoDup(t)
  {
    forall i, j | 0 <= i < j < |t| ensures t[i] != t[j] {
      AtMostOnce(s, t[i]);
      assert t == t[..j] + [t[j]] + t[j + 1..];
      assert t[i] in multiset(t[..j]) by { assert t[i] == t[..j][i]; }
    }
  }
}
