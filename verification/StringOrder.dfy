/** The order of strings by their characters, and the one way to list a set of them in it. */
module StringOrder {
  import opened Listing
  import opened Sorting

  predicate StringLess(a: string, b: string) {
    b != "" && (a == "" || a[0] < b[0] || (a[0] == b[0] && StringLess(a[1..], b[1..])))
  }

  lemma {:induction false} NotBoth(a: string, b: string)
    ensures !(StringLess(a, b) && StringLess(b, a))
  {
    if a != "" && b != "" { NotBoth(a[1..], b[1..]); }
  }

  lemma {:induction false} LessThrough(a: string, b: string, c: string)
    requires StringLess(a, c)
    ensures StringLess(a, b) || StringLess(b, c)
  {
    if a != "" && b != "" && a[0] == b[0] == c[0] { LessThrough(a[1..], b[1..], c[1..]); }
  }

  lemma {:induction false} OneIsLess(a: string, b: string)
    requires a != b
    ensures StringLess(a, b) || StringLess(b, a)
  {
    if a != "" && b != "" && a[0] == b[0] {
      assert a == [a[0]] + a[1..] && b == [b[0]] + b[1..];
      OneIsLess(a[1..], b[1..]);
    }
  }

  lemma StringsAreOrdered()
    ensures StrictWeakOrder(StringLess)
  {
    forall a: string, b: string ensures StringLess(a, b) ==> !StringLess(b, a) { NotBoth(a, b); }
    forall a: string, b: string, c: string ensures StringLess(a, c) ==> StringLess(a, b) || StringLess(b, c) {
      if StringLess(a, c) { LessThrough(a, b, c); }
    }
  }

  /** `order` lists the set once, in increasing order. */
  ghost predicate Lists(order: seq<string>, s: set<string>) { Enumerates(order, s) && Sorted(order, StringLess) }

  lemma FirstIsLeast(a: seq<string>, b: seq<string>, s: set<string>)
    requires Lists(a, s) && Lists(b, s) && a != []
    ensures b != [] && a[0] == b[0]
  {
    assert a[0] in s;
    var i :| 0 <= i < |b| && b[i] == a[0];
    assert b[0] in s;
    var k :| 0 <= k < |a| && a[k] == b[0];
    assert k == 0 || !StringLess(b[0], a[0]);
    assert i == 0 || !StringLess(a[0], b[0]);
    if a[0] != b[0] { OneIsLess(a[0], b[0]); }
  }

  lemma TailLists(a: seq<string>, s: set<string>)
    requires Lists(a, s) && a != []
    ensures Lists(a[1..], s - {a[0]})
  {
    NoDupTail(a);
    assert a == [a[0]] + a[1..];
  }

  /** There is only one such list. */
  lemma {:induction false} ListedOneWay(a: seq<string>, b: seq<string>, s: set<string>)
    requires Lists(a, s) && Lists(b, s)
    ensures a == b
  {
    if a == [] {
      FirstIsMember(b);
    } else {
      FirstIsLeast(a, b, s);
      TailLists(a, s);
      TailLists(b, s);
      ListedOneWay(a[1..], b[1..], s - {a[0]});
      assert a == [a[0]] + a[1..] && b == [b[0]] + b[1..];
    }
  }

  lemma SortedLists(order: seq<string>, s: set<string>)
    requires Enumerates(order, s)
    ensures Lists(Sort(order, StringLess), s)
  {
    var t := Sort(order, StringLess);
    StringsAreOrdered();
    SortSorted(order, StringLess);
    SortMultiset(order, StringLess);
    forall x ensures x in t <==> x in s { assert x in multiset(t) <==> x in multiset(order); }
    DistinctIfSame(order, t);
  }

  /** The keys of a map, collected in some order and sorted. */
  method SortedKeys(s: set<string>) returns (order: seq<string>)
    ensures Lists(order, s)
  {
    var keys := Enumerate(s);
    SortedLists(keys, s);
    order := Sort(keys, StringLess);
  }
}
