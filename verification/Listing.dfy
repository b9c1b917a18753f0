/** Lists without repetition, and the order in which a Go program ranges over a map: any enumeration of its keys. */
module Listing {
  ghost predicate NoDup<T>(s: seq<T>) { forall i, j :: 0 <= i < j < |s| ==> s[i] != s[j] }

  lemma NoDupPrefix<T>(s: seq<T>)
    requires NoDup(s) && s != []
    ensures var m := |s| - 1; NoDup(s[..m]) && s[m] !in s[..m] && s == s[..m] + [s[m]]
  {
  }

  lemma NoDupTail<T>(s: seq<T>)
    requires NoDup(s) && s != []
    ensures NoDup(s[1..]) && s[0] !in s[1..]
  {
  }

  lemma NoDupAppend<T>(s: seq<T>, x: T)
    requires NoDup(s) && x !in s
    ensures NoDup(s + [x])
  {
  }

  lemma NoDupCons<T>(x: T, s: seq<T>)
    requires NoDup(s) && x !in s
    ensures NoDup([x] + s)
  {
  }

  lemma FirstIsMember<T>(s: seq<T>)
    ensures s == [] || s[0] in s
  {
  }

  lemma SizeWithAndWithout<T>(s: set<T>, x: T)
    ensures |s - {x}| == |s| - if x in s then 1 else 0
    ensures |s + {x}| == |s| + if x in s then 0 else 1
  {
    if x in s {
      assert s == (s - {x}) + {x};
      assert s + {x} == s;
    } else {
      assert s - {x} == s;
    }
  }

  /** A list without repetition is as long as the set of its members is large. */
  lemma {:induction false} NoDupSize<T>(s: seq<T>, members: set<T>)
    requires NoDup(s) && forall x :: x in members <==> x in s
    ensures |members| == |s|
  {
    if s == [] {
      assert members == {};
    } else {
      NoDupPrefix(s);
      var m := |s| - 1;
      NoDupSize(s[..m], members - {s[m]});
      assert members == (members - {s[m]}) + {s[m]};
    }
  }

  lemma SubsetSize<T>(a: set<T>, b: set<T>)
    requires a <= b
    ensures |a| <= |b|
  {
    assert b == a + (b - a);
  }

  /** `order` lists each member of `s` once. */
  ghost predicate Enumerates<T(!new)>(order: seq<T>, s: set<T>) {
    NoDup(order) && forall x :: x in s <==> x in order
  }

  method Enumerate(s: set<string>) returns (order: seq<string>)
    ensures Enumerates(order, s)
  {
    order := [];
    var rest := s;
    while rest != {}
      invariant rest <= s && NoDup(order)
      invariant forall x :: x in s - rest <==> x in order
    {
      var x :| x in rest;
      NoDupAppend(order, x);
      rest := rest - {x};
      order := order + [x];
    }
  }

  lemma {:induction false} EnumerationExists(s: set<string>) returns (order: seq<string>)
    ensures Enumerates(order, s)
  {
    if s == {} {
      order := [];
    } else {
      var x :| x in s;
      order := EnumerationExists(s - {x});
      NoDupAppend(order, x);
      order := order + [x];
    }
  }
}
