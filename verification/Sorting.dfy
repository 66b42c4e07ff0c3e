/** Strings in lexicographic order, as the library sort puts them. */
module Sorting {

  predicate LexLe(a: string, b: string) {
    a == "" || (b != "" && (a[0] < b[0] || (a[0] == b[0] && LexLe(a[1..], b[1..]))))
  }

  lemma {:induction false} LexTotal(a: string, b: string)
    ensures LexLe(a, b) || LexLe(b, a)
    ensures LexLe(a, b) && LexLe(b, a) ==> a == b
  {
    if a != "" && b != "" && a[0] == b[0] {
      LexTotal(a[1..], b[1..]);
      assert a == [a[0]] + a[1..] && b == [b[0]] + b[1..];
    }
  }

  lemma {:induction false} LexTransitive(a: string, b: string, c: string)
    requires LexLe(a, b) && LexLe(b, c)
    ensures LexLe(a, c)
  {
    if a != "" && a[0] == b[0] == c[0] {
      LexTransitive(a[1..], b[1..], c[1..]);
    }
  }

  /** a comes strictly before b: where they first differ, a ends or has the lesser character. */
  ghost predicate Precedes(a: string, b: string) {
    exists k: nat :: FirstDifference(a, b, k)
  }

  predicate FirstDifference(a: string, b: string, k: nat) {
    k <= |a| && k < |b| && a[..k] == b[..k] && (k == |a| || a[k] < b[k])
  }

  lemma {:induction false} LexLeMeans(a: string, b: string)
    ensures LexLe(a, b) <==> a == b || Precedes(a, b)
  {
    if a == "" {
      assert b == "" || FirstDifference(a, b, 0);
    } else if b != "" {
      if a[0] == b[0] {
        LexLeMeans(a[1..], b[1..]);
        assert a == [a[0]] + a[1..] && b == [b[0]] + b[1..];
        TailPrecedes(a, b);
      } else {
        assert a[0] < b[0] ==> FirstDifference(a, b, 0);
        forall k: nat | FirstDifference(a, b, k)
          ensures k == 0
        {
          SameStart(a, b, k);
        }
      }
    }
  }

  lemma SameStart(a: string, b: string, k: nat)
    requires FirstDifference(a, b, k)
    ensures k > 0 ==> a != "" && a[0] == b[0]
  {
    if k > 0 {
      assert a[..k][0] == b[..k][0];
    }
  }

  lemma TailPrecedes(a: string, b: string)
    requires a != "" && b != "" && a[0] == b[0]
    ensures Precedes(a, b) <==> Precedes(a[1..], b[1..])
  {
    forall k: nat | FirstDifference(a[1..], b[1..], k)
      ensures FirstDifference(a, b, k + 1)
    {
      assert a[..k + 1] == [a[0]] + a[1..][..k] && b[..k + 1] == [b[0]] + b[1..][..k];
    }
    forall k: nat | FirstDifference(a, b, k)
      ensures k > 0 && FirstDifference(a[1..], b[1..], k - 1)
    {
      if k > 0 {
        assert a[1..][..k - 1] == a[..k][1..] && b[1..][..k - 1] == b[..k][1..];
      }
    }
  }

  predicate Sorted(s: seq<string>) {
    forall i, j :: 0 <= i < j < |s| ==> LexLe(s[i], s[j])
  }

  predicate Distinct<T(==)>(s: seq<T>) {
    forall i, j :: 0 <= i < j < |s| ==> s[i] != s[j]
  }

  /** s lists the set in order, each element once. */
  ghost predicate Lists(s: seq<string>, all: set<string>) {
    Sorted(s) && Distinct(s) && forall x :: x in s <==> x in all
  }

  /** An order in which a map's keys may be visited. */
  ghost predicate Order(order: seq<string>, keys: set<string>) {
    Distinct(order) && forall k :: k in order <==> k in keys
  }

  lemma OrderDefined(order: seq<string>, keys: set<string>)
    requires Order(order, keys)
    ensures forall i :: 0 <= i < |order| ==> order[i] in keys
  {
    assert forall i :: 0 <= i < |order| ==> order[i] in order;
  }

  lemma {:induction false} SomeOrder(keys: set<string>) returns (order: seq<string>)
    ensures Order(order, keys)
    decreases keys
  {
    if keys == {} {
      order := [];
    } else {
      var k :| k in keys;
      var rest := SomeOrder(keys - {k});
      order := [k] + rest;
    }
  }

  function Insert(x: string, s: seq<string>): (r: seq<string>)
    ensures multiset(r) == multiset(s) + multiset{x}
  {
    if s == [] then [x]
    else if LexLe(x, s[0]) then [x] + s
    else
      assert s == [s[0]] + s[1..];
      [s[0]] + Insert(x, s[1..])
  }

  function Sort(s: seq<string>): (r: seq<string>)
    ensures multiset(r) == multiset(s)
  {
    if s == [] then []
    else
      assert s == [s[0]] + s[1..];
      Insert(s[0], Sort(s[1..]))
  }

  lemma {:induction false} InsertSorted(x: string, s: seq<string>)
    requires Sorted(s)
    ensures Sorted(Insert(x, s))
  {
    if s != [] {
      var rest := Insert(x, s[1..]);
      LexTotal(x, s[0]);
      if LexLe(x, s[0]) {
        forall j | 0 <= j < |s|
          ensures LexLe(x, s[j])
        {
          if j > 0 {
            LexTransitive(x, s[0], s[j]);
          }
        }
      } else {
        InsertSorted(x, s[1..]);
        InsertedAbove(x, s, s[0]);
      }
    }
  }

  lemma InsertedAbove(x: string, s: seq<string>, low: string)
    requires Sorted(s) && s != [] && low == s[0] && LexLe(low, x)
    ensures forall j :: 0 <= j < |Insert(x, s[1..])| ==> LexLe(low, Insert(x, s[1..])[j])
  {
    var rest := Insert(x, s[1..]);
    forall j | 0 <= j < |rest|
      ensures LexLe(low, rest[j])
    {
      assert rest[j] in multiset(rest);
      assert rest[j] == x || rest[j] in s[1..];
    }
  }

  lemma {:induction false} SortSorts(s: seq<string>)
    ensures Sorted(Sort(s))
  {
    if s != [] {
      SortSorts(s[1..]);
      InsertSorted(s[0], Sort(s[1..]));
    }
  }

  lemma {:induction false} DistinctByCount<T>(s: seq<T>)
    ensures Distinct(s) <==> forall x :: multiset(s)[x] <= 1
  {
    if s != [] {
      var rest := s[1..];
      DistinctByCount(rest);
      assert s == [s[0]] + rest;
      if Distinct(s) {
        assert s[0] !in rest;
      } else {
        var i, j :| 0 <= i < j < |s| && s[i] == s[j];
        if i == 0 {
          assert s[0] == rest[j - 1] && rest[j - 1] in multiset(rest);
          assert multiset(s)[s[0]] >= 2;
        } else {
          assert rest[i - 1] == rest[j - 1];
          var x :| multiset(rest)[x] > 1;
          assert multiset(s)[x] > 1;
        }
      }
    }
  }

  /** A listing without repeats is as long as its set has elements. */
  lemma {:induction false} CountDistinct<T>(s: seq<T>, all: set<T>)
    requires Distinct(s) && forall x :: x in all <==> x in s
    ensures |s| == |all|
  {
    if s != [] {
      var n := |s| - 1;
      assert s == s[..n] + [s[n]];
      CountDistinct(s[..n], all - {s[n]});
    }
  }

  /** Sorting any listing of a set without repeats lists the set in order. */
  lemma SortLists(s: seq<string>, all: set<string>)
    requires Distinct(s) && forall x :: x in s <==> x in all
    ensures Lists(Sort(s), all)
  {
    SortSorts(s);
    DistinctByCount(s);
    DistinctByCount(Sort(s));
    forall x
      ensures x in Sort(s) <==> x in all
    {
      assert x in Sort(s) <==> x in multiset(Sort(s));
      assert x in s <==> x in multiset(s);
    }
  }

  lemma Occupied(s: seq<string>, all: set<string>)
    requires Lists(s, all)
    ensures s == [] <==> all == {}
  {
    if s != [] {
      assert s[0] in s;
      assert s[0] in all;
    }
  }

  /** There is only one such list. */
  lemma {:induction false} ListingIsUnique(s: seq<string>, t: seq<string>, all: set<string>)
    requires Lists(s, all) && Lists(t, all)
    ensures s == t
  {
    Occupied(s, all);
    Occupied(t, all);
    if s != [] {
      assert s[0] in all && t != [] by {
        assert s[0] in s;
        assert s[0] in t;
      }
      FirstIsLeast(s, all, t[0]);
      FirstIsLeast(t, all, s[0]);
      LexTotal(s[0], t[0]);
      RestLists(s, all);
      RestLists(t, all);
      ListingIsUnique(s[1..], t[1..], all - {s[0]});
      assert s == [s[0]] + s[1..] && t == [t[0]] + t[1..];
    }
  }

  lemma FirstIsLeast(s: seq<string>, all: set<string>, x: string)
    requires Lists(s, all) && s != [] && (x in all || x == s[0])
    ensures LexLe(s[0], x) && s[0] in all
  {
    LexTotal(x, x);
    assert s[0] in s;
    assert x in s;
  }

  lemma RestLists(s: seq<string>, all: set<string>)
    requires Lists(s, all) && s != []
    ensures Lists(s[1..], all - {s[0]})
  {
    assert s == [s[0]] + s[1..];
    assert s[0] !in s[1..];
  }
}
