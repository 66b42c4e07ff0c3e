/** The nested event record: `engine/udm.go`.

    Records are trees of maps addressed by dotted paths.  The tree operations are functions
    on values; `UdmHeap` does them on nested mutable maps. */
module Udm {
  import opened Wrappers
  import opened Sorting
  import opened Texts

  datatype Value = Text(s: string) | Record(m: map<string, Value>)

  type Fields = map<string, Value>

  // ---------------------------------------------------------------- dotted paths

  function Split(path: string): (keys: seq<string>)
    ensures keys != []
  {
    SplitOn(path, '.')
  }

  function Dotted(keys: seq<string>): string
    requires keys != []
  {
    if |keys| == 1 then keys[0] else keys[0] + "." + Dotted(keys[1..])
  }

  predicate Plain(key: string) {
    '.' !in key
  }

  /** A path of named components, none of them empty. */
  predicate Named(keys: seq<string>) {
    keys != [] && forall i :: 0 <= i < |keys| ==> Plain(keys[i]) && keys[i] != ""
  }

  lemma SplitWord(key: string, tail: string)
    requires Plain(key)
    ensures Split(key) == [key]
    ensures Split(key + "." + tail) == [key] + Split(tail)
  {
    SplitWithout(key, '.');
    SplitFirst(key, '.', tail);
  }

  lemma {:induction false} SplitDotted(keys: seq<string>)
    requires keys != [] && forall i :: 0 <= i < |keys| ==> Plain(keys[i])
    ensures Split(Dotted(keys)) == keys
  {
    if |keys| == 1 {
      SplitWord(keys[0], "");
    } else {
      SplitDotted(keys[1..]);
      SplitWord(keys[0], Dotted(keys[1..]));
    }
  }

  lemma {:induction false} DottedSplit(path: string)
    ensures Dotted(Split(path)) == path && forall i :: 0 <= i < |Split(path)| ==> Plain(Split(path)[i])
  {
    if path != "" {
      DottedSplit(path[1..]);
      var keys, rest := Split(path), Split(path[1..]);
      if path[0] == '.' {
        assert keys[1..] == rest;
        assert "" + "." + Dotted(rest) == path;
      } else {
        assert keys[1..] == rest[1..];
        if |rest| > 1 {
          assert Dotted(keys) == [path[0]] + Dotted(rest);
        }
      }
      assert forall i :: 1 <= i < |keys| && path[0] != '.' ==> keys[i] == rest[i];
      assert forall i :: 1 <= i < |keys| && path[0] == '.' ==> keys[i] == rest[i - 1];
    }
  }

  // ---------------------------------------------------------------- reading and writing

  function Child(m: Fields, k: string): Fields {
    if k in m && m[k].Record? then m[k].m else map[]
  }

  function GetAt(m: Fields, keys: seq<string>): Option<Value>
    requires keys != []
    decreases |keys|
  {
    if keys[0] !in m then None
    else if |keys| == 1 then Some(m[keys[0]])
    else if m[keys[0]].Record? then GetAt(m[keys[0]].m, keys[1..])
    else None
  }

  /** Creates the maps on the way; a text in the way gives way to a map. */
  function SetAt(m: Fields, keys: seq<string>, s: string): Fields
    requires keys != []
    decreases |keys|
  {
    if |keys| == 1 then m[keys[0] := Text(s)]
    else m[keys[0] := Record(SetAt(Child(m, keys[0]), keys[1..], s))]
  }

  function Get(m: Fields, path: string): Option<Value> {
    GetAt(m, Split(path))
  }

  /** An empty string is not written. */
  function Set(m: Fields, path: string, s: string): Fields {
    if s == "" then m else SetAt(m, Split(path), s)
  }

  predicate Comparable(p: seq<string>, q: seq<string>) {
    p <= q || q <= p
  }

  lemma PrefixTail(p: seq<string>, q: seq<string>)
    requires p != [] && q != [] && p[0] == q[0]
    ensures p <= q <==> p[1..] <= q[1..]
  {
    if p[1..] <= q[1..] {
      assert forall i :: 1 <= i < |p| ==> p[i] == p[1..][i - 1] == q[1..][i - 1] == q[i];
    }
  }

  /** What reading one path gives after writing another. */
  lemma {:induction false} GetAfterSet(m: Fields, p: seq<string>, s: string, q: seq<string>)
    requires p != [] && q != []
    ensures p == q ==> GetAt(SetAt(m, p, s), q) == Some(Text(s))
    ensures p < q ==> GetAt(SetAt(m, p, s), q) == None
    ensures q < p ==> GetAt(SetAt(m, p, s), q).Some? && GetAt(SetAt(m, p, s), q).value.Record?
    ensures !Comparable(p, q) ==> GetAt(SetAt(m, p, s), q) == GetAt(m, q)
    decreases |p|
  {
    if p[0] == q[0] {
      PrefixTail(p, q);
      PrefixTail(q, p);
      if |p| > 1 && |q| > 1 {
        GetAfterSet(Child(m, p[0]), p[1..], s, q[1..]);
        EmptyHasNothing(q[1..]);
      }
    }
  }

  lemma EmptyHasNothing(q: seq<string>)
    requires q != []
    ensures GetAt(map[], q) == None
  {
  }

  lemma SetsCommuteApart(m: Fields, p: seq<string>, s: string, q: seq<string>, t: string)
    requires p != [] && q != [] && p[0] != q[0]
    ensures SetAt(SetAt(m, p, s), q, t) == SetAt(SetAt(m, q, t), p, s)
  {
    assert Child(SetAt(m, p, s), q[0]) == Child(m, q[0]);
    assert Child(SetAt(m, q, t), p[0]) == Child(m, p[0]);
  }

  /** Writes to paths neither of which is a prefix of the other can be swapped. */
  lemma {:induction false} SetsCommute(m: Fields, p: seq<string>, s: string, q: seq<string>, t: string)
    requires p != [] && q != [] && !Comparable(p, q)
    ensures SetAt(SetAt(m, p, s), q, t) == SetAt(SetAt(m, q, t), p, s)
    decreases |p|
  {
    if p[0] != q[0] {
      SetsCommuteApart(m, p, s, q, t);
    } else {
      PrefixTail(p, q);
      PrefixTail(q, p);
      SetsCommute(Child(m, p[0]), p[1..], s, q[1..], t);
    }
  }

  // ---------------------------------------------------------------- writing many

  datatype Entry = Entry(path: seq<string>, value: string)

  function SetAll(m: Fields, entries: seq<Entry>): Fields
    requires forall i :: 0 <= i < |entries| ==> entries[i].path != []
  {
    if entries == [] then m
    else SetAt(SetAll(m, entries[..|entries| - 1]), entries[|entries| - 1].path, entries[|entries| - 1].value)
  }

  predicate PrefixFree(entries: seq<Entry>) {
    forall i, j :: 0 <= i < j < |entries| ==> !Comparable(entries[i].path, entries[j].path)
  }

  predicate HavePaths(entries: seq<Entry>) {
    forall i :: 0 <= i < |entries| ==> entries[i].path != []
  }

  predicate DistinctPaths(entries: seq<Entry>) {
    forall i, j :: 0 <= i < j < |entries| ==> entries[i].path != entries[j].path
  }

  lemma SetAllSnoc(m: Fields, entries: seq<Entry>, e: Entry)
    requires HavePaths(entries) && e.path != []
    ensures SetAll(m, entries + [e]) == SetAt(SetAll(m, entries), e.path, e.value)
  {
    assert (entries + [e])[..|entries|] == entries;
  }

  lemma {:induction false} SetAllConcat(m: Fields, a: seq<Entry>, b: seq<Entry>)
    requires HavePaths(a) && HavePaths(b)
    ensures SetAll(m, a + b) == SetAll(SetAll(m, a), b)
  {
    if b == [] {
      assert a + b == a;
    } else {
      var n := |b| - 1;
      SetAllConcat(m, a, b[..n]);
      assert a + b == a + b[..n] + [b[n]];
      SetAllSnoc(m, a + b[..n], b[n]);
    }
  }

  /** A write can be put off past writes it is incomparable with. */
  lemma {:induction false} SetPast(m: Fields, e: Entry, after: seq<Entry>)
    requires HavePaths(after) && e.path != []
    requires forall i :: 0 <= i < |after| ==> !Comparable(e.path, after[i].path)
    ensures SetAll(SetAt(m, e.path, e.value), after) == SetAt(SetAll(m, after), e.path, e.value)
  {
    if after != [] {
      var n := |after| - 1;
      SetPast(m, e, after[..n]);
      SetsCommute(SetAll(m, after[..n]), e.path, e.value, after[n].path, after[n].value);
    }
  }

  function Without(entries: seq<Entry>, i: nat): (rest: seq<Entry>)
    requires i < |entries|
    ensures |rest| == |entries| - 1
    ensures forall j :: 0 <= j < |rest| ==> rest[j] == entries[if j < i then j else j + 1]
    ensures multiset(rest) + multiset{entries[i]} == multiset(entries)
  {
    assert entries == entries[..i] + [entries[i]] + entries[i + 1..];
    entries[..i] + entries[i + 1..]
  }

  lemma Cancel<T>(x: multiset<T>, y: multiset<T>, e: T)
    requires x + multiset{e} == y + multiset{e}
    ensures x == y
  {
    assert x == (x + multiset{e}) - multiset{e};
    assert y == (y + multiset{e}) - multiset{e};
  }

  lemma WriteLast(m: Fields, b: seq<Entry>, i: nat)
    requires HavePaths(b) && PrefixFree(b) && i < |b|
    ensures HavePaths(Without(b, i)) && PrefixFree(Without(b, i))
    ensures SetAll(m, b) == SetAt(SetAll(m, Without(b, i)), b[i].path, b[i].value)
  {
    var before, e, after := b[..i], b[i], b[i + 1..];
    assert b == (before + [e]) + after;
    SetAllConcat(m, before + [e], after);
    SetAllSnoc(m, before, e);
    SetPast(SetAll(m, before), e, after);
    SetAllConcat(m, before, after);
  }

  /** The order of prefix-free writes does not matter. */
  lemma {:induction false} OrderIrrelevant(m: Fields, a: seq<Entry>, b: seq<Entry>)
    requires HavePaths(a) && HavePaths(b) && PrefixFree(b) && multiset(a) == multiset(b)
    ensures SetAll(m, a) == SetAll(m, b)
    decreases |a|
  {
    hide PrefixFree;
    assert |a| == |multiset(a)| == |multiset(b)| == |b|;
    if a != [] {
      var init, e := a[..|a| - 1], a[|a| - 1];
      assert a == init + [e];
      assert e in multiset(b);
      var i :| 0 <= i < |b| && b[i] == e;
      WriteLast(m, b, i);
      Cancel(multiset(init), multiset(Without(b, i)), e);
      OrderIrrelevant(m, init, Without(b, i));
    }
  }

  function MovedLast(entries: seq<Entry>, i: nat): (moved: seq<Entry>)
    requires i < |entries| && HavePaths(entries)
    ensures HavePaths(moved) && multiset(moved) == multiset(entries)
  {
    Without(entries, i) + [entries[i]]
  }

  lemma ReadAfterLast(m: Fields, entries: seq<Entry>, i: nat, q: seq<string>)
    requires HavePaths(entries) && i < |entries| && q != []
    ensures var p, r := entries[i].path, GetAt(SetAll(m, MovedLast(entries, i)), q);
      && (p == q ==> r == Some(Text(entries[i].value)))
      && (p < q ==> r == None)
      && (q < p ==> r.Some? && r.value.Record?)
  {
    SetAllSnoc(m, Without(entries, i), entries[i]);
    GetAfterSet(SetAll(m, Without(entries, i)), entries[i].path, entries[i].value, q);
  }

  ghost predicate SameInAnyOrder(m: Fields, entries: seq<Entry>) {
    forall a, b ::
      HavePaths(a) && HavePaths(b) && multiset(a) == multiset(entries) && multiset(b) == multiset(entries) ==>
      SetAll(m, a) == SetAll(m, b)
  }

  /** Entries with distinct paths give the same record in every order exactly when no path is a
      prefix of another. */
  lemma {:induction false} OrderIrrelevantIffPrefixFree(m: Fields, entries: seq<Entry>)
    requires HavePaths(entries) && DistinctPaths(entries)
    ensures SameInAnyOrder(m, entries) <==> PrefixFree(entries)
  {
    hide SetAll, GetAt;
    if PrefixFree(entries) {
      forall a, b | HavePaths(a) && HavePaths(b) && multiset(a) == multiset(entries) && multiset(b) == multiset(entries)
        ensures SetAll(m, a) == SetAll(m, b)
      {
        OrderIrrelevant(m, a, entries);
        OrderIrrelevant(m, b, entries);
      }
    } else {
      var i, j :| 0 <= i < j < |entries| && Comparable(entries[i].path, entries[j].path);
      var a, b := MovedLast(entries, i), MovedLast(entries, j);
      ReadAfterLast(m, entries, i, entries[j].path);
      ReadAfterLast(m, entries, j, entries[j].path);
      assert SetAll(m, a) != SetAll(m, b);
    }
  }

  // ---------------------------------------------------------------- leaves

  function LeafAt(m: Fields, keys: seq<string>): Option<string>
    requires keys != []
  {
    match GetAt(m, keys)
    case Some(Text(s)) => Some(s)
    case _ => None
  }

  ghost predicate IsLeaf(m: Fields, keys: seq<string>) {
    keys != [] && LeafAt(m, keys).Some?
  }

  /** No map below the top is empty; writing never makes one. */
  ghost predicate Full(v: Value) {
    match v
    case Text(_) => true
    case Record(m) => m != map[] && forall k :: k in m ==> Full(m[k])
  }

  ghost predicate FullRecord(m: Fields) {
    forall k :: k in m ==> Full(m[k])
  }

  lemma {:induction false} SetStaysFull(m: Fields, keys: seq<string>, s: string)
    requires keys != [] && FullRecord(m)
    ensures FullRecord(SetAt(m, keys, s)) && keys[0] in SetAt(m, keys, s)
    decreases |keys|
  {
    if |keys| > 1 {
      SetStaysFull(Child(m, keys[0]), keys[1..], s);
    }
  }

  lemma {:induction false} SetAllStaysFull(m: Fields, entries: seq<Entry>)
    requires HavePaths(entries) && FullRecord(m)
    ensures FullRecord(SetAll(m, entries))
  {
    if entries != [] {
      var n := |entries| - 1;
      SetAllStaysFull(m, entries[..n]);
      SetStaysFull(SetAll(m, entries[..n]), entries[n].path, entries[n].value);
    }
  }

  lemma GetBelow(m: Fields, k: string, keys: seq<string>)
    requires keys != []
    ensures GetAt(m, [k] + keys) == if k in m && m[k].Record? then GetAt(m[k].m, keys) else None
  {
    assert ([k] + keys)[1..] == keys;
  }

  /** A map that is full has a leaf. */
  lemma {:induction false} SomeLeaf(v: Value) returns (keys: seq<string>)
    requires v.Record? && Full(v)
    ensures IsLeaf(v.m, keys)
    decreases v
  {
    var k :| k in v.m;
    if v.m[k].Record? {
      var below := SomeLeaf(v.m[k]);
      GetBelow(v.m, k, below);
      keys := [k] + below;
    } else {
      keys := [k];
    }
  }

  ghost predicate SameLeaves(a: Fields, b: Fields) {
    forall keys: seq<string> :: keys != [] ==> LeafAt(a, keys) == LeafAt(b, keys)
  }

  lemma {:induction false} KeysFromLeaves(a: Fields, b: Fields, k: string)
    requires FullRecord(a) && SameLeaves(a, b) && k in a
    ensures k in b && (a[k].Text? ==> b[k] == a[k]) && (a[k].Record? ==> b[k].Record?)
  {
    if a[k].Text? {
      assert LeafAt(a, [k]) == LeafAt(b, [k]);
    } else {
      var below := SomeLeaf(a[k]);
      GetBelow(a, k, below);
      GetBelow(b, k, below);
      assert LeafAt(a, [k] + below) == LeafAt(b, [k] + below);
    }
  }

  /** Full records are determined by their leaves. */
  lemma {:induction false} LeavesDetermine(a: Fields, b: Fields)
    requires FullRecord(a) && FullRecord(b) && SameLeaves(a, b)
    ensures a == b
    decreases Record(a)
  {
    forall k | k in a || k in b
      ensures k in a && k in b && a[k] == b[k]
    {
      if k in a {
        KeysFromLeaves(a, b, k);
      } else {
        KeysFromLeaves(b, a, k);
      }
      if a[k].Record? {
        KeysFromLeaves(a, b, k);
        forall keys: seq<string> | keys != []
          ensures LeafAt(a[k].m, keys) == LeafAt(b[k].m, keys)
        {
          GetBelow(a, k, keys);
          GetBelow(b, k, keys);
          assert LeafAt(a, [k] + keys) == LeafAt(b, [k] + keys);
        }
        assert Record(a[k].m) == a[k];
        LeavesDetermine(a[k].m, b[k].m);
      }
    }
  }

  /** The leaves of a record written with prefix-free entries are the entries. */
  lemma {:induction false} WrittenLeaves(entries: seq<Entry>, q: seq<string>, s: string)
    requires HavePaths(entries) && PrefixFree(entries) && q != []
    ensures LeafAt(SetAll(map[], entries), q) == Some(s) <==> Entry(q, s) in entries
  {
    if entries == [] {
      EmptyHasNothing(q);
    } else {
      var n := |entries| - 1;
      var init, e := entries[..n], entries[n];
      assert entries == init + [e];
      WrittenLeaves(init, q, s);
      GetAfterSet(SetAll(map[], init), e.path, e.value, q);
      assert Entry(q, s) in entries <==> Entry(q, s) in init || Entry(q, s) == e;
      if Entry(q, s) in init {
        var i :| 0 <= i < n && entries[i] == Entry(q, s);
        assert !Comparable(entries[i].path, e.path);
      } else if q != e.path && Comparable(e.path, q) {
        assert e.path < q || q < e.path;
      }
    }
  }

  /** Two leaves of one record never have comparable paths. */
  lemma {:induction false} LeavesIncomparable(m: Fields, p: seq<string>, q: seq<string>)
    requires IsLeaf(m, p) && IsLeaf(m, q) && p != q
    ensures !Comparable(p, q)
    decreases |p|
  {
    if p[0] == q[0] {
      PrefixTail(p, q);
      PrefixTail(q, p);
      if |p| > 1 && |q| > 1 {
        LeavesIncomparable(m[p[0]].m, p[1..], q[1..]);
      }
    }
  }

  /** One entry for every leaf, in some order. */
  ghost predicate ListsLeaves(entries: seq<Entry>, m: Fields) {
    && HavePaths(entries) && DistinctPaths(entries)
    && forall q: seq<string>, s :: q != [] ==> (LeafAt(m, q) == Some(s) <==> Entry(q, s) in entries)
  }

  /** Writing a record's leaves, in any order, into an empty record rebuilds it. */
  lemma {:induction false} LeavesRebuild(m: Fields, entries: seq<Entry>)
    requires FullRecord(m) && ListsLeaves(entries, m)
    ensures SetAll(map[], entries) == m
  {
    forall i, j | 0 <= i < j < |entries|
      ensures !Comparable(entries[i].path, entries[j].path)
    {
      assert Entry(entries[i].path, entries[i].value) in entries;
      assert Entry(entries[j].path, entries[j].value) in entries;
      LeavesIncomparable(m, entries[i].path, entries[j].path);
    }
    SetAllStaysFull(map[], entries);
    forall q: seq<string> | q != []
      ensures LeafAt(SetAll(map[], entries), q) == LeafAt(m, q)
    {
      forall s
        ensures LeafAt(SetAll(map[], entries), q) == Some(s) <==> LeafAt(m, q) == Some(s)
      {
        WrittenLeaves(entries, q, s);
      }
      SameOption(LeafAt(SetAll(map[], entries), q), LeafAt(m, q));
    }
    LeavesDetermine(SetAll(map[], entries), m);
  }

  lemma SameOption(a: Option<string>, b: Option<string>)
    requires forall s :: a == Some(s) <==> b == Some(s)
    ensures a == b
  {
    if a.Some? {
      assert a == Some(a.value);
    }
    if b.Some? {
      assert b == Some(b.value);
    }
  }

  // ---------------------------------------------------------------- listing paths

  function Extend(prefix: string, k: string): string {
    if prefix != "" then prefix + "." + k else k
  }

  /** The text the walk gives a leaf: dots are only put after a prefix that is not empty. */
  function PathText(prefix: string, keys: seq<string>): string
    requires keys != []
    decreases |keys|
  {
    if |keys| == 1 then Extend(prefix, keys[0]) else PathText(Extend(prefix, keys[0]), keys[1..])
  }

  function Under(k: string, below: seq<seq<string>>): (r: seq<seq<string>>)
    ensures |r| == |below| && forall i :: 0 <= i < |r| ==> r[i] == [k] + below[i]
  {
    seq(|below|, i requires 0 <= i < |below| => [k] + below[i])
  }

  /** The leaves under the keys already visited, each once, with its text. */
  ghost predicate Walked(m: Fields, visited: set<string>, prefix: string, leaves: seq<seq<string>>, out: seq<string>) {
    && |out| == |leaves| && Distinct(leaves)
    && (forall q :: q in leaves <==> IsLeaf(m, q) && q[0] in visited)
    && (forall i :: 0 <= i < |out| ==> leaves[i] != [] && out[i] == PathText(prefix, leaves[i]))
  }

  /** The texts of all leaves of m, each leaf once, in some order. */
  ghost predicate ListsTexts(out: seq<string>, prefix: string, m: Fields) {
    exists leaves :: Walked(m, m.Keys, prefix, leaves, out)
  }

  /** Visits the entries of every map in whatever order they come. */
  method Walk(prefix: string, m: Fields) returns (out: seq<string>)
    ensures ListsTexts(out, prefix, m)
    decreases Record(m)
  {
    out := [];
    ghost var leaves: seq<seq<string>> := [];
    var left := m.Keys;
    ghost var visited: set<string> := {};
    while left != {}
      invariant visited !! left && visited + left == m.Keys
      invariant Walked(m, visited, prefix, leaves, out)
      decreases left
    {
      var k :| k in left;
      var p := if prefix != "" then prefix + "." + k else k;
      var below: seq<string>;
      ghost var here: seq<seq<string>>;
      if m[k].Record? {
        assert Record(m[k].m) == m[k];
        below := Walk(p, m[k].m);
        ghost var inner :| Walked(m[k].m, m[k].m.Keys, p, inner, below);
        here := Under(k, inner);
        WalkedChild(m, k, prefix, inner, below);
      } else {
        below, here := [p], [[k]];
        WalkedText(m, k, prefix);
      }
      WalkedMore(m, visited, k, prefix, leaves, out, here, below);
      out, leaves := out + below, leaves + here;
      left, visited := left - {k}, visited + {k};
    }
    assert visited == m.Keys;
  }

  lemma WalkedChild(m: Fields, k: string, prefix: string, inner: seq<seq<string>>, below: seq<string>)
    requires k in m && m[k].Record? && Walked(m[k].m, m[k].m.Keys, Extend(prefix, k), inner, below)
    ensures Walked(m, {k}, prefix, Under(k, inner), below)
  {
    var here := Under(k, inner);
    forall i, j | 0 <= i < j < |here|
      ensures here[i] != here[j]
    {
      assert here[i][1..] == inner[i] && here[j][1..] == inner[j];
    }
    forall q
      ensures q in here <==> IsLeaf(m, q) && q[0] in {k}
    {
      if q in here {
        var i :| 0 <= i < |here| && here[i] == q;
        GetBelow(m, k, inner[i]);
        assert inner[i] in inner;
      }
      if IsLeaf(m, q) && q[0] == k {
        assert |q| > 1 && q == [k] + q[1..];
        GetBelow(m, k, q[1..]);
        assert IsLeaf(m[k].m, q[1..]) && q[1..][0] in m[k].m;
        assert q[1..] in inner;
        var i :| 0 <= i < |inner| && inner[i] == q[1..];
        assert here[i] == q;
      }
    }
    forall i | 0 <= i < |below|
      ensures below[i] == PathText(prefix, here[i])
    {
      assert here[i][1..] == inner[i] && inner[i] != [];
    }
  }

  lemma WalkedText(m: Fields, k: string, prefix: string)
    requires k in m && m[k].Text?
    ensures Walked(m, {k}, prefix, [[k]], [Extend(prefix, k)])
  {
    forall q | IsLeaf(m, q) && q[0] == k
      ensures q == [k]
    {
    }
  }

  lemma WalkedMore(m: Fields, visited: set<string>, k: string, prefix: string, leaves: seq<seq<string>>,
                   out: seq<string>, here: seq<seq<string>>, below: seq<string>)
    requires k !in visited && Walked(m, visited, prefix, leaves, out) && Walked(m, {k}, prefix, here, below)
    ensures Walked(m, visited + {k}, prefix, leaves + here, out + below)
  {
    var all := leaves + here;
    assert forall i :: 0 <= i < |leaves| ==> all[i] == leaves[i] && leaves[i] in leaves;
    assert forall i :: 0 <= i < |here| ==> all[|leaves| + i] == here[i] && here[i] in here;
    forall i, j | 0 <= i < j < |all|
      ensures all[i] != all[j]
    {
      if i < |leaves| <= j {
        assert all[i][0] in visited && all[j][0] == k;
      }
    }
  }

  // ---------------------------------------------------------------- records built from non-empty parts

  /** Keys are named, no text is empty, and no map below the top is empty. */
  ghost predicate Good(v: Value) {
    match v
    case Text(s) => s != ""
    case Record(m) => m != map[] && forall k :: k in m ==> Plain(k) && k != "" && Good(m[k])
  }

  ghost predicate GoodRecord(m: Fields) {
    forall k :: k in m ==> Plain(k) && k != "" && Good(m[k])
  }

  lemma {:induction false} GoodIsFull(v: Value)
    requires Good(v)
    ensures Full(v)
  {
    if v.Record? {
      forall k | k in v.m
        ensures Full(v.m[k])
      {
        GoodIsFull(v.m[k]);
      }
    }
  }

  lemma {:induction false} SetAtStaysGood(m: Fields, keys: seq<string>, s: string)
    requires Named(keys) && s != "" && GoodRecord(m)
    ensures GoodRecord(SetAt(m, keys, s)) && keys[0] in SetAt(m, keys, s)
    decreases |keys|
  {
    if |keys| > 1 {
      SetAtStaysGood(Child(m, keys[0]), keys[1..], s);
    }
  }

  /** Writing keeps a record good: its paths have named components, and an empty string is
      not written at all. */
  lemma {:induction false} SetStaysGood(m: Fields, path: string, s: string)
    requires GoodRecord(m) && Named(Split(path))
    ensures GoodRecord(Set(m, path, s))
  {
    if s != "" {
      SetAtStaysGood(m, Split(path), s);
    }
  }

  lemma {:induction false} GoodLeaf(m: Fields, keys: seq<string>)
    requires GoodRecord(m) && IsLeaf(m, keys)
    ensures Named(keys) && LeafAt(m, keys).value != ""
    decreases |keys|
  {
    if |keys| > 1 {
      GoodLeaf(m[keys[0]].m, keys[1..]);
      assert forall i :: 1 <= i < |keys| ==> keys[i] == keys[1..][i - 1];
    }
  }

  lemma {:induction false} PathTextNamed(prefix: string, keys: seq<string>)
    requires Named(keys)
    ensures PathText(prefix, keys) == if prefix == "" then Dotted(keys) else prefix + "." + Dotted(keys)
    decreases |keys|
  {
    if |keys| > 1 {
      PathTextNamed(Extend(prefix, keys[0]), keys[1..]);
    }
  }

  /** The text under which the walk lists a leaf. */
  ghost predicate NamesLeaf(m: Fields, p: string, q: seq<string>) {
    IsLeaf(m, q) && PathText("", q) == p
  }

  /** Different leaves have different texts. */
  ghost predicate NamesApart(m: Fields) {
    forall q, r :: IsLeaf(m, q) && IsLeaf(m, r) && PathText("", q) == PathText("", r) ==> q == r
  }

  /** Every leaf lies on a path of named components. */
  ghost predicate NamedRecord(m: Fields) {
    forall q :: IsLeaf(m, q) ==> Named(q)
  }

  lemma NamedNames(m: Fields, p: string)
    requires NamedRecord(m)
    ensures (exists q :: NamesLeaf(m, p, q)) <==> IsLeaf(m, Split(p))
  {
    forall q | IsLeaf(m, q)
      ensures Split(PathText("", q)) == q
    {
      PathTextNamed("", q);
      SplitDotted(q);
    }
    if IsLeaf(m, Split(p)) {
      PathTextNamed("", Split(p));
      DottedSplit(p);
      assert NamesLeaf(m, p, Split(p));
    }
  }

  lemma NamedNamesApart(m: Fields)
    requires NamedRecord(m)
    ensures NamesApart(m)
  {
    forall q, r | IsLeaf(m, q) && IsLeaf(m, r) && PathText("", q) == PathText("", r)
      ensures q == r
    {
      PathTextNamed("", q);
      PathTextNamed("", r);
      SplitDotted(q);
      SplitDotted(r);
    }
  }

  lemma ListedLeaf(m: Fields, leaves: seq<seq<string>>, out: seq<string>, i: nat)
    requires Walked(m, m.Keys, "", leaves, out) && i < |out|
    ensures NamesLeaf(m, out[i], leaves[i])
  {
    assert leaves[i] in leaves;
  }

  lemma LeafListed(m: Fields, leaves: seq<seq<string>>, out: seq<string>, p: string, q: seq<string>) returns (i: nat)
    requires Walked(m, m.Keys, "", leaves, out) && NamesLeaf(m, p, q)
    ensures i < |out| && out[i] == p && leaves[i] == q
  {
    assert q[0] in m.Keys;
    assert q in leaves;
    i :| i < |leaves| && leaves[i] == q;
  }

  lemma TextsAreNames(m: Fields, out: seq<string>)
    requires ListsTexts(out, "", m)
    ensures forall p :: p in out <==> exists q :: NamesLeaf(m, p, q)
    ensures Distinct(out) <==> NamesApart(m)
  {
    var leaves :| Walked(m, m.Keys, "", leaves, out);
    assert |leaves| == |out| && Distinct(leaves);
    hide Walked, IsLeaf;
    forall p
      ensures p in out <==> exists q :: NamesLeaf(m, p, q)
    {
      if i: nat :| i < |out| && out[i] == p {
        ListedLeaf(m, leaves, out, i);
      }
      if q :| NamesLeaf(m, p, q) {
        var i := LeafListed(m, leaves, out, p, q);
      }
    }
    if Distinct(out) {
      forall q, r | IsLeaf(m, q) && IsLeaf(m, r) && PathText("", q) == PathText("", r)
        ensures q == r
      {
        var i := LeafListed(m, leaves, out, PathText("", q), q);
        var j := LeafListed(m, leaves, out, PathText("", q), r);
      }
    } else {
      var i: nat, j: nat :| i < j < |out| && out[i] == out[j];
      ListedLeaf(m, leaves, out, i);
      ListedLeaf(m, leaves, out, j);
    }
  }

  /** The listed paths are sorted, and they are the texts of the leaves; no text is listed twice
      exactly when no two leaves share one.  When every leaf lies on a path of named components
      that is so, and the texts are exactly the paths whose value is a text. */
  lemma {:induction false} PathsListLeaves(m: Fields, out: seq<string>)
    requires ListsTexts(out, "", m)
    ensures Sorted(Sort(out)) && forall p :: p in Sort(out) <==> exists q :: NamesLeaf(m, p, q)
    ensures Distinct(Sort(out)) <==> NamesApart(m)
    ensures NamedRecord(m) ==> Distinct(Sort(out)) && forall p :: p in Sort(out) <==> IsLeaf(m, Split(p))
  {
    hide ListsTexts, NamesLeaf, NamesApart, NamedRecord, Split;
    TextsAreNames(m, out);
    SortSorts(out);
    DistinctByCount(out);
    DistinctByCount(Sort(out));
    assert forall p :: p in Sort(out) <==> p in multiset(Sort(out));
    assert forall p :: p in out <==> p in multiset(out);
    if NamedRecord(m) {
      NamedNamesApart(m);
      forall p
        ensures p in Sort(out) <==> IsLeaf(m, Split(p))
      {
        NamedNames(m, p);
      }
    }
  }

  lemma GoodIsNamed(m: Fields)
    requires GoodRecord(m)
    ensures NamedRecord(m)
  {
    forall q | IsLeaf(m, q)
      ensures Named(q)
    {
      GoodLeaf(m, q);
    }
  }

  method Paths(m: Fields) returns (paths: seq<string>)
    ensures exists out :: ListsTexts(out, "", m) && paths == Sort(out)
    ensures Sorted(paths) && forall p :: p in paths <==> exists q :: NamesLeaf(m, p, q)
    ensures Distinct(paths) <==> NamesApart(m)
    ensures NamedRecord(m) ==> Distinct(paths) && forall p :: p in paths <==> IsLeaf(m, Split(p))
  {
    hide ListsTexts, NamesLeaf, NamesApart, NamedRecord;
    var out := Walk("", m);
    paths := Sort(out);
    PathsListLeaves(m, out);
  }

  // ---------------------------------------------------------------- flat form

  ghost predicate IsFlat(f: map<string, string>, m: Fields) {
    forall p, s :: (p in f && f[p] == s) <==> LeafAt(m, Split(p)) == Some(s)
  }

  /** `show` is how a map prints, should a path lead to one. */
  function GetString(m: Fields, path: string, show: Fields -> string): string {
    match Get(m, path)
    case Some(Text(s)) => s
    case Some(Record(c)) => show(c)
    case None => ""
  }

  /** The flat form maps the texts of the leaves to what their paths read; on a record whose
      leaves lie on paths of named components these are the leaves and their texts. */
  method Flat(m: Fields, show: Fields -> string) returns (out: map<string, string>)
    ensures forall p :: p in out <==> exists q :: NamesLeaf(m, p, q)
    ensures forall p :: p in out ==> out[p] == GetString(m, p, show)
    ensures NamedRecord(m) ==> IsFlat(out, m)
  {
    hide NamesLeaf, NamesApart, NamedRecord, GetString;
    var paths := Paths(m);
    out := Strings(m, paths, show);
    if NamedRecord(m) {
      FlatFromPaths(m, paths, show, out);
    }
  }

  /** The values at the given paths. */
  method Strings(m: Fields, paths: seq<string>, show: Fields -> string) returns (out: map<string, string>)
    ensures forall p :: p in out <==> p in paths
    ensures forall p :: p in out ==> out[p] == GetString(m, p, show)
  {
    hide GetString;
    out := map[];
    for i := 0 to |paths|
      invariant forall j :: 0 <= j < i ==> paths[j] in out
      invariant forall p :: p in out ==> p in paths && out[p] == GetString(m, p, show)
    {
      out := out[paths[i] := GetString(m, paths[i], show)];
    }
  }

  lemma FlatFromPaths(m: Fields, paths: seq<string>, show: Fields -> string, f: map<string, string>)
    requires forall p :: p in paths <==> IsLeaf(m, Split(p))
    requires forall p :: p in f <==> p in paths
    requires forall p :: p in f ==> f[p] == GetString(m, p, show)
    ensures IsFlat(f, m)
  {
    forall p, s
      ensures (p in f && f[p] == s) <==> LeafAt(m, Split(p)) == Some(s)
    {
      assert p in f <==> IsLeaf(m, Split(p));
    }
  }

  /** Writes the entries of a flat form, in a given order. */
  function Unflatten(m: Fields, order: seq<string>, f: map<string, string>): Fields
    requires forall i :: 0 <= i < |order| ==> order[i] in f
  {
    if order == [] then m
    else Set(Unflatten(m, order[..|order| - 1], f), order[|order| - 1], f[order[|order| - 1]])
  }

  function EntriesOf(order: seq<string>, f: map<string, string>): (es: seq<Entry>)
    requires forall i :: 0 <= i < |order| ==> order[i] in f
    ensures |es| == |order| && HavePaths(es)
    ensures forall i :: 0 <= i < |es| ==> es[i] == Entry(Split(order[i]), f[order[i]])
  {
    seq(|order|, i requires 0 <= i < |order| => Entry(Split(order[i]), f[order[i]]))
  }

  lemma {:induction false} UnflattenIsSetAll(m: Fields, order: seq<string>, f: map<string, string>)
    requires forall i :: 0 <= i < |order| ==> order[i] in f && f[order[i]] != ""
    ensures Unflatten(m, order, f) == SetAll(m, EntriesOf(order, f))
  {
    if order != [] {
      UnflattenIsSetAll(m, order[..|order| - 1], f);
      assert EntriesOf(order, f)[..|order| - 1] == EntriesOf(order[..|order| - 1], f);
    }
  }

  /** Setting every entry of the flat form into an empty record, in any order, rebuilds the
      record. */
  lemma {:induction false} FlatRebuilds(m: Fields, f: map<string, string>, order: seq<string>)
    requires GoodRecord(m) && IsFlat(f, m)
    requires Distinct(order) && forall p :: p in order <==> p in f
    ensures (forall i :: 0 <= i < |order| ==> order[i] in f) && Unflatten(map[], order, f) == m
  {
    var es := EntriesOf(order, f);
    forall p | p in f
      ensures f[p] != "" && IsLeaf(m, Split(p))
    {
      assert LeafAt(m, Split(p)) == Some(f[p]);
      GoodLeaf(m, Split(p));
    }
    forall i, j | 0 <= i < j < |es|
      ensures es[i].path != es[j].path
    {
      DottedSplit(order[i]);
      DottedSplit(order[j]);
    }
    forall q: seq<string>, s | q != []
      ensures LeafAt(m, q) == Some(s) <==> Entry(q, s) in es
    {
      if LeafAt(m, q) == Some(s) {
        GoodLeaf(m, q);
        SplitDotted(q);
        assert Dotted(q) in f && f[Dotted(q)] == s;
        var i :| 0 <= i < |order| && order[i] == Dotted(q);
        assert es[i] == Entry(q, s);
      }
    }
    forall k | k in m
      ensures Full(m[k])
    {
      GoodIsFull(m[k]);
    }
    UnflattenIsSetAll(map[], order, f);
    LeavesRebuild(m, es);
  }

  /** A leading empty component is lost: the record written at ".a" lists the path "a", which
      it does not have. */
  lemma LeadingEmptyComponentIsLost()
    ensures PathText("", ["", "a"]) == "a"
    ensures IsLeaf(Set(map[], ".a", "x"), ["", "a"]) && Get(Set(map[], ".a", "x"), "a") == None
  {
    SplitWord("", "a");
    SplitWord("a", "");
    assert "" + "." + "a" == ".a";
    assert ["", "a"][1..] == ["a"];
    GetAfterSet(map[], ["", "a"], "x", ["", "a"]);
    GetAfterSet(map[], ["", "a"], "x", ["a"]);
    EmptyHasNothing(["a"]);
  }
}
