/** Flattening a decoded JSON document into extraction variables: `flattenJSON` of
    `engine/parser.go`, lines 262-288.

    The walk ranges over nested maps in whatever order they come and writes each leaf under
    its dotted name, so of two leaves of one name the one visited later stays. */
module JsonFields {
  import opened Wrappers
  import opened Sorting
  import opened Udm

  type Vars = map<string, string>

  function Lookup(vars: Vars, x: string): Option<string> {
    if x in vars then Some(vars[x]) else None
  }

  lemma SameLookups(a: Vars, b: Vars)
    requires forall x :: Lookup(a, x) == Lookup(b, x)
    ensures a == b
  {
    assert forall x :: x in a ==> Lookup(a, x) == Lookup(b, x);
    assert forall x :: x in b ==> Lookup(a, x) == Lookup(b, x);
  }

  // ---------------------------------------------------------------- the writes of a walk

  datatype Write = Write(name: string, text: string)

  function WriteEach(vars: Vars, ws: seq<Write>): Vars {
    if ws == [] then vars
    else
      var n := |ws| - 1;
      WriteEach(vars, ws[..n])[ws[n].name := ws[n].text]
  }

  /** A walk over the given keys of m, in that order, makes these writes. */
  ghost predicate Visits(m: Fields, prefix: string, order: seq<string>, ws: seq<Write>)
    decreases Record(m), |order|
  {
    if order == [] then ws == []
    else
      var n := |order| - 1;
      && order[n] in m
      && exists cut: nat ::
        cut <= |ws| && Visits(m, prefix, order[..n], ws[..cut]) &&
            Writes(m[order[n]], Extend(prefix, order[n]), ws[cut..])
  }

  /** A value met under a name makes these writes, for some order of every map in it. */
  ghost predicate Writes(v: Value, name: string, ws: seq<Write>)
    decreases v
  {
    match v
    case Text(s) => ws == [Write(name, s)]
    case Record(m) => exists order :: Order(order, m.Keys) && Visits(m, name, order, ws)
  }

  /** What flattening the document may leave. */
  ghost predicate FlattenRun(doc: Fields, vars: Vars, vars': Vars) {
    exists ws :: Writes(Record(doc), "", ws) && vars' == WriteEach(vars, ws)
  }

  lemma VisitsSnoc(m: Fields, prefix: string, order: seq<string>, ws: seq<Write>, k: string, here: seq<Write>)
    requires Visits(m, prefix, order, ws) && k in m && Writes(m[k], Extend(prefix, k), here)
    ensures Visits(m, prefix, order + [k], ws + here)
  {
    assert (order + [k])[..|order|] == order;
    assert (ws + here)[..|ws|] == ws && (ws + here)[|ws|..] == here;
  }

  lemma {:induction false} WriteEachConcat(vars: Vars, a: seq<Write>, b: seq<Write>)
    ensures WriteEach(vars, a + b) == WriteEach(WriteEach(vars, a), b)
  {
    if b == [] {
      assert a + b == a;
    } else {
      var n := |b| - 1;
      WriteEachConcat(vars, a, b[..n]);
      assert (a + b)[..|a| + n] == a + b[..n];
    }
  }

  // ---------------------------------------------------------------- the writes are the leaves

  ghost predicate WritesLeaf(m: Fields, prefix: string, q: seq<string>, w: Write) {
    IsLeaf(m, q) && w == Write(PathText(prefix, q), LeafAt(m, q).value)
  }

  lemma WritesLeafBelow(m: Fields, prefix: string, k: string, q: seq<string>, w: Write)
    requires k in m && m[k].Record? && q != []
    ensures WritesLeaf(m, prefix, [k] + q, w) <==> WritesLeaf(m[k].m, Extend(prefix, k), q, w)
  {
    GetBelow(m, k, q);
    assert ([k] + q)[1..] == q;
  }

  lemma {:induction false} VisitsWriteLeaves(m: Fields, prefix: string, order: seq<string>, ws: seq<Write>, w: Write)
    requires Visits(m, prefix, order, ws)
    ensures w in ws <==> exists q :: WritesLeaf(m, prefix, q, w) && q[0] in order
    decreases Record(m), |order|
  {
    if order != [] {
      var n := |order| - 1;
      var k := order[n];
      var cut: nat :| cut <= |ws| && Visits(m, prefix, order[..n], ws[..cut]) &&
          Writes(m[k], Extend(prefix, k), ws[cut..]);
      assert ws == ws[..cut] + ws[cut..] && order == order[..n] + [k];
      VisitsWriteLeaves(m, prefix, order[..n], ws[..cut], w);
      KeyWritesLeaves(m, prefix, k, ws[cut..], w);
      hide WritesLeaf, Visits, Writes;
      if exists q :: WritesLeaf(m, prefix, q, w) && q[0] in order {
        var q :| WritesLeaf(m, prefix, q, w) && q[0] in order;
        assert q[0] in order[..n] || q[0] == k;
      }
    }
  }

  lemma {:induction false} KeyWritesLeaves(m: Fields, prefix: string, k: string, here: seq<Write>, w: Write)
    requires k in m && Writes(m[k], Extend(prefix, k), here)
    ensures w in here <==> exists q :: WritesLeaf(m, prefix, q, w) && q[0] == k
    decreases Record(m), 0
  {
    if m[k].Text? {
      TextLeaf(m, prefix, k, w);
    } else {
      var c := m[k].m;
      var order :| Order(order, c.Keys) && Visits(c, Extend(prefix, k), order, here);
      assert Record(c) == m[k];
      VisitsWriteLeaves(c, Extend(prefix, k), order, here, w);
      hide Visits, Writes, WritesLeaf;
      BelowLeaves(m, prefix, k, order, w);
    }
  }

  lemma BelowLeaves(m: Fields, prefix: string, k: string, order: seq<string>, w: Write)
    requires k in m && m[k].Record? && Order(order, m[k].m.Keys)
    ensures (exists q :: WritesLeaf(m, prefix, q, w) && q[0] == k) <==>
      exists q :: WritesLeaf(m[k].m, Extend(prefix, k), q, w) && q[0] in order
  {
    var c := m[k].m;
    if q :| WritesLeaf(c, Extend(prefix, k), q, w) && q[0] in order {
      WritesLeafBelow(m, prefix, k, q, w);
      assert ([k] + q)[0] == k;
    }
    if q :| WritesLeaf(m, prefix, q, w) && q[0] == k {
      assert |q| > 1 && q == [k] + q[1..];
      WritesLeafBelow(m, prefix, k, q[1..], w);
      assert q[1..][0] in c;
    }
  }

  lemma TextLeaf(m: Fields, prefix: string, k: string, w: Write)
    requires k in m && m[k].Text?
    ensures w == Write(Extend(prefix, k), m[k].s) <==> exists q :: WritesLeaf(m, prefix, q, w) && q[0] == k
  {
    assert WritesLeaf(m, prefix, [k], Write(Extend(prefix, k), m[k].s));
    forall q | WritesLeaf(m, prefix, q, w) && q[0] == k
      ensures q == [k]
    {
    }
  }

  lemma DocumentWrites(doc: Fields, ws: seq<Write>, w: Write)
    requires Writes(Record(doc), "", ws)
    ensures w in ws <==> exists q :: WritesLeaf(doc, "", q, w)
  {
    var order :| Order(order, doc.Keys) && Visits(doc, "", order, ws);
    VisitsWriteLeaves(doc, "", order, ws, w);
    if exists q :: WritesLeaf(doc, "", q, w) {
      var q :| WritesLeaf(doc, "", q, w);
      assert q[0] in doc;
    }
  }

  // ---------------------------------------------------------------- any leaf can come last

  lemma {:induction false} SomeVisits(m: Fields, prefix: string, order: seq<string>) returns (ws: seq<Write>)
    requires forall i :: 0 <= i < |order| ==> order[i] in m
    ensures Visits(m, prefix, order, ws)
    decreases Record(m), |order|
  {
    if order == [] {
      ws := [];
    } else {
      var n := |order| - 1;
      var before := SomeVisits(m, prefix, order[..n]);
      var here := SomeWrites(m[order[n]], Extend(prefix, order[n]));
      VisitsSnoc(m, prefix, order[..n], before, order[n], here);
      assert order == order[..n] + [order[n]];
      ws := before + here;
    }
  }

  lemma {:induction false} SomeWrites(v: Value, name: string) returns (ws: seq<Write>)
    ensures Writes(v, name, ws)
    decreases v
  {
    match v
    case Text(s) => ws := [Write(name, s)];
    case Record(m) =>
      var order := SomeOrder(m.Keys);
      OrderDefined(order, m.Keys);
      ws := SomeVisits(m, name, order);
  }

  lemma {:induction false} LeafLast(m: Fields, prefix: string, q: seq<string>) returns (ws: seq<Write>)
    requires IsLeaf(m, q)
    ensures Writes(Record(m), prefix, ws) && ws != [] && WritesLeaf(m, prefix, q, ws[|ws| - 1])
    decreases |q|
  {
    hide Visits;
    var k := q[0];
    var here: seq<Write>;
    if |q| == 1 {
      here := [Write(Extend(prefix, k), LeafAt(m, q).value)];
    } else {
      here := LeafLast(m[k].m, Extend(prefix, k), q[1..]);
      assert q == [k] + q[1..] && Record(m[k].m) == m[k];
      WritesLeafBelow(m, prefix, k, q[1..], here[|here| - 1]);
    }
    var before := KeyLast(m, prefix, k, here);
    ws := before + here;
  }

  /** The other keys first, in some order, then k. */
  lemma KeyLast(m: Fields, prefix: string, k: string, here: seq<Write>) returns (before: seq<Write>)
    requires k in m && Writes(m[k], Extend(prefix, k), here)
    ensures Writes(Record(m), prefix, before + here)
  {
    hide Visits;
    var rest := SomeOrder(m.Keys - {k});
    OrderDefined(rest, m.Keys - {k});
    before := SomeVisits(m, prefix, rest);
    VisitsSnoc(m, prefix, rest, before, k, here);
    assert Order(rest + [k], m.Keys);
  }

  // ---------------------------------------------------------------- when the order does not matter

  /** Leaves of one name have one text. */
  ghost predicate NamesAgree(doc: Fields) {
    forall p, q :: IsLeaf(doc, p) && IsLeaf(doc, q) && PathText("", p) == PathText("", q) ==>
        LeafAt(doc, p) == LeafAt(doc, q)
  }

  predicate Agree(ws: seq<Write>) {
    forall i, j :: 0 <= i < |ws| && 0 <= j < |ws| && ws[i].name == ws[j].name ==> ws[i] == ws[j]
  }

  lemma {:induction false} LastStays(vars: Vars, ws: seq<Write>)
    requires ws != []
    ensures Lookup(WriteEach(vars, ws), ws[|ws| - 1].name) == Some(ws[|ws| - 1].text)
  {
  }

  lemma {:induction false} AgreedLookup(vars: Vars, ws: seq<Write>, x: string)
    requires Agree(ws)
    ensures (forall i :: 0 <= i < |ws| ==> ws[i].name != x) ==> Lookup(WriteEach(vars, ws), x) == Lookup(vars, x)
    ensures forall i :: 0 <= i < |ws| && ws[i].name == x ==> Lookup(WriteEach(vars, ws), x) == Some(ws[i].text)
  {
    if ws != [] {
      AgreedLookup(vars, ws[..|ws| - 1], x);
      assert forall i :: 0 <= i < |ws| - 1 ==> ws[..|ws| - 1][i] == ws[i];
    }
  }

  lemma AgreedWrites(doc: Fields, ws: seq<Write>)
    requires NamesAgree(doc) && Writes(Record(doc), "", ws)
    ensures Agree(ws)
  {
    forall i, j | 0 <= i < |ws| && 0 <= j < |ws| && ws[i].name == ws[j].name
      ensures ws[i] == ws[j]
    {
      DocumentWrites(doc, ws, ws[i]);
      DocumentWrites(doc, ws, ws[j]);
      assert ws[i] in ws && ws[j] in ws;
      var p :| WritesLeaf(doc, "", p, ws[i]);
      var q :| WritesLeaf(doc, "", q, ws[j]);
    }
  }

  lemma SameWritesSameVars(vars: Vars, a: seq<Write>, b: seq<Write>)
    requires Agree(a) && Agree(b) && forall w :: w in a <==> w in b
    ensures WriteEach(vars, a) == WriteEach(vars, b)
  {
    forall x
      ensures Lookup(WriteEach(vars, a), x) == Lookup(WriteEach(vars, b), x)
    {
      AgreedLookup(vars, a, x);
      AgreedLookup(vars, b, x);
      if i :| 0 <= i < |a| && a[i].name == x {
        assert a[i] in a && a[i] in b;
      }
      if i :| 0 <= i < |b| && b[i].name == x {
        assert b[i] in b && b[i] in a;
      }
    }
    SameLookups(WriteEach(vars, a), WriteEach(vars, b));
  }

  lemma AgreedRuns(doc: Fields, vars: Vars, a: Vars, b: Vars)
    requires NamesAgree(doc) && FlattenRun(doc, vars, a) && FlattenRun(doc, vars, b)
    ensures a == b
  {
    var ws :| Writes(Record(doc), "", ws) && a == WriteEach(vars, ws);
    var xs :| Writes(Record(doc), "", xs) && b == WriteEach(vars, xs);
    AgreedWrites(doc, ws);
    AgreedWrites(doc, xs);
    forall w
      ensures w in ws <==> w in xs
    {
      DocumentWrites(doc, ws, w);
      DocumentWrites(doc, xs, w);
    }
    SameWritesSameVars(vars, ws, xs);
  }

  /** Flattening a document gives the same variables for every order of its maps exactly when
      leaves that flatten to one name have one text. */
  lemma {:induction false} FlattenOrderFreeIffNamesAgree(doc: Fields)
    ensures (forall vars, a, b :: FlattenRun(doc, vars, a) && FlattenRun(doc, vars, b) ==> a == b) <==> NamesAgree(doc)
  {
    hide FlattenRun, Writes, WriteEach;
    if NamesAgree(doc) {
      forall vars, a, b | FlattenRun(doc, vars, a) && FlattenRun(doc, vars, b)
        ensures a == b
      {
        AgreedRuns(doc, vars, a, b);
      }
    } else {
      var p, q :| IsLeaf(doc, p) && IsLeaf(doc, q) && PathText("", p) == PathText("", q) &&
          LeafAt(doc, p) != LeafAt(doc, q);
      var ws := LeafLast(doc, "", p);
      var xs := LeafLast(doc, "", q);
      LastStays(map[], ws);
      LastStays(map[], xs);
      Ran(doc, map[], ws);
      Ran(doc, map[], xs);
    }
  }

  lemma Ran(doc: Fields, vars: Vars, ws: seq<Write>)
    requires Writes(Record(doc), "", ws)
    ensures FlattenRun(doc, vars, WriteEach(vars, ws))
  {
  }

  /** Names never collide in a document whose keys are not empty and contain no dot. */
  lemma {:induction false} NamedKeysAgree(doc: Fields)
    requires NamedRecord(doc)
    ensures NamesAgree(doc)
  {
    NamedNamesApart(doc);
  }

  /** A dotted key and a nested one: either value may stay. */
  lemma DottedKeyCollides(vars: Vars)
    ensures var doc := map["a" := Record(map["b" := Text("1")]), "a.b" := Text("2")];
      FlattenRun(doc, vars, vars["a.b" := "1"]) && FlattenRun(doc, vars, vars["a.b" := "2"])
  {
    var doc := map["a" := Record(map["b" := Text("1")]), "a.b" := Text("2")];
    var p, q := ["a", "b"], ["a.b"];
    assert p[1..] == ["b"];
    assert Extend("a", "b") == "a.b" && Extend("", "a") == "a";
    assert WritesLeaf(doc, "", p, Write("a.b", "1")) && WritesLeaf(doc, "", q, Write("a.b", "2"));
    forall r, w | WritesLeaf(doc, "", r, w)
      ensures w.name == "a.b"
    {
      if r[0] == "a" {
        assert |r| > 1 && r == ["a"] + r[1..];
        WritesLeafBelow(doc, "", "a", r[1..], w);
        OnlyLeaf("b", "1", r[1..]);
        assert r == p;
      } else {
        assert doc["a.b"] == Text("2") && r[0] == "a.b";
        assert r == q;
      }
    }
    LastOf(doc, vars, p, "a.b", "1");
    LastOf(doc, vars, q, "a.b", "2");
  }

  lemma OnlyLeaf(k: string, s: string, q: seq<string>)
    requires IsLeaf(map[k := Text(s)], q)
    ensures q == [k]
  {
  }

  lemma LastOf(doc: Fields, vars: Vars, q: seq<string>, name: string, text: string)
    requires WritesLeaf(doc, "", q, Write(name, text))
    requires forall r, w :: WritesLeaf(doc, "", r, w) ==> w.name == name
    ensures FlattenRun(doc, vars, vars[name := text])
  {
    var ws := LeafLast(doc, "", q);
    forall i | 0 <= i < |ws|
      ensures ws[i].name == name
    {
      DocumentWrites(doc, ws, ws[i]);
      assert ws[i] in ws;
    }
    OneName(vars, ws, name);
    Ran(doc, vars, ws);
  }

  lemma {:induction false} OneName(vars: Vars, ws: seq<Write>, name: string)
    requires ws != [] && forall i :: 0 <= i < |ws| ==> ws[i].name == name
    ensures WriteEach(vars, ws) == vars[name := ws[|ws| - 1].text]
  {
    if |ws| > 1 {
      OneName(vars, ws[..|ws| - 1], name);
    }
  }
}
