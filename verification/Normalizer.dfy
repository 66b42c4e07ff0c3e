/** Running parsers over an event: `engine/parser.go`, lines 168-231 and 292-357.

    `apply` ranges over maps, whose order is arbitrary.  The methods below pick the order
    freely; what they may produce is described by the run predicates, and the theorems say
    when every order produces the same. */
module Normalizer {
  import opened Wrappers
  import opened Sorting
  import opened Udm
  import opened UdmHeap
  import opened JsonFields
  import opened Texts

  // ---------------------------------------------------------------- templates

  /** A template as its literal text and its `%{name}` references. */
  datatype Part = Lit(text: string) | Ref(name: string)

  function Var(vars: Vars, name: string): string {
    if name in vars then vars[name] else ""
  }

  predicate Resolved(tmpl: seq<Part>, vars: Vars) {
    forall i :: 0 <= i < |tmpl| && tmpl[i].Ref? ==> Var(vars, tmpl[i].name) != ""
  }

  function Filled(tmpl: seq<Part>, vars: Vars): string {
    if tmpl == [] then ""
    else
      var last := tmpl[|tmpl| - 1];
      Filled(tmpl[..|tmpl| - 1], vars) + (match last case Lit(text) => text case Ref(name) => Var(vars, name))
  }

  /** The pieces that a template is filled with, part by part: literal text stays, a reference
      gives way to its variable, and to nothing if there is none. */
  ghost predicate Fills(tmpl: seq<Part>, vars: Vars, pieces: seq<string>) {
    |pieces| == |tmpl| && forall i :: 0 <= i < |tmpl| ==>
      match tmpl[i]
      case Lit(text) => pieces[i] == text
      case Ref(name) => pieces[i] == if name in vars then vars[name] else ""
  }

  lemma {:induction false} FilledIs(tmpl: seq<Part>, vars: Vars, pieces: seq<string>)
    requires Fills(tmpl, vars, pieces)
    ensures Filled(tmpl, vars) == Concat(pieces)
  {
    if tmpl != [] {
      FilledIs(tmpl[..|tmpl| - 1], vars, pieces[..|tmpl| - 1]);
    }
  }

  /** Filling templates one after the other fills the whole; a literal fills to itself and a
      reference to its variable. */
  lemma {:induction false} FilledConcat(a: seq<Part>, b: seq<Part>, text: string, name: string, vars: Vars)
    ensures Filled(a + b, vars) == Filled(a, vars) + Filled(b, vars)
    ensures Filled([Lit(text)], vars) == text
    ensures Filled([Ref(name)], vars) == if name in vars then vars[name] else ""
  {
    FilledIs([Lit(text)], vars, [text]);
    FilledIs([Ref(name)], vars, [if name in vars then vars[name] else ""]);
    ConcatJoins([], [text]);
    ConcatJoins([], [if name in vars then vars[name] else ""]);
    if b == [] {
      assert a + b == a;
    } else {
      FilledConcat(a, b[..|b| - 1], text, name, vars);
      assert (a + b)[..|a + b| - 1] == a + b[..|b| - 1];
    }
  }

  method Interpolate(tmpl: seq<Part>, vars: Vars) returns (out: string, resolved: bool)
    ensures out == Filled(tmpl, vars) && resolved == Resolved(tmpl, vars)
    ensures forall pieces :: Fills(tmpl, vars, pieces) ==> out == Concat(pieces)
    ensures resolved <==> forall i :: 0 <= i < |tmpl| && tmpl[i].Ref? ==>
      tmpl[i].name in vars && vars[tmpl[i].name] != ""
  {
    out, resolved := "", true;
    for i := 0 to |tmpl|
      invariant out == Filled(tmpl[..i], vars)
      invariant resolved <==> forall j :: 0 <= j < i && tmpl[j].Ref? ==> Var(vars, tmpl[j].name) != ""
    {
      assert tmpl[..i + 1][..i] == tmpl[..i];
      match tmpl[i] {
        case Lit(text) => out := out + text;
        case Ref(name) =>
          if name !in vars || vars[name] == "" {
            resolved := false;
          } else {
            out := out + vars[name];
          }
      }
    }
    assert tmpl[..|tmpl|] == tmpl;
    forall pieces | Fills(tmpl, vars, pieces)
      ensures out == Concat(pieces)
    {
      FilledIs(tmpl, vars, pieces);
    }
  }

  // ---------------------------------------------------------------- steps

  datatype GrokStep = GrokStep(source: string, patterns: seq<string -> Option<Vars>>)

  datatype KvStep = KvStep(source: string, extract: string -> Vars)

  /** `decode` reads a JSON object as nested maps with its scalars and lists as texts. */
  datatype JsonStep = JsonStep(source: string, decode: string -> Option<Fields>)

  /** One filter step; when it holds several parts the first in this order runs. */
  datatype Step = Step(
    grok: Option<GrokStep>,
    kv: Option<KvStep>,
    json: Option<JsonStep>,
    rename: map<string, string>,
    set_: map<string, seq<Part>>,
    on: Option<Vars -> bool>)

  /** `check` gates the parser on the event and the variables so far. */
  datatype Parser = Parser(name: string, logType: string, check: (Event, Vars) -> bool, filters: seq<Step>)

  datatype Event = Event(
    stamp: string, message: string, raw: string, program: string, host: string,
    agentName: string, agentId: string, fields: Vars)

  function Source(vars: Vars, source: string): string {
    Var(vars, if source == "" then "message" else source)
  }

  /** The bindings of the first pattern that matches. */
  function FirstMatch(patterns: seq<string -> Option<Vars>>, s: string): Vars {
    if patterns == [] then map[]
    else
      match patterns[0](s)
      case Some(got) => got
      case None => FirstMatch(patterns[1..], s)
  }

  /** The document a JSON step flattens: nothing if the trimmed text is not an object. */
  function Document(j: JsonStep, vars: Vars): Fields {
    var s := Trim(Source(vars, j.source));
    if s == "" || s[0] != '{' then map[]
    else
      match j.decode(s)
      case None => map[]
      case Some(doc) => doc
  }

  // ---------------------------------------------------------------- rename steps

  function RenameOne(vars: Vars, dst: string, src: string): Vars {
    if src in vars then vars[dst := vars[src]] else vars
  }

  function RenameAll(vars: Vars, order: seq<string>, renames: map<string, string>): Vars
    requires forall i :: 0 <= i < |order| ==> order[i] in renames
  {
    if order == [] then vars
    else
      var dst := order[|order| - 1];
      RenameOne(RenameAll(vars, order[..|order| - 1], renames), dst, renames[dst])
  }

  /** No variable is both written by one entry and read by another, unless it is written back
      to itself. */
  predicate NoChain(renames: map<string, string>) {
    forall d, e :: d in renames && e in renames && d != e && renames[e] == d ==> renames[d] == d
  }

  lemma {:induction false} RenameKeepsOthers(vars: Vars, order: seq<string>, renames: map<string, string>, x: string)
    requires forall i :: 0 <= i < |order| ==> order[i] in renames
    requires forall i :: 0 <= i < |order| && order[i] == x ==> renames[x] == x
    ensures var r := RenameAll(vars, order, renames); (x in r <==> x in vars) && (x in r ==> r[x] == vars[x])
  {
    if order != [] {
      RenameKeepsOthers(vars, order[..|order| - 1], renames, x);
    }
  }

  /** Without chains every destination gets the value its source had at the start. */
  lemma {:induction false} RenameReadsOriginal(vars: Vars, order: seq<string>, renames: map<string, string>, x: string)
    requires forall i :: 0 <= i < |order| ==> order[i] in renames
    requires Distinct(order) && NoChain(renames)
    ensures Lookup(RenameAll(vars, order, renames), x)
         == if x in order && renames[x] in vars then Some(vars[renames[x]]) else Lookup(vars, x)
  {
    if order != [] {
      var n := |order| - 1;
      var init, dst := order[..n], order[n];
      assert order == init + [dst];
      RenameReadsOriginal(vars, init, renames, x);
      if dst == x {
        RenameKeepsOthers(vars, init, renames, renames[x]);
        assert x !in init;
      }
    }
  }

  ghost predicate RenameOrderFree(renames: map<string, string>) {
    forall vars, a, b :: Order(a, renames.Keys) && Order(b, renames.Keys) ==>
      Renamed(vars, a, renames) == Renamed(vars, b, renames)
  }

  ghost function Renamed(vars: Vars, order: seq<string>, renames: map<string, string>): Vars
    requires Order(order, renames.Keys)
  {
    OrderDefined(order, renames.Keys);
    RenameAll(vars, order, renames)
  }

  lemma {:induction false} RenameTail(vars: Vars, head: seq<string>, tail: seq<string>,
                                      renames: map<string, string>, x: string)
    requires forall i :: 0 <= i < |head| ==> head[i] in renames
    requires forall i :: 0 <= i < |tail| ==> tail[i] in renames && tail[i] != x
    ensures forall i :: 0 <= i < |head + tail| ==> (head + tail)[i] in renames
    ensures var r, h := RenameAll(vars, head + tail, renames), RenameAll(vars, head, renames);
      (x in r <==> x in h) && (x in r ==> r[x] == h[x])
  {
    if tail == [] {
      assert head + tail == head;
    } else {
      var n := |tail| - 1;
      RenameTail(vars, head, tail[..n], renames, x);
      assert (head + tail)[..|head| + n] == head + tail[..n];
    }
  }

  lemma NoChainIsOrderFree(vars: Vars, a: seq<string>, b: seq<string>, renames: map<string, string>)
    requires NoChain(renames) && Order(a, renames.Keys) && Order(b, renames.Keys)
    ensures Renamed(vars, a, renames) == Renamed(vars, b, renames)
  {
    OrderDefined(a, renames.Keys);
    OrderDefined(b, renames.Keys);
    forall x
      ensures Lookup(RenameAll(vars, a, renames), x) == Lookup(RenameAll(vars, b, renames), x)
    {
      RenameReadsOriginal(vars, a, renames, x);
      RenameReadsOriginal(vars, b, renames, x);
    }
    SameLookups(RenameAll(vars, a, renames), RenameAll(vars, b, renames));
  }

  lemma RenameTwo(vars: Vars, d: string, e: string, renames: map<string, string>)
    requires d in renames && e in renames
    ensures RenameAll(vars, [d, e], renames) == RenameOne(RenameOne(vars, d, renames[d]), e, renames[e])
  {
    assert [d, e][..1] == [d] && [d][..0] == [];
    assert RenameAll(vars, [d], renames) == RenameOne(RenameAll(vars, [], renames), d, renames[d]);
  }

  lemma ChainDiffers(renames: map<string, string>, d: string, e: string, tail: seq<string>)
    requires d in renames && e in renames && d != e && renames[e] == d && renames[d] != d
    requires forall i :: 0 <= i < |tail| ==> tail[i] in renames && tail[i] != e
    ensures var vars := map[d := "old", renames[d] := "new"];
      RenameAll(vars, [d, e] + tail, renames) != RenameAll(vars, [e, d] + tail, renames)
  {
    var vars := map[d := "old", renames[d] := "new"];
    RenameTail(vars, [d, e], tail, renames, e);
    RenameTail(vars, [e, d], tail, renames, e);
    RenameTwo(vars, d, e, renames);
    RenameTwo(vars, e, d, renames);
    hide RenameAll;
    assert RenameAll(vars, [d, e], renames)[e] == "new";
    assert RenameAll(vars, [e, d], renames)[e] == "old";
  }

  /** A rename step gives the same variables for every order of its map exactly when it has no
      chain. */
  lemma {:induction false} RenameOrderFreeIffNoChain(renames: map<string, string>)
    ensures RenameOrderFree(renames) <==> NoChain(renames)
  {
    hide RenameAll;
    if NoChain(renames) {
      forall vars, a, b | Order(a, renames.Keys) && Order(b, renames.Keys)
        ensures Renamed(vars, a, renames) == Renamed(vars, b, renames)
      {
        NoChainIsOrderFree(vars, a, b, renames);
      }
    } else {
      var d, e :| d in renames && e in renames && d != e && renames[e] == d && renames[d] != d;
      var tail := SomeOrder(renames.Keys - {d, e});
      OrderDefined(tail, renames.Keys - {d, e});
      ChainDiffers(renames, d, e, tail);
      TwoFirst(d, e, tail, renames.Keys);
      TwoFirst(e, d, tail, renames.Keys);
      var vars := map[d := "old", renames[d] := "new"];
      assert Renamed(vars, [d, e] + tail, renames) != Renamed(vars, [e, d] + tail, renames);
    }
  }

  lemma TwoFirst(d: string, e: string, tail: seq<string>, keys: set<string>)
    requires d in keys && e in keys && d != e && Order(tail, keys - {d, e})
    ensures Order([d, e] + tail, keys)
  {
    OrderDefined(tail, keys - {d, e});
  }

  lemma TwoLast(rest: seq<string>, d: string, e: string, keys: set<string>)
    requires d in keys && e in keys && d != e && Order(rest, keys - {d, e})
    ensures Order(rest + [d] + [e], keys)
  {
    OrderDefined(rest, keys - {d, e});
  }

  // ---------------------------------------------------------------- set steps

  /** The entry is written: its template resolves to something. */
  predicate Written(tmpl: seq<Part>, vars: Vars) {
    Resolved(tmpl, vars) && Filled(tmpl, vars) != ""
  }

  function WriteOne(m: Fields, path: string, tmpl: seq<Part>, vars: Vars): Fields {
    if Written(tmpl, vars) then Udm.Set(m, path, Filled(tmpl, vars)) else m
  }

  function WriteAll(m: Fields, order: seq<string>, sets: map<string, seq<Part>>, vars: Vars): Fields
    requires forall i :: 0 <= i < |order| ==> order[i] in sets
  {
    if order == [] then m
    else
      var path := order[|order| - 1];
      WriteOne(WriteAll(m, order[..|order| - 1], sets, vars), path, sets[path], vars)
  }

  /** No written path is a prefix of another. */
  predicate PathsApart(sets: map<string, seq<Part>>, vars: Vars) {
    forall p, q :: p in sets && q in sets && p != q && Written(sets[p], vars) && Written(sets[q], vars) ==>
      !Comparable(Udm.Split(p), Udm.Split(q))
  }

  function WrittenEntries(order: seq<string>, sets: map<string, seq<Part>>, vars: Vars): (es: seq<Entry>)
    requires forall i :: 0 <= i < |order| ==> order[i] in sets
    ensures HavePaths(es)
  {
    if order == [] then []
    else
      var path, before := order[|order| - 1], WrittenEntries(order[..|order| - 1], sets, vars);
      if Written(sets[path], vars) then before + [Entry(Udm.Split(path), Filled(sets[path], vars))] else before
  }

  lemma {:induction false} WriteAllIsSetAll(m: Fields, order: seq<string>, sets: map<string, seq<Part>>, vars: Vars)
    requires forall i :: 0 <= i < |order| ==> order[i] in sets
    ensures WriteAll(m, order, sets, vars) == SetAll(m, WrittenEntries(order, sets, vars))
  {
    hide Written, Filled;
    if order != [] {
      var path, before := order[|order| - 1], order[..|order| - 1];
      WriteAllIsSetAll(m, before, sets, vars);
      if Written(sets[path], vars) {
        SetAllSnoc(m, WrittenEntries(before, sets, vars), Entry(Udm.Split(path), Filled(sets[path], vars)));
        WrittenNotEmpty(sets[path], vars);
      }
    }
  }

  lemma WrittenNotEmpty(tmpl: seq<Part>, vars: Vars)
    requires Written(tmpl, vars)
    ensures Filled(tmpl, vars) != ""
  {
  }

  lemma {:induction false} WrittenEntriesAre(order: seq<string>, sets: map<string, seq<Part>>, vars: Vars)
    requires Distinct(order) && forall i :: 0 <= i < |order| ==> order[i] in sets
    ensures DistinctPaths(WrittenEntries(order, sets, vars))
    ensures forall e :: e in WrittenEntries(order, sets, vars) <==>
      exists p :: p in order && Written(sets[p], vars) && e == Entry(Udm.Split(p), Filled(sets[p], vars))
  {
    hide Written, Filled;
    if order != [] {
      var n := |order| - 1;
      var path, before := order[n], order[..n];
      assert order == before + [path];
      WrittenEntriesAre(before, sets, vars);
      var es := WrittenEntries(before, sets, vars);
      DottedSplit(path);
      forall i | 0 <= i < |es|
        ensures es[i].path != Udm.Split(path)
      {
        assert es[i] in es;
        var p :| p in before && Written(sets[p], vars) && es[i] == Entry(Udm.Split(p), Filled(sets[p], vars));
        DottedSplit(p);
      }
    }
  }

  lemma DistinctEntries(es: seq<Entry>)
    requires DistinctPaths(es)
    ensures Distinct(es)
  {
  }

  lemma SameMembersSameMultiset<T>(a: seq<T>, b: seq<T>)
    requires Distinct(a) && Distinct(b) && forall x :: x in a <==> x in b
    ensures multiset(a) == multiset(b)
  {
    DistinctByCount(a);
    DistinctByCount(b);
    forall x
      ensures multiset(a)[x] == multiset(b)[x]
    {
      assert x in a <==> x in multiset(a);
      assert x in b <==> x in multiset(b);
    }
  }

  lemma {:induction false} EntriesApart(order: seq<string>, sets: map<string, seq<Part>>, vars: Vars)
    requires Distinct(order) && (forall i :: 0 <= i < |order| ==> order[i] in sets) && PathsApart(sets, vars)
    ensures PrefixFree(WrittenEntries(order, sets, vars))
  {
    hide Written, Filled;
    var es := WrittenEntries(order, sets, vars);
    WrittenEntriesAre(order, sets, vars);
    forall i, j | 0 <= i < j < |es|
      ensures !Comparable(es[i].path, es[j].path)
    {
      assert es[i] in es && es[j] in es;
      var p :| p in order && Written(sets[p], vars) && es[i] == Entry(Udm.Split(p), Filled(sets[p], vars));
      var q :| q in order && Written(sets[q], vars) && es[j] == Entry(Udm.Split(q), Filled(sets[q], vars));
      assert p != q;
    }
  }

  ghost function Wrote(m: Fields, order: seq<string>, sets: map<string, seq<Part>>, vars: Vars): Fields
    requires Order(order, sets.Keys)
  {
    OrderDefined(order, sets.Keys);
    WriteAll(m, order, sets, vars)
  }

  ghost predicate SetOrderFree(m: Fields, sets: map<string, seq<Part>>, vars: Vars) {
    forall a, b :: Order(a, sets.Keys) && Order(b, sets.Keys) ==> Wrote(m, a, sets, vars) == Wrote(m, b, sets, vars)
  }

  lemma {:induction false} ApartIsOrderFree(m: Fields, sets: map<string, seq<Part>>, vars: Vars,
                                            a: seq<string>, b: seq<string>)
    requires PathsApart(sets, vars) && Order(a, sets.Keys) && Order(b, sets.Keys)
    ensures Wrote(m, a, sets, vars) == Wrote(m, b, sets, vars)
  {
    hide Written, Filled, PathsApart;
    OrderDefined(a, sets.Keys);
    OrderDefined(b, sets.Keys);
    var ea, eb := WrittenEntries(a, sets, vars), WrittenEntries(b, sets, vars);
    WriteAllIsSetAll(m, a, sets, vars);
    WriteAllIsSetAll(m, b, sets, vars);
    WrittenEntriesAre(a, sets, vars);
    WrittenEntriesAre(b, sets, vars);
    EntriesApart(b, sets, vars);
    DistinctEntries(ea);
    DistinctEntries(eb);
    SameMembersSameMultiset(ea, eb);
    OrderIrrelevant(m, ea, eb);
  }

  lemma ReadAfterLastWrite(m: Fields, before: seq<string>, p: string, q: string, sets: map<string, seq<Part>>,
                           vars: Vars)
    requires p in sets && Written(sets[p], vars) && forall i :: 0 <= i < |before| ==> before[i] in sets
    ensures forall i :: 0 <= i < |before + [p]| ==> (before + [p])[i] in sets
    ensures var r := GetAt(WriteAll(m, before + [p], sets, vars), Udm.Split(q));
      && (p == q ==> r.Some? && r.value.Text?)
      && (Udm.Split(p) < Udm.Split(q) ==> r == None)
      && (Udm.Split(q) < Udm.Split(p) ==> r.Some? && r.value.Record?)
  {
    assert (before + [p])[..|before|] == before;
    GetAfterSet(WriteAll(m, before, sets, vars), Udm.Split(p), Filled(sets[p], vars), Udm.Split(q));
  }

  /** A set step gives the same record for every order of its map exactly when no path it
      writes is a prefix of another path it writes. */
  lemma {:induction false} SetOrderFreeIffApart(m: Fields, sets: map<string, seq<Part>>, vars: Vars)
    ensures SetOrderFree(m, sets, vars) <==> PathsApart(sets, vars)
  {
    hide WriteAll, Written, Order;
    if PathsApart(sets, vars) {
      forall a, b | Order(a, sets.Keys) && Order(b, sets.Keys)
        ensures Wrote(m, a, sets, vars) == Wrote(m, b, sets, vars)
      {
        ApartIsOrderFree(m, sets, vars, a, b);
      }
    } else {
      var p, q :| p in sets && q in sets && p != q && Written(sets[p], vars) && Written(sets[q], vars)
        && Comparable(Udm.Split(p), Udm.Split(q));
      NotOrderFree(m, p, q, sets, vars);
    }
  }

  lemma NotOrderFree(m: Fields, p: string, q: string, sets: map<string, seq<Part>>, vars: Vars)
    requires p in sets && q in sets && p != q && Written(sets[p], vars) && Written(sets[q], vars)
    requires Comparable(Udm.Split(p), Udm.Split(q))
    ensures !SetOrderFree(m, sets, vars)
  {
    hide WriteAll, Order, Written, Comparable, Udm.Split;
    var rest := SomeOrder(sets.Keys - {p, q});
    OrderDefined(rest, sets.Keys - {p, q});
    TwoLast(rest, q, p, sets.Keys);
    TwoLast(rest, p, q, sets.Keys);
    LastWriteDiffers(m, rest, p, q, sets, vars);
    assert Wrote(m, rest + [q] + [p], sets, vars) != Wrote(m, rest + [p] + [q], sets, vars);
  }

  lemma ProperPrefix<T>(a: seq<T>, b: seq<T>)
    ensures a <= b ==> a < b || a == b
  {
    if a <= b && |a| == |b| {
      assert b[..|a|] == b;
    }
  }

  lemma LastWriteDiffers(m: Fields, rest: seq<string>, p: string, q: string, sets: map<string, seq<Part>>, vars: Vars)
    requires p in sets && q in sets && p != q && Written(sets[p], vars) && Written(sets[q], vars)
    requires Comparable(Udm.Split(p), Udm.Split(q)) && forall i :: 0 <= i < |rest| ==> rest[i] in sets
    ensures WriteAll(m, rest + [q] + [p], sets, vars) != WriteAll(m, rest + [p] + [q], sets, vars)
  {
    ReadAfterLastWrite(m, rest + [q], p, q, sets, vars);
    ReadAfterLastWrite(m, rest + [p], q, q, sets, vars);
    DottedSplit(p);
    DottedSplit(q);
    ProperPrefix(Udm.Split(p), Udm.Split(q));
    ProperPrefix(Udm.Split(q), Udm.Split(p));
  }

  // ---------------------------------------------------------------- a whole parser

  predicate IsGrok(f: Step) { f.grok.Some? }
  predicate IsKv(f: Step) { f.grok.None? && f.kv.Some? }
  predicate IsJson(f: Step) { f.grok.None? && f.kv.None? && f.json.Some? }
  predicate IsRename(f: Step) { f.grok.None? && f.kv.None? && f.json.None? && f.rename != map[] }
  predicate IsSet(f: Step) { f.grok.None? && f.kv.None? && f.json.None? && f.rename == map[] && f.set_ != map[] }

  /** The variables a step may leave. */
  ghost predicate StepVars(f: Step, vars: Vars, vars': Vars) {
    if IsGrok(f) then vars' == vars + FirstMatch(f.grok.value.patterns, Source(vars, f.grok.value.source))
    else if IsKv(f) then vars' == vars + f.kv.value.extract(Source(vars, f.kv.value.source))
    else if IsJson(f) then FlattenRun(Document(f.json.value, vars), vars, vars')
    else if IsRename(f) then exists order :: Order(order, f.rename.Keys) && vars' == Renamed(vars, order, f.rename)
    else vars' == vars
  }

  /** The record a step may leave. */
  ghost predicate StepRecord(f: Step, vars: Vars, m: Fields, m': Fields) {
    if IsSet(f) && (f.on.Some? ==> f.on.value(vars))
    then exists order :: Order(order, f.set_.Keys) && m' == Wrote(m, order, f.set_, vars)
    else m' == m
  }

  /** The states a run of steps may end in. */
  ghost predicate StepsRun(fs: seq<Step>, vars: Vars, m: Fields, vars': Vars, m': Fields) {
    if fs == [] then vars' == vars && m' == m
    else
      var n := |fs| - 1;
      exists v: Vars, r: Fields :: StepsRun(fs[..n], vars, m, v, r) && StepVars(fs[n], v, vars') &&
          StepRecord(fs[n], v, r, m')
  }

  function WithLogType(p: Parser, m: Fields): Fields {
    if p.logType != "" then Udm.Set(m, "metadata.log_type", p.logType) else m
  }

  ghost predicate ApplyRun(p: Parser, vars: Vars, m: Fields, vars': Vars, m': Fields) {
    StepsRun(p.filters, vars, WithLogType(p, m), vars', m')
  }

  /** What one can check on the parser's text: no rename chain, and in each set step no path a
      prefix of another. */
  ghost predicate OrderSafe(p: Parser) {
    forall i :: 0 <= i < |p.filters| ==> StepSafe(p.filters[i])
  }

  ghost predicate StepSafe(f: Step) {
    && NoChain(f.rename)
    && forall s, t :: s in f.set_ && t in f.set_ && s != t ==> !Comparable(Udm.Split(s), Udm.Split(t))
  }

  /** In every document that a run of the steps comes to flatten, leaves of one name have one
      text. */
  ghost predicate DocumentsSafe(fs: seq<Step>, vars: Vars, m: Fields) {
    forall i, v, r :: 0 <= i < |fs| && IsJson(fs[i]) && StepsRun(fs[..i], vars, m, v, r) ==>
      NamesAgree(Document(fs[i].json.value, v))
  }

  lemma DocumentsSafeInit(fs: seq<Step>, vars: Vars, m: Fields)
    requires fs != [] && DocumentsSafe(fs, vars, m)
    ensures DocumentsSafe(fs[..|fs| - 1], vars, m)
  {
    hide StepsRun, NamesAgree, Document;
    var init := fs[..|fs| - 1];
    forall i, v, r | 0 <= i < |init| && IsJson(init[i]) && StepsRun(init[..i], vars, m, v, r)
      ensures NamesAgree(Document(init[i].json.value, v))
    {
      assert init[..i] == fs[..i];
    }
  }

  lemma StepDeterministic(f: Step, vars: Vars, m: Fields, v1: Vars, m1: Fields, v2: Vars, m2: Fields)
    requires StepSafe(f) && (IsJson(f) ==> NamesAgree(Document(f.json.value, vars)))
    requires StepVars(f, vars, v1) && StepRecord(f, vars, m, m1)
    requires StepVars(f, vars, v2) && StepRecord(f, vars, m, m2)
    ensures v1 == v2 && m1 == m2
  {
    hide FlattenRun, NamesAgree, Document;
    if IsJson(f) {
      AgreedRuns(Document(f.json.value, vars), vars, v1, v2);
    } else if IsRename(f) {
      var a :| Order(a, f.rename.Keys) && v1 == Renamed(vars, a, f.rename);
      var b :| Order(b, f.rename.Keys) && v2 == Renamed(vars, b, f.rename);
      NoChainIsOrderFree(vars, a, b, f.rename);
    } else if IsSet(f) && (f.on.Some? ==> f.on.value(vars)) {
      var a :| Order(a, f.set_.Keys) && m1 == Wrote(m, a, f.set_, vars);
      var b :| Order(b, f.set_.Keys) && m2 == Wrote(m, b, f.set_, vars);
      ApartIsOrderFree(m, f.set_, vars, a, b);
    }
  }

  lemma {:induction false} StepsDeterministic(fs: seq<Step>, vars: Vars, m: Fields, v1: Vars, m1: Fields,
                                              v2: Vars, m2: Fields)
    requires (forall i :: 0 <= i < |fs| ==> StepSafe(fs[i])) && DocumentsSafe(fs, vars, m)
    requires StepsRun(fs, vars, m, v1, m1) && StepsRun(fs, vars, m, v2, m2)
    ensures v1 == v2 && m1 == m2
  {
    hide StepSafe, StepVars, StepRecord, NamesAgree, Document;
    if fs != [] {
      DocumentsSafeInit(fs, vars, m);
      var n := |fs| - 1;
      var u1: Vars, r1: Fields :| StepsRun(fs[..n], vars, m, u1, r1) && StepVars(fs[n], u1, v1) &&
          StepRecord(fs[n], u1, r1, m1);
      var u2: Vars, r2: Fields :| StepsRun(fs[..n], vars, m, u2, r2) && StepVars(fs[n], u2, v2) &&
          StepRecord(fs[n], u2, r2, m2);
      StepsDeterministic(fs[..n], vars, m, u1, r1, u2, r2);
      StepDeterministic(fs[n], u1, r1, v1, m1, v2, m2);
    }
  }

  /** Every run of an order-safe parser ends in the same variables and the same record, unless
      it flattens a document in which names collide. */
  lemma {:induction false} ParserDeterministic(p: Parser, vars: Vars, m: Fields, v1: Vars, m1: Fields, v2: Vars,
                                               m2: Fields)
    requires OrderSafe(p) && DocumentsSafe(p.filters, vars, WithLogType(p, m))
    requires ApplyRun(p, vars, m, v1, m1) && ApplyRun(p, vars, m, v2, m2)
    ensures v1 == v2 && m1 == m2
  {
    StepsDeterministic(p.filters, vars, WithLogType(p, m), v1, m1, v2, m2);
  }

  /** A parser that flattens every message into the given document and sets x from `a.b`. */
  function Flattening(doc: Fields): Parser {
    Parser("p", "", (_, _) => true,
           [Step(None, None, Some(JsonStep("", _ => Some(doc))), map[], map[], None),
            Step(None, None, None, map[], map["x" := [Ref("a.b")]], None)])
  }

  /** Without the condition on documents the record does depend on map order: either value of a
      dotted key and a nested one may end up in it. */
  lemma {:induction false} CollisionReachesTheRecord()
    ensures var p := Flattening(map["a" := Record(map["b" := Text("1")]), "a.b" := Text("2")]);
      && OrderSafe(p)
      && forall s :: s == "1" || s == "2" ==>
           ApplyRun(p, map["message" := "{"], map[], map["message" := "{", "a.b" := s], map["x" := Text(s)])
  {
    var doc := map["a" := Record(map["b" := Text("1")]), "a.b" := Text("2")];
    var vars := map["message" := "{"];
    hide FlattenRun, StepsRun, StepSafe;
    DottedKeyCollides(vars);
    FlatteningIsSafe(doc);
    FlattensAndSets(doc, vars, "1");
    FlattensAndSets(doc, vars, "2");
  }

  lemma FlatteningIsSafe(doc: Fields)
    ensures OrderSafe(Flattening(doc))
  {
    assert forall t :: t in Flattening(doc).filters[1].set_ ==> t == "x";
  }

  lemma FlattensAndSets(doc: Fields, vars: Vars, s: string)
    requires vars == map["message" := "{"] && s != "" && FlattenRun(doc, vars, vars["a.b" := s])
    ensures StepsRun(Flattening(doc).filters, vars, map[], vars["a.b" := s], map["x" := Text(s)])
  {
    var fs := Flattening(doc).filters;
    assert Trim("{") == "{" by {
      assert !IsSpace('{') && "{"[0] == '{';
    }
    assert Document(fs[0].json.value, vars) == doc;
    hide FlattenRun, Document, StepsRun;
    assert StepVars(fs[0], vars, vars["a.b" := s]) && StepRecord(fs[0], vars, map[], map[]);
    SetsX(fs[1], vars["a.b" := s], s);
    hide StepVars, StepRecord;
    NoSteps(vars, map[]);
    StepsSnoc([], fs[0], vars, map[], vars, map[], vars["a.b" := s], map[]);
    StepsSnoc([fs[0]], fs[1], vars, map[], vars["a.b" := s], map[], vars["a.b" := s], map["x" := Text(s)]);
    assert [] + [fs[0]] == [fs[0]] && [fs[0]] + [fs[1]] == fs;
  }

  lemma SetsX(f: Step, vars: Vars, s: string)
    requires f == Step(None, None, None, map[], map["x" := [Ref("a.b")]], None)
    requires "a.b" in vars && vars["a.b"] == s && s != ""
    ensures StepVars(f, vars, vars) && StepRecord(f, vars, map[], map["x" := Text(s)])
  {
    var tmpl := [Ref("a.b")];
    assert f.set_["x"] == tmpl && IsSet(f);
    assert Filled(tmpl, vars) == s by {
      assert tmpl[..0] == [];
    }
    var order := ["x"];
    assert Order(order, f.set_.Keys);
    assert order[..0] == [];
    assert Udm.Split("x") == ["x"] by {
      SplitWord("x", "");
    }
    assert WriteAll(map[], order, f.set_, vars) == WriteOne(WriteAll(map[], [], f.set_, vars), "x", tmpl, vars);
    assert Wrote(map[], order, f.set_, vars) == map["x" := Text(s)];
  }

  // ---------------------------------------------------------------- the steps, in place

  /** The extraction variables and the record being filled. */
  class Normalization {
    var vars: Vars
    const udm: MapNode

    constructor (vars: Vars, udm: MapNode)
      ensures this.vars == vars && this.udm == udm
    {
      this.vars := vars;
      this.udm := udm;
    }

    ghost predicate Valid()
      reads this, udm, udm.Repr
    {
      udm.Valid() && this !in udm.Repr
    }

    method Merge(got: Vars)
      modifies this
      ensures vars == old(vars) + got
    {
      var left := got.Keys;
      while left != {}
        invariant left <= got.Keys
        invariant vars == old(vars) + map k | k in got && k !in left :: got[k]
        decreases left
      {
        var k :| k in left;
        vars := vars[k := got[k]];
        left := left - {k};
      }
    }

    method Rename(renames: map<string, string>)
      modifies this
      ensures exists order :: Order(order, renames.Keys) && vars == Renamed(old(vars), order, renames)
    {
      var left := renames.Keys;
      ghost var order: seq<string> := [];
      while left != {}
        invariant left <= renames.Keys && Order(order, renames.Keys - left)
        invariant forall i :: 0 <= i < |order| ==> order[i] in renames
        invariant vars == RenameAll(old(vars), order, renames)
        decreases left
      {
        var dst :| dst in left;
        var src := renames[dst];
        assert (order + [dst])[..|order|] == order;
        if src in vars {
          vars := vars[dst := vars[src]];
        }
        order := order + [dst];
        left := left - {dst};
      }
      assert vars == Renamed(old(vars), order, renames);
    }

    method WriteSets(sets: map<string, seq<Part>>)
      requires Valid()
      modifies udm.Repr
      ensures Valid() && fresh(udm.Repr - old(udm.Repr))
      ensures exists order :: Order(order, sets.Keys) && udm.View() == Wrote(old(udm.View()), order, sets, vars)
    {
      var left := sets.Keys;
      ghost var order: seq<string> := [];
      while left != {}
        invariant Valid() && fresh(udm.Repr - old(udm.Repr)) && vars == old(vars)
        invariant left <= sets.Keys && Order(order, sets.Keys - left)
        invariant forall i :: 0 <= i < |order| ==> order[i] in sets
        invariant udm.View() == WriteAll(old(udm.View()), order, sets, vars)
        decreases left
      {
        var path :| path in left;
        assert (order + [path])[..|order|] == order;
        var val, resolved := Interpolate(sets[path], vars);
        if resolved && val != "" {
          udm.Set(path, val);
        }
        order := order + [path];
        left := left - {path};
      }
      assert udm.View() == Wrote(old(udm.View()), order, sets, vars);
    }

    method Grok(g: GrokStep)
      modifies this
      ensures vars == old(vars) + FirstMatch(g.patterns, Source(old(vars), g.source))
    {
      var src := Source(vars, g.source);
      for i := 0 to |g.patterns|
        invariant vars == old(vars)
        invariant FirstMatch(g.patterns, src) == FirstMatch(g.patterns[i..], src)
      {
        var got := g.patterns[i](src);
        if got.Some? {
          Merge(got.value);
          return;
        }
        assert g.patterns[i..][1..] == g.patterns[i + 1..];
      }
    }

    method FlattenJson(j: JsonStep)
      modifies this
      ensures FlattenRun(Document(j, old(vars)), old(vars), vars)
    {
      var s := Trim(Source(vars, j.source));
      var doc: Fields := map[];
      if s != "" && s[0] == '{' {
        var decoded := j.decode(s);
        if decoded.Some? {
          doc := decoded.value;
        }
      }
      Flatten("", doc);
    }

    /** The nested walk: each map is visited in some order and its leaves are written. */
    method Flatten(prefix: string, m: Fields)
      modifies this
      ensures exists ws :: Writes(Record(m), prefix, ws) && vars == WriteEach(old(vars), ws)
      decreases Record(m)
    {
      hide Visits, Writes;
      var left := m.Keys;
      ghost var order: seq<string> := [];
      ghost var ws: seq<Write> := [];
      NoVisits(m, prefix);
      while left != {}
        invariant left <= m.Keys && Order(order, m.Keys - left)
        invariant Visits(m, prefix, order, ws) && vars == WriteEach(old(vars), ws)
        decreases left
      {
        var k :| k in left;
        var key := if prefix != "" then prefix + "." + k else k;
        ghost var here;
        ghost var before := vars;
        if m[k].Record? {
          assert Record(m[k].m) == m[k];
          Flatten(key, m[k].m);
          here :| Writes(m[k], key, here) && vars == WriteEach(before, here);
        } else {
          vars := vars[key := m[k].s];
          here := [Write(key, m[k].s)];
          TextWrites(m[k], key, before);
        }
        WriteEachConcat(old(vars), ws, here);
        VisitsSnoc(m, prefix, order, ws, k, here);
        order, ws := order + [k], ws + here;
        left := left - {k};
      }
      VisitsAll(m, prefix, order, ws);
    }

    method ApplyStep(f: Step)
      requires Valid()
      modifies this, udm.Repr
      ensures Valid() && fresh(udm.Repr - old(udm.Repr))
      ensures StepVars(f, old(vars), vars) && StepRecord(f, old(vars), old(udm.View()), udm.View())
    {
      hide StepVars, StepRecord, FirstMatch, Source, Document, FlattenRun, Renamed, Order, MapNode.View, MapNode.Valid;
      ghost var v, m := vars, udm.View();
      if f.grok.Some? {
        Grok(f.grok.value);
        ExtractCase(f, v, vars, m);
      } else if f.kv.Some? {
        Merge(f.kv.value.extract(Source(vars, f.kv.value.source)));
        ExtractCase(f, v, vars, m);
      } else if f.json.Some? {
        FlattenJson(f.json.value);
        JsonCase(f, v, vars, m);
      } else if |f.rename| > 0 {
        Rename(f.rename);
        RenameCase(f, v, vars, m);
      } else {
        IdleCase(f, v, m);
        if |f.set_| > 0 {
          WriteStep(f);
        }
      }
    }

    method WriteStep(f: Step)
      requires Valid() && IsSet(f)
      modifies udm.Repr
      ensures Valid() && fresh(udm.Repr - old(udm.Repr))
      ensures StepRecord(f, vars, old(udm.View()), udm.View())
    {
      if f.on.Some? && !f.on.value(vars) {
        return;
      }
      hide Wrote, Order, MapNode.View, MapNode.Valid;
      WriteSets(f.set_);
    }

    method Apply(p: Parser)
      requires Valid()
      modifies this, udm.Repr
      ensures Valid() && fresh(udm.Repr - old(udm.Repr))
      ensures ApplyRun(p, old(vars), old(udm.View()), vars, udm.View())
    {
      hide StepsRun, StepVars, StepRecord, MapNode.View, MapNode.Valid, Udm.Set;
      NoSteps(vars, WithLogType(p, udm.View()));
      if p.logType != "" {
        udm.Set("metadata.log_type", p.logType);
      }
      ghost var m := udm.View();
      for i := 0 to |p.filters|
        invariant Valid() && fresh(udm.Repr - old(udm.Repr))
        invariant StepsRun(p.filters[..i], old(vars), m, vars, udm.View())
      {
        ghost var v, r := vars, udm.View();
        ApplyStep(p.filters[i]);
        StepsSnoc(p.filters[..i], p.filters[i], old(vars), m, v, r, vars, udm.View());
        assert p.filters[..i] + [p.filters[i]] == p.filters[..i + 1];
      }
      assert p.filters[..|p.filters|] == p.filters;
    }
  }

  lemma NoVisits(m: Fields, prefix: string)
    ensures Visits(m, prefix, [], [])
  {
  }

  lemma TextWrites(v: Value, name: string, vars: Vars)
    requires v.Text?
    ensures Writes(v, name, [Write(name, v.s)]) && WriteEach(vars, [Write(name, v.s)]) == vars[name := v.s]
  {
    assert [Write(name, v.s)][..0] == [];
  }

  lemma VisitsAll(m: Fields, prefix: string, order: seq<string>, ws: seq<Write>)
    requires Order(order, m.Keys) && Visits(m, prefix, order, ws)
    ensures Writes(Record(m), prefix, ws)
  {
  }

  lemma JsonCase(f: Step, vars: Vars, vars': Vars, m: Fields)
    requires IsJson(f) && FlattenRun(Document(f.json.value, vars), vars, vars')
    ensures StepVars(f, vars, vars') && StepRecord(f, vars, m, m)
  {
    hide FlattenRun, Document;
  }

  lemma ExtractCase(f: Step, vars: Vars, vars': Vars, m: Fields)
    requires IsGrok(f) || IsKv(f)
    requires IsGrok(f) ==> vars' == vars + FirstMatch(f.grok.value.patterns, Source(vars, f.grok.value.source))
    requires IsKv(f) ==> vars' == vars + f.kv.value.extract(Source(vars, f.kv.value.source))
    ensures StepVars(f, vars, vars') && StepRecord(f, vars, m, m)
  {
  }

  lemma RenameCase(f: Step, vars: Vars, vars': Vars, m: Fields)
    requires IsRename(f) && exists order :: Order(order, f.rename.Keys) && vars' == Renamed(vars, order, f.rename)
    ensures StepVars(f, vars, vars') && StepRecord(f, vars, m, m)
  {
  }

  lemma IdleCase(f: Step, vars: Vars, m: Fields)
    requires f.grok.None? && f.kv.None? && f.json.None? && f.rename == map[]
    ensures StepVars(f, vars, vars) && (f.set_ == map[] ==> StepRecord(f, vars, m, m))
  {
  }

  lemma NoSteps(vars: Vars, m: Fields)
    ensures StepsRun([], vars, m, vars, m)
  {
  }

  lemma StepsSnoc(fs: seq<Step>, f: Step, vars: Vars, m: Fields, v: Vars, r: Fields, vars': Vars, m': Fields)
    requires StepsRun(fs, vars, m, v, r) && StepVars(f, v, vars') && StepRecord(f, v, r, m')
    ensures StepsRun(fs + [f], vars, m, vars', m')
  {
    assert (fs + [f])[..|fs|] == fs;
  }

  // ---------------------------------------------------------------- the whole pipeline

  function Seed(ev: Event): Vars {
    map["message" := ev.message, "raw" := ev.raw, "program" := ev.program, "host" := ev.host, "loghost" := ev.host]
    + ev.fields
  }

  function Opening(ev: Event): Fields {
    Udm.Set(Udm.Set(map[], "metadata.event_timestamp", ev.stamp), "metadata.product_log_id", ev.program)
  }

  predicate Has(m: Fields, path: string) {
    var v := Udm.Get(m, path);
    v.Some? && v.value != Text("")
  }

  function SetUnless(m: Fields, skip: bool, path: string, s: string): Fields {
    if skip then m else Udm.Set(m, path, s)
  }

  /** The fields every normalised event carries. */
  function Baseline(m: Fields, ev: Event): Fields {
    var a := SetUnless(m, ev.host == "" || Has(m, "principal.hostname"), "principal.hostname", ev.host);
    var b := SetUnless(a, ev.agentName == "", "observer.hostname", ev.agentName);
    var c := SetUnless(b, ev.agentId == "", "observer.asset_id", ev.agentId);
    var d := SetUnless(c, Has(c, "metadata.event_type"), "metadata.event_type", "GENERIC_EVENT");
    Udm.Set(d, "metadata.description", ev.message)
  }

  /** The states the parsers may leave, and the names of those that ran. */
  ghost predicate ParsersRun(ps: seq<Parser>, ev: Event, vars': Vars, m': Fields, matched: seq<string>) {
    if ps == [] then vars' == Seed(ev) && m' == Opening(ev) && matched == []
    else
      var n := |ps| - 1;
      exists v: Vars, r: Fields, names: seq<string> ::
        && ParsersRun(ps[..n], ev, v, r, names)
        && ParserRun(ps[n], ev, v, r, names, vars', m', matched)
  }

  ghost predicate ParserRun(p: Parser, ev: Event, v: Vars, r: Fields, names: seq<string>,
                            vars': Vars, m': Fields, matched: seq<string>)
  {
    if p.check(ev, v) then ApplyRun(p, v, r, vars', m') && matched == names + [p.name]
    else vars' == v && m' == r && matched == names
  }

  /** In every document that a run of the pipeline comes to flatten, leaves of one name have one
      text. */
  ghost predicate AllDocumentsSafe(ps: seq<Parser>, ev: Event) {
    forall i, v, r, names :: 0 <= i < |ps| && ParsersRun(ps[..i], ev, v, r, names) && ps[i].check(ev, v) ==>
      DocumentsSafe(ps[i].filters, v, WithLogType(ps[i], r))
  }

  lemma AllDocumentsSafeInit(ps: seq<Parser>, ev: Event)
    requires ps != [] && AllDocumentsSafe(ps, ev)
    ensures AllDocumentsSafe(ps[..|ps| - 1], ev)
  {
    hide ParsersRun, DocumentsSafe;
    var init := ps[..|ps| - 1];
    forall i, v, r, names | 0 <= i < |init| && ParsersRun(init[..i], ev, v, r, names) && init[i].check(ev, v)
      ensures DocumentsSafe(init[i].filters, v, WithLogType(init[i], r))
    {
      assert init[..i] == ps[..i];
    }
  }

  /** The whole pipeline is deterministic under the same conditions, matched names included. */
  lemma {:induction false} ParsersDeterministic(ps: seq<Parser>, ev: Event, v1: Vars, m1: Fields, names1: seq<string>,
                                                v2: Vars, m2: Fields, names2: seq<string>)
    requires (forall i :: 0 <= i < |ps| ==> OrderSafe(ps[i])) && AllDocumentsSafe(ps, ev)
    requires ParsersRun(ps, ev, v1, m1, names1) && ParsersRun(ps, ev, v2, m2, names2)
    ensures v1 == v2 && m1 == m2 && names1 == names2
  {
    hide OrderSafe, ApplyRun, DocumentsSafe;
    if ps != [] {
      AllDocumentsSafeInit(ps, ev);
      var n := |ps| - 1;
      var u1: Vars, r1: Fields, k1: seq<string> :|
        ParsersRun(ps[..n], ev, u1, r1, k1) && ParserRun(ps[n], ev, u1, r1, k1, v1, m1, names1);
      var u2: Vars, r2: Fields, k2: seq<string> :|
        ParsersRun(ps[..n], ev, u2, r2, k2) && ParserRun(ps[n], ev, u2, r2, k2, v2, m2, names2);
      ParsersDeterministic(ps[..n], ev, u1, r1, k1, u2, r2, k2);
      if ps[n].check(ev, u1) {
        ParserDeterministic(ps[n], u1, r1, v1, m1, v2, m2);
      }
    }
  }

  lemma NoParsers(ev: Event)
    ensures ParsersRun([], ev, Seed(ev), Opening(ev), [])
  {
  }

  lemma ParsersSnoc(ps: seq<Parser>, p: Parser, ev: Event, v: Vars, r: Fields, names: seq<string>,
                    vars': Vars, m': Fields, matched: seq<string>)
    requires ParsersRun(ps, ev, v, r, names) && ParserRun(p, ev, v, r, names, vars', m', matched)
    ensures ParsersRun(ps + [p], ev, vars', m', matched)
  {
    assert (ps + [p])[..|ps|] == ps;
  }

  const FILLED := 5

  /** The paths the baseline writes. */
  function BaselinePath(k: nat): seq<string> {
    match k
    case 0 => ["principal", "hostname"]
    case 1 => ["observer", "hostname"]
    case 2 => ["observer", "asset_id"]
    case 3 => ["metadata", "event_type"]
    case _ => ["metadata", "description"]
  }

  /** The value the baseline writes at its k-th path, or "" if it leaves that path alone. */
  function Filler(m: Fields, ev: Event, k: nat): string {
    match k
    case 0 => if Has(m, "principal.hostname") then "" else ev.host
    case 1 => ev.agentName
    case 2 => ev.agentId
    case 3 => if Has(m, "metadata.event_type") then "" else "GENERIC_EVENT"
    case _ => ev.message
  }

  /** q is the k-th baseline path, or k is none of them and q lies beside them all. */
  predicate Beside(q: seq<string>, k: nat) {
    q != [] &&
    if k < FILLED then q == BaselinePath(k) else forall j: nat :: j < FILLED ==> !Comparable(BaselinePath(j), q)
  }

  lemma BaselinePathsApart(j: nat, k: nat)
    requires j < FILLED && k < FILLED && j != k
    ensures BaselinePath(j) != BaselinePath(k) && !Comparable(BaselinePath(j), BaselinePath(k))
  {
    var p, q := BaselinePath(j), BaselinePath(k);
    assert p[0][0] != q[0][0] || p[1][0] != q[1][0];
  }

  /** Reading q after a write to the j-th baseline path. */
  lemma ReadBeside(m: Fields, skip: bool, path: string, s: string, q: seq<string>, k: nat, j: nat)
    requires Beside(q, k) && j < FILLED && Udm.Split(path) == BaselinePath(j)
    ensures GetAt(SetUnless(m, skip, path, s), q) == if !skip && s != "" && j == k then Some(Text(s)) else GetAt(m, q)
  {
    hide Udm.Split, GetAt, SetAt, BaselinePath;
    if k < FILLED && j != k {
      BaselinePathsApart(j, k);
    }
    GetAfterSet(m, Udm.Split(path), s, q);
  }

  /** Completing a record fills each baseline path that has something to be filled with, keeps
      the host name and the event type that a parser wrote, and changes nothing beside them. */
  lemma {:induction false} BaselineFills(m: Fields, ev: Event, q: seq<string>, k: nat)
    requires Beside(q, k)
    ensures GetAt(Baseline(m, ev), q)
         == if k < FILLED && Filler(m, ev, k) != "" then Some(Text(Filler(m, ev, k))) else GetAt(m, q)
  {
    BaselinePaths();
    hide Udm.Split, BaselinePath, Beside;
    FiveWrites(m, ev, "principal.hostname", "observer.hostname", "observer.asset_id", "metadata.event_type",
               "metadata.description", "GENERIC_EVENT", q, k);
    hide GetAt, Has, SetUnless;
  }

  lemma FiveWrites(m: Fields, ev: Event, host: string, agent: string, asset: string, kind: string, text: string,
                   generic: string, q: seq<string>, k: nat)
    requires Beside(q, k) && generic != ""
    requires Udm.Split(host) == BaselinePath(0) && Udm.Split(agent) == BaselinePath(1) &&
        Udm.Split(asset) == BaselinePath(2)
    requires Udm.Split(kind) == BaselinePath(3) && Udm.Split(text) == BaselinePath(4)
    ensures var a := SetUnless(m, ev.host == "" || Has(m, host), host, ev.host);
      var b := SetUnless(a, ev.agentName == "", agent, ev.agentName);
      var c := SetUnless(b, ev.agentId == "", asset, ev.agentId);
      var d := SetUnless(c, Has(c, kind), kind, generic);
      GetAt(Udm.Set(d, text, ev.message), q) == match k
        case 0 => if Has(m, host) || ev.host == "" then GetAt(m, q) else Some(Text(ev.host))
        case 1 => if ev.agentName == "" then GetAt(m, q) else Some(Text(ev.agentName))
        case 2 => if ev.agentId == "" then GetAt(m, q) else Some(Text(ev.agentId))
        case 3 => if Has(m, kind) then GetAt(m, q) else Some(Text(generic))
        case 4 => if ev.message == "" then GetAt(m, q) else Some(Text(ev.message))
        case _ => GetAt(m, q)
  {
    var skip := ev.host == "" || Has(m, host);
    var a := SetUnless(m, skip, host, ev.host);
    var b := SetUnless(a, ev.agentName == "", agent, ev.agentName);
    var c := SetUnless(b, ev.agentId == "", asset, ev.agentId);
    var d := SetUnless(c, Has(c, kind), kind, generic);
    assert Udm.Set(d, text, ev.message) == SetUnless(d, false, text, ev.message);
    TypeIsStill(m, skip, ev, host, agent, asset, kind);
    hide Udm.Split, GetAt, SetUnless, Has, Beside, BaselinePath, Udm.Set;
    ReadBeside(m, skip, host, ev.host, q, k, 0);
    ReadBeside(a, ev.agentName == "", agent, ev.agentName, q, k, 1);
    ReadBeside(b, ev.agentId == "", asset, ev.agentId, q, k, 2);
    ReadBeside(c, Has(c, kind), kind, generic, q, k, 3);
    ReadBeside(d, false, text, ev.message, q, k, 4);
  }

  /** The first three writes leave the event type as it was. */
  lemma TypeIsStill(m: Fields, skip: bool, ev: Event, host: string, agent: string, asset: string, kind: string)
    requires Udm.Split(host) == BaselinePath(0) && Udm.Split(agent) == BaselinePath(1) &&
        Udm.Split(asset) == BaselinePath(2)
    requires Udm.Split(kind) == BaselinePath(3)
    ensures var a := SetUnless(m, skip, host, ev.host);
      var b := SetUnless(a, ev.agentName == "", agent, ev.agentName);
      Has(SetUnless(b, ev.agentId == "", asset, ev.agentId), kind) <==> Has(m, kind)
  {
    var a := SetUnless(m, skip, host, ev.host);
    var b := SetUnless(a, ev.agentName == "", agent, ev.agentName);
    assert Beside(BaselinePath(3), 3);
    hide Udm.Split, GetAt, SetUnless, Beside, BaselinePath;
    ReadBeside(m, skip, host, ev.host, BaselinePath(3), 3, 0);
    ReadBeside(a, ev.agentName == "", agent, ev.agentName, BaselinePath(3), 3, 1);
    ReadBeside(b, ev.agentId == "", asset, ev.agentId, BaselinePath(3), 3, 2);
  }

  /** Every normalised event has a type, whatever the parsers wrote. */
  lemma {:induction false} BaselineHasType(m: Fields, ev: Event)
    ensures Has(Baseline(m, ev), "metadata.event_type")
  {
    BaselinePaths();
    assert Beside(BaselinePath(3), 3);
    hide Udm.Split, GetAt, Baseline, BaselinePath, Beside;
    BaselineFills(m, ev, BaselinePath(3), 3);
  }

  lemma BaselinePaths()
    ensures Udm.Split("principal.hostname") == BaselinePath(0)
    ensures Udm.Split("observer.hostname") == BaselinePath(1)
    ensures Udm.Split("observer.asset_id") == BaselinePath(2)
    ensures Udm.Split("metadata.event_type") == BaselinePath(3)
    ensures Udm.Split("metadata.description") == BaselinePath(4)
  {
    hide Udm.Split;
    SplitTwo("principal", "hostname");
    SplitTwo("observer", "hostname");
    SplitTwo("observer", "asset_id");
    SplitTwo("metadata", "event_type");
    SplitTwo("metadata", "description");
    assert "principal" + "." + "hostname" == "principal.hostname";
    assert "observer" + "." + "hostname" == "observer.hostname";
    assert "observer" + "." + "asset_id" == "observer.asset_id";
    assert "metadata" + "." + "event_type" == "metadata.event_type";
    assert "metadata" + "." + "description" == "metadata.description";
  }

  lemma SplitTwo(a: string, b: string)
    requires Udm.Plain(a) && Udm.Plain(b)
    ensures Udm.Split(a + "." + b) == [a, b]
  {
    SplitWord(a, b);
    SplitWord(b, "");
  }

  method HasAt(udm: MapNode, path: string) returns (r: bool)
    requires udm.Valid()
    ensures r == Has(udm.View(), path)
  {
    var v := udm.Get(path);
    r := v.Some? && v.value != Plain("");
  }

  method Normalize(parsers: seq<Parser>, ev: Event) returns (n: Normalization, matched: seq<string>)
    ensures n.Valid()
    ensures exists m :: ParsersRun(parsers, ev, n.vars, m, matched) && n.udm.View() == Baseline(m, ev)
    ensures Has(n.udm.View(), "metadata.event_type")
  {
    hide Udm.Set, MapNode.Valid, MapNode.View, ParsersRun, ApplyRun, Baseline, Has;
    NoParsers(ev);
    var udm := new MapNode();
    n := new Normalization(Seed(ev), udm);
    udm.Set("metadata.event_timestamp", ev.stamp);
    udm.Set("metadata.product_log_id", ev.program);
    matched := [];
    for i := 0 to |parsers|
      invariant n.udm == udm && n.Valid() && fresh(udm.Repr) && fresh(n)
      invariant ParsersRun(parsers[..i], ev, n.vars, udm.View(), matched)
    {
      ghost var v, r, names := n.vars, udm.View(), matched;
      var p := parsers[i];
      if p.check(ev, n.vars) {
        n.Apply(p);
        matched := matched + [p.name];
      }
      ParsersSnoc(parsers[..i], p, ev, v, r, names, n.vars, udm.View(), matched);
      assert parsers[..i] + [p] == parsers[..i + 1];
    }
    assert parsers[..|parsers|] == parsers;
    ghost var m := udm.View();
    Complete(udm, ev);
    BaselineHasType(m, ev);
  }

  method Complete(udm: MapNode, ev: Event)
    requires udm.Valid()
    modifies udm.Repr
    ensures udm.Valid() && fresh(udm.Repr - old(udm.Repr))
    ensures udm.View() == Baseline(old(udm.View()), ev)
  {
    hide Udm.Set, Udm.Get, Has, MapNode.Valid, MapNode.View;
    var has := HasAt(udm, "principal.hostname");
    if ev.host != "" && !has {
      udm.Set("principal.hostname", ev.host);
    }
    if ev.agentName != "" {
      udm.Set("observer.hostname", ev.agentName);
    }
    if ev.agentId != "" {
      udm.Set("observer.asset_id", ev.agentId);
    }
    has := HasAt(udm, "metadata.event_type");
    if !has {
      udm.Set("metadata.event_type", "GENERIC_EVENT");
    }
    udm.Set("metadata.description", ev.message);
  }
}
