/** What the steps of a parser do, read off the event, the variables and the record alone:
    `engine/parser.go`, lines 168-231 and 292-357.

    `Normalizer` says what a run may produce; here each kind of step, the seeding of the
    variables and the completion of the record are spelled out by what can be read afterwards. */
module NormalizerReads {
  import opened Wrappers
  import opened Texts
  import opened Sorting
  import opened Udm
  import opened JsonFields
  import opened Normalizer

  // ---------------------------------------------------------------- set steps

  /** Every reference names a variable that is there and is not empty. */
  predicate AllThere(tmpl: seq<Part>, vars: Vars) {
    forall i :: 0 <= i < |tmpl| && tmpl[i].Ref? ==> tmpl[i].name in vars && vars[tmpl[i].name] != ""
  }

  lemma WrittenIs(tmpl: seq<Part>, vars: Vars, pieces: seq<string>)
    requires Fills(tmpl, vars, pieces)
    ensures Written(tmpl, vars) <==> AllThere(tmpl, vars) && Concat(pieces) != ""
    ensures Filled(tmpl, vars) == Concat(pieces)
  {
    FilledIs(tmpl, vars, pieces);
  }

  /** No path of the step is a prefix of another. */
  predicate Apart(sets: map<string, seq<Part>>) {
    forall p, q :: p in sets && q in sets && p != q ==> !(Udm.Split(p) <= Udm.Split(q))
  }

  lemma {:induction false} WriteAllReads(m: Fields, order: seq<string>, sets: map<string, seq<Part>>, vars: Vars,
                                         path: string)
    requires Distinct(order) && (forall i :: 0 <= i < |order| ==> order[i] in sets) && Apart(sets) && path in sets
    ensures Udm.Get(WriteAll(m, order, sets, vars), path)
         == if path in order && Written(sets[path], vars)
            then Some(Text(Filled(sets[path], vars))) else Udm.Get(m, path)
  {
    hide Written, Filled, GetAt, Udm.Split;
    if order != [] {
      var n := |order| - 1;
      var last := order[n];
      assert order == order[..n] + [last];
      WriteAllReads(m, order[..n], sets, vars, path);
      var before := WriteAll(m, order[..n], sets, vars);
      OneWriteReads(before, last, sets, vars, path);
    }
  }

  lemma OneWriteReads(m: Fields, last: string, sets: map<string, seq<Part>>, vars: Vars, path: string)
    requires Apart(sets) && last in sets && path in sets
    ensures Udm.Get(WriteOne(m, last, sets[last], vars), path)
         == if path == last && Written(sets[last], vars) then Some(Text(Filled(sets[last], vars))) else Udm.Get(m, path)
  {
    if Written(sets[last], vars) {
      GetAfterSet(m, Udm.Split(last), Filled(sets[last], vars), Udm.Split(path));
    }
  }

  lemma {:induction false} WriteAllElsewhere(m: Fields, order: seq<string>, sets: map<string, seq<Part>>, vars: Vars,
                                             q: seq<string>)
    requires q != [] && forall i :: 0 <= i < |order| ==> order[i] in sets
    requires forall p :: p in sets ==> !(Udm.Split(p) <= q) && !(q <= Udm.Split(p))
    ensures GetAt(WriteAll(m, order, sets, vars), q) == GetAt(m, q)
  {
    if order != [] {
      hide Written, Filled;
      var n := |order| - 1;
      WriteAllElsewhere(m, order[..n], sets, vars, q);
      GetAfterSet(WriteAll(m, order[..n], sets, vars), Udm.Split(order[n]), Filled(sets[order[n]], vars), q);
    }
  }

  /** The step is the kind that sets paths: it holds nothing that comes first. */
  predicate SetsPaths(f: Step) {
    f.grok.None? && f.kv.None? && f.json.None? && f.rename == map[] && f.set_ != map[]
  }

  /** After a set step whose condition holds, each path reads its filled template if every
      reference in it has a value and the text is not empty, and what it read before otherwise. */
  lemma {:induction false} SetStepReads(f: Step, vars: Vars, m: Fields, m': Fields, path: string, pieces: seq<string>)
    requires StepRecord(f, vars, m, m') && SetsPaths(f) && Apart(f.set_) && path in f.set_
    requires f.on.Some? ==> f.on.value(vars)
    requires Fills(f.set_[path], vars, pieces)
    ensures Udm.Get(m', path) ==
      if (forall i :: 0 <= i < |f.set_[path]| && f.set_[path][i].Ref? ==>
            f.set_[path][i].name in vars && vars[f.set_[path][i].name] != "") && Concat(pieces) != ""
      then Some(Text(Concat(pieces))) else Udm.Get(m, path)
  {
    hide WriteAll, Written, Filled, Apart, GetAt, Udm.Get;
    var order :| Order(order, f.set_.Keys) && m' == Wrote(m, order, f.set_, vars);
    OrderDefined(order, f.set_.Keys);
    WriteAllReads(m, order, f.set_, vars, path);
    WrittenIs(f.set_[path], vars, pieces);
  }

  /** A template of literal text alone is written as it stands. */
  lemma LiteralIsWritten(f: Step, vars: Vars, m: Fields, m': Fields, path: string, text: string)
    requires StepRecord(f, vars, m, m') && SetsPaths(f) && Apart(f.set_) && (f.on.Some? ==> f.on.value(vars))
    requires path in f.set_ && f.set_[path] == [Lit(text)] && text != ""
    ensures Udm.Get(m', path) == Some(Text(text))
  {
    hide StepRecord, Apart, Udm.Get;
    ConcatJoins([], [text]);
    SetStepReads(f, vars, m, m', path, [text]);
  }

  /** Beside its paths a set step changes nothing; when its condition fails, nothing at all. */
  lemma {:induction false} SetStepKeeps(f: Step, vars: Vars, m: Fields, m': Fields, q: seq<string>)
    requires StepRecord(f, vars, m, m') && SetsPaths(f) && q != []
    ensures f.on.Some? && !f.on.value(vars) ==> m' == m
    ensures (forall p :: p in f.set_ ==> !(Udm.Split(p) <= q) && !(q <= Udm.Split(p))) ==> GetAt(m', q) == GetAt(m, q)
  {
    if (f.on.Some? ==> f.on.value(vars)) && forall p :: p in f.set_ ==> !(Udm.Split(p) <= q) && !(q <= Udm.Split(p)) {
      hide WriteAll, Udm.Split, GetAt;
      var order :| Order(order, f.set_.Keys) && m' == Wrote(m, order, f.set_, vars);
      OrderDefined(order, f.set_.Keys);
      WriteAllElsewhere(m, order, f.set_, vars, q);
    }
  }

  /** Only set steps change the record, and only the others the variables. */
  lemma StepKinds(f: Step, vars: Vars, m: Fields, vars': Vars, m': Fields)
    requires StepVars(f, vars, vars') && StepRecord(f, vars, m, m')
    ensures SetsPaths(f) ==> vars' == vars
    ensures !SetsPaths(f) ==> m' == m
    ensures f.grok.None? && f.kv.None? && f.json.None? && f.rename == map[] ==> vars' == vars
  {
  }

  // ---------------------------------------------------------------- steps that extract

  /** What a step reads: the variable it names, or the message; nothing if there is none. */
  ghost predicate Reads(vars: Vars, source: string, s: string) {
    var name := if source != "" then source else "message";
    s == if name in vars then vars[name] else ""
  }

  /** The variables with the extracted ones in place of those of the same name. */
  ghost predicate Extracted(vars: Vars, got: Vars, vars': Vars) {
    forall x :: (x in vars' <==> x in got || x in vars)
      && (x in got ==> vars'[x] == got[x]) && (x in vars && x !in got ==> vars'[x] == vars[x])
  }

  lemma {:induction false} FirstMatchIs(patterns: seq<string -> Option<Vars>>, s: string, i: nat)
    requires i <= |patterns| && forall j :: 0 <= j < i ==> patterns[j](s).None?
    ensures i == |patterns| ==> FirstMatch(patterns, s) == map[]
    ensures i < |patterns| && patterns[i](s).Some? ==> FirstMatch(patterns, s) == patterns[i](s).value
  {
    if i > 0 {
      FirstMatchIs(patterns[1..], s, i - 1);
    }
  }

  /** A grok step adds what the first pattern that matches captures, over what was there; if
      none matches nothing changes. */
  lemma {:induction false} GrokStepMeans(f: Step, vars: Vars, vars': Vars, s: string, i: nat)
    requires StepVars(f, vars, vars') && f.grok.Some? && Reads(vars, f.grok.value.source, s)
    requires i <= |f.grok.value.patterns| && forall j :: 0 <= j < i ==> f.grok.value.patterns[j](s).None?
    ensures i == |f.grok.value.patterns| ==> vars' == vars
    ensures i < |f.grok.value.patterns| && f.grok.value.patterns[i](s).Some? ==>
      Extracted(vars, f.grok.value.patterns[i](s).value, vars')
  {
    FirstMatchIs(f.grok.value.patterns, s, i);
  }

  /** A key-value step adds the pairs it finds, over what was there. */
  lemma KvStepMeans(f: Step, vars: Vars, vars': Vars, s: string)
    requires StepVars(f, vars, vars') && f.grok.None? && f.kv.Some? && Reads(vars, f.kv.value.source, s)
    ensures Extracted(vars, f.kv.value.extract(s), vars')
  {
  }

  lemma {:induction false} WriteEachReads(vars: Vars, ws: seq<Write>, x: string)
    ensures (forall w :: w in ws ==> w.name != x) ==> Lookup(WriteEach(vars, ws), x) == Lookup(vars, x)
    ensures (exists w :: w in ws && w.name == x) ==>
      exists w :: w in ws && w.name == x && Lookup(WriteEach(vars, ws), x) == Some(w.text)
  {
    if ws != [] {
      var n := |ws| - 1;
      assert ws == ws[..n] + [ws[n]];
      WriteEachReads(vars, ws[..n], x);
      assert ws[n] in ws;
    }
  }

  /** A JSON step adds the leaves of the object that its text holds, under their dotted names;
      of leaves with one name, one stays.  Any other text changes nothing. */
  lemma {:induction false} JsonStepMeans(f: Step, vars: Vars, vars': Vars, s: string, x: string)
    requires StepVars(f, vars, vars') && f.grok.None? && f.kv.None? && f.json.Some?
    requires Reads(vars, f.json.value.source, s)
    ensures Trim(s) == "" || Trim(s)[0] != '{' || f.json.value.decode(Trim(s)).None? ==> vars' == vars
    ensures Trim(s) != "" && Trim(s)[0] == '{' && f.json.value.decode(Trim(s)).Some? ==>
      var doc := f.json.value.decode(Trim(s)).value;
      if exists q :: IsLeaf(doc, q) && PathText("", q) == x
      then exists q :: IsLeaf(doc, q) && PathText("", q) == x && Lookup(vars', x) == Some(LeafAt(doc, q).value)
      else Lookup(vars', x) == Lookup(vars, x)
  {
    hide Trim, Writes, WriteEach, PathText;
    var doc := Document(f.json.value, vars);
    var ws :| Writes(Record(doc), "", ws) && vars' == WriteEach(vars, ws);
    WriteEachReads(vars, ws, x);
    forall w
      ensures w in ws <==> exists q :: WritesLeaf(doc, "", q, w)
    {
      DocumentWrites(doc, ws, w);
    }
    if doc == map[] {
      EmptyWritesNothing(ws, vars);
    }
    if q :| IsLeaf(doc, q) && PathText("", q) == x {
      assert WritesLeaf(doc, "", q, Write(x, LeafAt(doc, q).value));
    }
  }

  lemma EmptyWritesNothing(ws: seq<Write>, vars: Vars)
    requires Writes(Record(map[]), "", ws)
    ensures WriteEach(vars, ws) == vars
  {
    var order :| Order(order, {}) && Visits(map[], "", order, ws);
    OrderDefined(order, {});
  }

  /** A rename step without chains gives each name the value its source had before; names whose
      source is missing, and all others, keep theirs. */
  lemma {:induction false} RenameStepMeans(f: Step, vars: Vars, vars': Vars, x: string)
    requires StepVars(f, vars, vars') && f.grok.None? && f.kv.None? && f.json.None? && f.rename != map[]
    requires forall d, e :: d in f.rename && e in f.rename && d != e && f.rename[e] == d ==> f.rename[d] == d
    ensures x in f.rename && f.rename[x] in vars ==> x in vars' && vars'[x] == vars[f.rename[x]]
    ensures !(x in f.rename && f.rename[x] in vars) ==>
      (x in vars' <==> x in vars) && (x in vars ==> vars'[x] == vars[x])
  {
    var order :| Order(order, f.rename.Keys) && vars' == Renamed(vars, order, f.rename);
    OrderDefined(order, f.rename.Keys);
    RenameReadsOriginal(vars, order, f.rename, x);
    assert Lookup(vars', x)
        == if x in f.rename && f.rename[x] in vars then Some(vars[f.rename[x]]) else Lookup(vars, x);
  }

  // ---------------------------------------------------------------- the steps in order

  lemma LastStep(fs: seq<Step>, f: Step, vars: Vars, m: Fields, vars': Vars, m': Fields) returns (v: Vars, r: Fields)
    requires StepsRun(fs + [f], vars, m, vars', m')
    ensures StepsRun(fs, vars, m, v, r) && StepVars(f, v, vars') && StepRecord(f, v, r, m')
  {
    hide StepVars, StepRecord;
    assert (fs + [f])[..|fs|] == fs;
    v, r :| StepsRun(fs, vars, m, v, r) && StepVars(f, v, vars') && StepRecord(f, v, r, m');
  }

  /** The steps of a run follow one another: first those of `fs`, then those of `gs`. */
  lemma {:induction false} StepsSplit(fs: seq<Step>, gs: seq<Step>, vars: Vars, m: Fields, vars': Vars, m': Fields)
    returns (v: Vars, r: Fields)
    requires StepsRun(fs + gs, vars, m, vars', m')
    ensures StepsRun(fs, vars, m, v, r) && StepsRun(gs, v, r, vars', m')
  {
    if gs == [] {
      assert fs + gs == fs;
      v, r := vars', m';
      NoSteps(v, r);
    } else {
      hide StepsRun, StepVars, StepRecord;
      var n := |gs| - 1;
      assert fs + gs == fs + gs[..n] + [gs[n]] && gs == gs[..n] + [gs[n]];
      var u, w := LastStep(fs + gs[..n], gs[n], vars, m, vars', m');
      v, r := StepsSplit(fs, gs[..n], vars, m, u, w);
      StepsSnoc(gs[..n], gs[n], v, r, u, w, vars', m');
    }
  }

  lemma {:induction false} StepsJoin(fs: seq<Step>, gs: seq<Step>, vars: Vars, m: Fields, v: Vars, r: Fields,
                                     vars': Vars, m': Fields)
    requires StepsRun(fs, vars, m, v, r) && StepsRun(gs, v, r, vars', m')
    ensures StepsRun(fs + gs, vars, m, vars', m')
  {
    if gs == [] {
      assert fs + gs == fs;
    } else {
      hide StepsRun, StepVars, StepRecord;
      var n := |gs| - 1;
      assert fs + gs == fs + gs[..n] + [gs[n]] && gs == gs[..n] + [gs[n]];
      var u, w := LastStep(gs[..n], gs[n], v, r, vars', m');
      StepsJoin(fs, gs[..n], vars, m, v, r, u, w);
      StepsSnoc(fs + gs[..n], gs[n], vars, m, u, w, vars', m');
    }
  }

  lemma OneStep(f: Step, vars: Vars, m: Fields, vars': Vars, m': Fields)
    ensures StepsRun([f], vars, m, vars', m') <==> StepVars(f, vars, vars') && StepRecord(f, vars, m, m')
  {
    hide StepVars, StepRecord;
    assert [f][..0] == [];
    if StepVars(f, vars, vars') && StepRecord(f, vars, m, m') {
      NoSteps(vars, m);
      StepsSnoc([], f, vars, m, vars, m, vars', m');
      assert [] + [f] == [f];
    }
  }

  /** The last parser runs on what the others leave if its check passes there, and is then named
      last; otherwise it changes nothing. */
  lemma LastParser(ps: seq<Parser>, p: Parser, ev: Event, vars': Vars, m': Fields, matched: seq<string>)
    returns (v: Vars, r: Fields, names: seq<string>)
    requires ParsersRun(ps + [p], ev, vars', m', matched)
    ensures ParsersRun(ps, ev, v, r, names)
    ensures p.check(ev, v) ==> ApplyRun(p, v, r, vars', m') && matched == names + [p.name]
    ensures !p.check(ev, v) ==> vars' == v && m' == r && matched == names
  {
    hide ApplyRun;
    var all := ps + [p];
    assert all[..|all| - 1] == ps && all[|all| - 1] == p;
    v, r, names :| ParsersRun(ps, ev, v, r, names) && ParserRun(p, ev, v, r, names, vars', m', matched);
  }

  // ---------------------------------------------------------------- before the first parser

  /** Before the first parser the variables are the parts of the event, its fields over them. */
  lemma SeedReads(ev: Event, v: Vars, m: Fields, names: seq<string>)
    requires ParsersRun([], ev, v, m, names)
    ensures names == []
    ensures forall x :: x in ev.fields ==> x in v && v[x] == ev.fields[x]
    ensures forall x :: x in v ==> x in ev.fields || x in {"message", "raw", "program", "host", "loghost"}
    ensures "message" !in ev.fields ==> "message" in v && v["message"] == ev.message
    ensures "raw" !in ev.fields ==> "raw" in v && v["raw"] == ev.raw
    ensures "program" !in ev.fields ==> "program" in v && v["program"] == ev.program
    ensures "host" !in ev.fields ==> "host" in v && v["host"] == ev.host
    ensures "loghost" !in ev.fields ==> "loghost" in v && v["loghost"] == ev.host
  {
  }

  /** Reading a path of at least two keys after one more text of two keys. */
  lemma ReadPair(m: Fields, a: string, b: string, s: string, q: seq<string>)
    requires Udm.Plain(a) && Udm.Plain(b) && |q| > 1 && (q[..2] == [a, b] ==> GetAt(m, q) == None)
    ensures GetAt(Udm.Set(m, a + "." + b, s), q) == if q == [a, b] && s != "" then Some(Text(s)) else GetAt(m, q)
  {
    SplitTwo(a, b);
    hide Udm.Split, GetAt;
    if s != "" {
      GetAfterSet(m, [a, b], s, q);
      if [a, b] <= q {
        assert q[..2] == [a, b];
      }
      ProperPrefix([a, b], q);
      ProperPrefix(q, [a, b]);
    }
  }

  /** Before the first parser the record holds the time and the program of the event. */
  lemma OpeningReads(ev: Event, v: Vars, m: Fields, names: seq<string>, q: seq<string>)
    requires ParsersRun([], ev, v, m, names) && |q| > 1
    ensures GetAt(m, q) ==
      if q == ["metadata", "event_timestamp"] && ev.stamp != "" then Some(Text(ev.stamp))
      else if q == ["metadata", "product_log_id"] && ev.program != "" then Some(Text(ev.program))
      else None
  {
    hide GetAt, Udm.Set;
    assert m == Opening(ev);
    hide ParsersRun;
    OpeningTexts();
    OpeningIs(ev, "metadata", "event_timestamp", "product_log_id", "metadata.event_timestamp",
              "metadata.product_log_id", q);
  }

  lemma OpeningTexts()
    ensures Udm.Plain("metadata") && Udm.Plain("event_timestamp") && Udm.Plain("product_log_id")
    ensures "event_timestamp" != "product_log_id"
    ensures "metadata" + "." + "event_timestamp" == "metadata.event_timestamp"
    ensures "metadata" + "." + "product_log_id" == "metadata.product_log_id"
  {
    assert "event_timestamp"[0] != "product_log_id"[0];
  }

  lemma OpeningIs(ev: Event, a: string, b: string, c: string, ab: string, ac: string, q: seq<string>)
    requires Udm.Plain(a) && Udm.Plain(b) && Udm.Plain(c) && b != c && |q| > 1
    requires a + "." + b == ab && a + "." + c == ac
    ensures GetAt(Udm.Set(Udm.Set(map[], ab, ev.stamp), ac, ev.program), q) ==
      if q == [a, b] && ev.stamp != "" then Some(Text(ev.stamp))
      else if q == [a, c] && ev.program != "" then Some(Text(ev.program)) else None
  {
    assert GetAt(map[], q) == None;
    hide GetAt, Udm.Set;
    ReadPair(map[], a, b, ev.stamp, q);
    if q[..2] == [a, c] {
      assert q[1] == c;
    }
    ReadPair(Udm.Set(map[], ab, ev.stamp), a, c, ev.program, q);
  }

  /** A parser's log type is written before its first step. */
  lemma LogTypeReads(p: Parser, vars: Vars, m: Fields, vars': Vars, m': Fields, q: seq<string>)
    requires p.filters == [] && ApplyRun(p, vars, m, vars', m') && q != []
    ensures vars' == vars
    ensures q == ["metadata", "log_type"] && p.logType != "" ==> GetAt(m', q) == Some(Text(p.logType))
    ensures p.logType == "" || !(q <= ["metadata", "log_type"] || ["metadata", "log_type"] <= q) ==>
      GetAt(m', q) == GetAt(m, q)
  {
    LogTypePath("metadata", "log_type");
    if p.logType != "" {
      GetAfterSet(m, ["metadata", "log_type"], p.logType, q);
    }
  }

  lemma LogTypePath(a: string, b: string)
    requires a == "metadata" && b == "log_type"
    ensures Udm.Split("metadata.log_type") == [a, b]
  {
    hide Udm.Split;
    SplitTwo(a, b);
    assert a + "." + b == "metadata.log_type";
  }

  // ---------------------------------------------------------------- after the last parser

  /** Nothing that counts as a value is there. */
  predicate Missing(m: Fields, path: string) {
    Udm.Get(m, path) == None || Udm.Get(m, path) == Some(Text(""))
  }

  /** The completed record, path by path: the host name and the event type only where no parser
      wrote one, and everything only where there is something to write. */
  lemma {:induction false} BaselineReads(m: Fields, ev: Event)
    ensures var done := Baseline(m, ev);
      && Udm.Get(done, "principal.hostname")
         == (if ev.host != "" && Missing(m, "principal.hostname") then Some(Text(ev.host))
             else Udm.Get(m, "principal.hostname"))
      && Udm.Get(done, "observer.hostname")
         == (if ev.agentName != "" then Some(Text(ev.agentName)) else Udm.Get(m, "observer.hostname"))
      && Udm.Get(done, "observer.asset_id")
         == (if ev.agentId != "" then Some(Text(ev.agentId)) else Udm.Get(m, "observer.asset_id"))
      && Udm.Get(done, "metadata.event_type")
         == (if Missing(m, "metadata.event_type") then Some(Text("GENERIC_EVENT"))
             else Udm.Get(m, "metadata.event_type"))
      && Udm.Get(done, "metadata.description")
         == (if ev.message != "" then Some(Text(ev.message)) else Udm.Get(m, "metadata.description"))
  {
    BaselinePaths();
    assert "GENERIC_EVENT" != "";
    hide Udm.Split, Udm.Set, Udm.Get, Missing, SetUnless, Has, BaselinePath;
    CompletedReads(m, ev, "principal.hostname", "observer.hostname", "observer.asset_id", "metadata.event_type",
                   "metadata.description", "GENERIC_EVENT");
  }

  lemma CompletedReads(m: Fields, ev: Event, host: string, agent: string, asset: string, kind: string, text: string,
                       generic: string)
    requires Udm.Split(host) == BaselinePath(0) && Udm.Split(agent) == BaselinePath(1)
    requires Udm.Split(asset) == BaselinePath(2) && Udm.Split(kind) == BaselinePath(3)
    requires Udm.Split(text) == BaselinePath(4) && generic != ""
    ensures var a := SetUnless(m, ev.host == "" || Has(m, host), host, ev.host);
      var b := SetUnless(a, ev.agentName == "", agent, ev.agentName);
      var c := SetUnless(b, ev.agentId == "", asset, ev.agentId);
      var d := SetUnless(c, Has(c, kind), kind, generic);
      var done := Udm.Set(d, text, ev.message);
      && Udm.Get(done, host) == (if ev.host != "" && Missing(m, host) then Some(Text(ev.host)) else Udm.Get(m, host))
      && Udm.Get(done, agent) == (if ev.agentName != "" then Some(Text(ev.agentName)) else Udm.Get(m, agent))
      && Udm.Get(done, asset) == (if ev.agentId != "" then Some(Text(ev.agentId)) else Udm.Get(m, asset))
      && Udm.Get(done, kind) == (if Missing(m, kind) then Some(Text(generic)) else Udm.Get(m, kind))
      && Udm.Get(done, text) == (if ev.message != "" then Some(Text(ev.message)) else Udm.Get(m, text))
  {
    forall k: nat | k < FILLED
      ensures Beside(BaselinePath(k), k)
    {
    }
    hide Udm.Split, GetAt, SetUnless, Beside, BaselinePath, Udm.Set;
    FiveWrites(m, ev, host, agent, asset, kind, text, generic, BaselinePath(0), 0);
    FiveWrites(m, ev, host, agent, asset, kind, text, generic, BaselinePath(1), 1);
    FiveWrites(m, ev, host, agent, asset, kind, text, generic, BaselinePath(2), 2);
    FiveWrites(m, ev, host, agent, asset, kind, text, generic, BaselinePath(3), 3);
    FiveWrites(m, ev, host, agent, asset, kind, text, generic, BaselinePath(4), 4);
  }
}
