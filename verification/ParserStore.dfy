/** The two-tier parser store: `engine/parserstore.go`, over the custom-parser table of
    `engine/clickhouse.go`, lines 225-299.

    The table keeps the newest row of every name; a row marked deleted is a tombstone.
    Operations are taken one at a time. */
module ParserStore {
  import opened Wrappers
  import opened Sorting
  import opened Texts
  import opened ParserDocs
  import IndentedDocs

  datatype Row = Row(name: string, yaml: string, deleted: bool)

  datatype Info = Info(name: string, logType: string, source: string, yaml: string)

  datatype Error = Invalid | NotOne | NoName | NotPersisted | Builtin | NotFound

  // ---------------------------------------------------------------- the table

  /** The live rows: the last row written for a name decides. */
  function Live(log: seq<Row>): map<string, string> {
    if log == [] then map[]
    else
      var before, row := Live(log[..|log| - 1]), log[|log| - 1];
      if row.deleted then before - {row.name} else before[row.name := row.yaml]
  }

  lemma LiveSnoc(log: seq<Row>, row: Row)
    ensures Live(log + [row]) == if row.deleted then Live(log) - {row.name} else Live(log)[row.name := row.yaml]
  {
    assert (log + [row])[..|log|] == log;
  }

  /** Row i is the last one of its name, and live. */
  ghost predicate LastLive(log: seq<Row>, i: nat, name: string, yaml: string) {
    i < |log| && log[i] == Row(name, yaml, false) && forall j :: i < j < |log| ==> log[j].name != name
  }

  /** Independently: a name is live exactly if its last row is not a tombstone, and then with
      that row's text. */
  lemma {:induction false} LiveIsLastRow(log: seq<Row>, name: string, yaml: string)
    ensures (name in Live(log) && Live(log)[name] == yaml) <==> exists i :: LastLive(log, i, name, yaml)
  {
    if log != [] {
      var n := |log| - 1;
      var init := log[..n];
      LiveIsLastRow(init, name, yaml);
      if exists i :: LastLive(log, i, name, yaml) {
        var i :| LastLive(log, i, name, yaml);
        if log[n].name != name {
          assert LastLive(init, i, name, yaml);
        }
      } else if log[n].name == name {
        assert !LastLive(log, n, name, yaml);
      } else if exists i :: LastLive(init, i, name, yaml) {
        var i :| LastLive(init, i, name, yaml);
        assert forall j :: 0 <= j < n ==> log[j] == init[j];
        assert LastLive(log, i, name, yaml);
      }
    }
  }

  // ---------------------------------------------------------------- the active list

  ghost function NameOrder(names: set<string>): (order: seq<string>)
    ensures Lists(order, names)
  {
    ListingExists(names);
    var order :| Lists(order, names);
    order
  }

  lemma {:induction false} ListingExists(names: set<string>)
    ensures exists order :: Lists(order, names)
  {
    var s := AnyListing(names);
    SortLists(s, names);
  }

  lemma {:induction false} AnyListing(names: set<string>) returns (s: seq<string>)
    ensures Distinct(s) && forall x :: x in s <==> x in names
    decreases names
  {
    if names == {} {
      s := [];
    } else {
      var x :| x in names;
      var rest := AnyListing(names - {x});
      s := [x] + rest;
    }
  }

  function Named(order: seq<string>, custom: map<string, Parser>): (s: seq<Parser>)
    requires forall i :: 0 <= i < |order| ==> order[i] in custom
    ensures |s| == |order| && forall i :: 0 <= i < |s| ==> s[i] == custom[order[i]]
  {
    seq(|order|, i requires 0 <= i < |order| => custom[order[i]])
  }

  /** The base parsers whose name is not taken, in order. */
  function Uncovered(base: seq<Parser>, taken: set<string>): seq<Parser> {
    if base == [] then []
    else
      var before, p := Uncovered(base[..|base| - 1], taken), base[|base| - 1];
      if p.name in taken then before else before + [p]
  }

  /** Custom parsers first, in name order, then the base parsers they do not override. */
  ghost function Active(base: seq<Parser>, custom: map<string, Parser>): seq<Parser> {
    var order := NameOrder(custom.Keys);
    InKeys(order, custom.Keys);
    Named(order, custom) + Uncovered(base, custom.Keys)
  }

  /** The two tiers by position: first the custom parsers, `names` being their names in strict
      order, then the base parsers whose name is not custom, `rest` being their positions. */
  ghost predicate InTiers(base: seq<Parser>, custom: map<string, Parser>, list: seq<Parser>,
                          names: seq<string>, rest: seq<nat>)
  {
    && |names| == |custom| && |list| == |custom| + |rest|
    && (forall i :: 0 <= i < |names| ==> names[i] in custom && list[i] == custom[names[i]])
    && (forall i, j :: 0 <= i < j < |names| ==> Precedes(names[i], names[j]))
    && (forall n :: n in custom ==> n in names)
    && (forall i :: 0 <= i < |rest| ==>
          rest[i] < |base| && base[rest[i]].name !in custom && list[|custom| + i] == base[rest[i]])
    && (forall i, j :: 0 <= i < j < |rest| ==> rest[i] < rest[j])
    && (forall k: nat :: k < |base| && base[k].name !in custom ==> k in rest)
  }

  lemma {:induction false} UncoveredPositions(base: seq<Parser>, taken: set<string>) returns (rest: seq<nat>)
    ensures |rest| == |Uncovered(base, taken)|
    ensures forall i :: 0 <= i < |rest| ==>
      rest[i] < |base| && base[rest[i]].name !in taken && Uncovered(base, taken)[i] == base[rest[i]]
    ensures forall i, j :: 0 <= i < j < |rest| ==> rest[i] < rest[j]
    ensures forall k: nat :: k < |base| && base[k].name !in taken ==> k in rest
  {
    rest := [];
    if base != [] {
      var n := |base| - 1;
      var before := UncoveredPositions(base[..n], taken);
      rest := before + if base[n].name in taken then [] else [n];
      forall k: nat | k < |base| && base[k].name !in taken
        ensures k in rest
      {
        if k < n {
          assert base[..n][k].name !in taken;
          assert k in before;
        }
      }
    }
  }

  lemma ListedInOrder(names: seq<string>, keys: set<string>)
    requires Lists(names, keys)
    ensures |names| == |keys| && forall n :: n in keys <==> n in names
    ensures forall i :: 0 <= i < |names| ==> names[i] in keys
    ensures forall i, j :: 0 <= i < j < |names| ==> Precedes(names[i], names[j])
  {
    CountDistinct(names, keys);
    InKeys(names, keys);
    forall i, j | 0 <= i < j < |names|
      ensures Precedes(names[i], names[j])
    {
      LexLeMeans(names[i], names[j]);
    }
  }

  /** The active list is in its two tiers. */
  lemma ActiveInTiers(base: seq<Parser>, custom: map<string, Parser>) returns (names: seq<string>, rest: seq<nat>)
    ensures InTiers(base, custom, Active(base, custom), names, rest)
  {
    hide Lists, Precedes, Uncovered, LexLe, NameOrder;
    names := NameOrder(custom.Keys);
    ListedInOrder(names, custom.Keys);
    rest := UncoveredPositions(base, custom.Keys);
    assert Active(base, custom) == Named(names, custom) + Uncovered(base, custom.Keys);
    assert |custom.Keys| == |custom|;
  }

  lemma InKeys(order: seq<string>, names: set<string>)
    requires Lists(order, names)
    ensures forall i :: 0 <= i < |order| ==> order[i] in names
  {
    assert forall i :: 0 <= i < |order| ==> order[i] in order;
  }

  // ---------------------------------------------------------------- the store

  class Store {
    const base: seq<Parser>
    const load: Loader
    var custom: map<string, Parser>
    var active: seq<Parser>
    var table: seq<Row>

    constructor (base: seq<Parser>, load: Loader, table: seq<Row>)
      ensures this.base == base && this.load == load && this.table == table
      ensures Valid() && custom == map[]
    {
      this.base := base;
      this.load := load;
      this.table := table;
      custom := map[];
      new;
      Rebuild();
    }

    ghost predicate Valid()
      reads this
    {
      active == Active(base, custom)
    }

    method Rebuild()
      modifies this`active
      ensures active == Active(base, custom)
      ensures exists names, rest :: InTiers(base, custom, active, names, rest)
    {
      var names := SortedKeys(custom.Keys);
      ListingIsUnique(names, NameOrder(custom.Keys), custom.Keys);
      InKeys(names, custom.Keys);
      var overridden: set<string> := {};
      var list: seq<Parser> := [];
      for i := 0 to |names|
        invariant list == Named(names[..i], custom)
        invariant overridden == set x | x in names[..i]
      {
        list := list + [custom[names[i]]];
        overridden := overridden + {names[i]};
      }
      assert names[..|names|] == names;
      assert overridden == custom.Keys;
      ghost var front := list;
      for i := 0 to |base|
        invariant list == front + Uncovered(base[..i], custom.Keys)
      {
        assert base[..i + 1][..i] == base[..i];
        if base[i].name !in overridden {
          list := list + [base[i]];
        }
      }
      assert base[..|base|] == base;
      active := list;
      ghost var order, rest := ActiveInTiers(base, custom);
    }

    method IsBuiltin(name: string) returns (r: bool)
      ensures r <==> exists i :: 0 <= i < |base| && base[i].name == name
    {
      for i := 0 to |base|
        invariant forall j :: 0 <= j < i ==> base[j].name != name
      {
        if base[i].name == name {
          return true;
        }
      }
      r := false;
    }

    method Get(name: string) returns (r: Option<Info>)
      requires Valid()
      ensures r.None? <==> forall i :: 0 <= i < |active| ==> active[i].name != name
      ensures r.Some? ==> exists i: nat ::
        i < |active| && active[i].name == name && (forall j :: 0 <= j < i ==> active[j].name != name) &&
        r.value.name == name && r.value.logType == active[i].logType && r.value.yaml == active[i].source &&
        r.value.source == if name in custom then "custom" else "builtin"
    {
      for i := 0 to |active|
        invariant forall j :: 0 <= j < i ==> active[j].name != name
      {
        if active[i].name == name {
          var p := active[i];
          return Some(Info(p.name, p.logType, if p.name in custom then "custom" else "builtin", p.source));
        }
      }
      r := None;
    }

    /** Saves, then changes memory; a failed write changes nothing. */
    method Upsert(yaml: string, writeOk: bool) returns (r: Result<Info, Error>)
      requires Valid()
      modifies this
      ensures Valid()
      ensures var step := UpsertStep(load, State(old(custom), old(table)), yaml, writeOk);
        State(custom, table) == step.0 && r == step.1
      ensures r.Failure? ==> custom == old(custom) && table == old(table)
      ensures Load(load, yaml) == None ==> r == Failure(Invalid)
      ensures Load(load, yaml).Some? && |Load(load, yaml).value| != 1 ==> r == Failure(NotOne)
      ensures Load(load, yaml).Some? && |Load(load, yaml).value| == 1 ==>
        var p := Load(load, yaml).value[0];
        if Trim(p.name) == "" then r == Failure(NoName)
        else if !writeOk then r == Failure(NotPersisted)
        else
          && r == Success(Info(p.name, p.logType, "custom", p.source))
          && custom == old(custom)[p.name := p] && table == old(table) + [Row(p.name, p.source, false)]
    {
      var list := ParseYaml(load, yaml);
      if list.None? {
        return Failure(Invalid);
      }
      if |list.value| != 1 {
        return Failure(NotOne);
      }
      var p := list.value[0];
      if Blank(p.name) {
        return Failure(NoName);
      }
      if !writeOk {
        return Failure(NotPersisted);
      }
      table := table + [Row(p.name, p.source, false)];
      custom := custom[p.name := p];
      Rebuild();
      r := Success(Info(p.name, p.logType, "custom", p.source));
    }

    method Delete(name: string, writeOk: bool) returns (r: Option<Error>)
      requires Valid()
      modifies this
      ensures Valid()
      ensures var step := DeleteStep(base, State(old(custom), old(table)), name, writeOk);
        State(custom, table) == step.0 && r == step.1
      ensures r.Some? ==> custom == old(custom) && table == old(table)
      ensures name !in old(custom) ==>
        r == Some(if exists i :: 0 <= i < |base| && base[i].name == name then Builtin else NotFound)
      ensures name in old(custom) && !writeOk ==> r == Some(NotPersisted)
      ensures name in old(custom) && writeOk ==>
        r == None && custom == old(custom) - {name} && table == old(table) + [Row(name, "", true)]
    {
      if name !in custom {
        var builtin := IsBuiltin(name);
        return Some(if builtin then Builtin else NotFound);
      }
      if !writeOk {
        return Some(NotPersisted);
      }
      table := table + [Row(name, "", true)];
      custom := custom - {name};
      Rebuild();
      r := None;
    }

    /** Loads the live rows; one that no longer loads as a single parser is skipped. */
    method LoadCustom(readOk: bool) returns (n: nat)
      requires Valid()
      modifies this
      ensures Valid() && table == old(table)
      ensures custom == if readOk then old(custom) + Reloaded(load, Live(table)) else old(custom)
      ensures n == if readOk then |Reloaded(load, Live(table))| else 0
    {
      if !readOk {
        return 0;
      }
      var rows := ReadTable();
      n := LoadRows(rows);
      LoadAllIsReloaded(load, old(custom), rows, Live(table));
      Rebuild();
    }

    /** The live rows of the table, in name order, as the query returns them. */
    method ReadTable() returns (rows: seq<Stored>)
      ensures ListsRows(rows, Live(table))
    {
      var live := Live(table);
      var names := SortedKeys(live.Keys);
      InKeys(names, live.Keys);
      rows := seq(|names|, i requires 0 <= i < |names| => Stored(names[i], live[names[i]]));
      forall n | n in live
        ensures exists i :: 0 <= i < |rows| && rows[i].name == n
      {
        var i :| 0 <= i < |names| && names[i] == n;
        assert rows[i].name == n;
      }
    }

    method LoadRows(rows: seq<Stored>) returns (n: nat)
      modifies this`custom
      ensures custom == LoadAll(load, old(custom), rows) && n == CountLoaded(load, rows)
    {
      n := 0;
      for i := 0 to |rows|
        invariant custom == LoadAll(load, old(custom), rows[..i]) && n == CountLoaded(load, rows[..i])
      {
        assert rows[..i + 1][..i] == rows[..i];
        var list := ParseYaml(load, rows[i].yaml);
        if list.None? || |list.value| != 1 {
          continue;
        }
        custom := custom[rows[i].name := list.value[0]];
        n := n + 1;
      }
      assert rows[..|rows|] == rows;
    }
  }

  datatype Stored = Stored(name: string, yaml: string)

  predicate Loads(load: Loader, yaml: string) {
    Load(load, yaml).Some? && |Load(load, yaml).value| == 1
  }

  function LoadAll(load: Loader, custom: map<string, Parser>, rows: seq<Stored>): map<string, Parser> {
    if rows == [] then custom
    else
      var before, row := LoadAll(load, custom, rows[..|rows| - 1]), rows[|rows| - 1];
      if Loads(load, row.yaml) then before[row.name := Load(load, row.yaml).value[0]] else before
  }

  function CountLoaded(load: Loader, rows: seq<Stored>): nat {
    if rows == [] then 0
    else CountLoaded(load, rows[..|rows| - 1]) + if Loads(load, rows[|rows| - 1].yaml) then 1 else 0
  }

  ghost predicate ListsRows(rows: seq<Stored>, live: map<string, string>) {
    && (forall i :: 0 <= i < |rows| ==> rows[i].name in live && rows[i].yaml == live[rows[i].name])
    && (forall i, j :: 0 <= i < j < |rows| ==> rows[i].name != rows[j].name && LexLe(rows[i].name, rows[j].name))
    && (forall n :: n in live ==> exists i :: 0 <= i < |rows| && rows[i].name == n)
  }

  /** Loading the rows one after another adds the parsers of those that load. */
  lemma {:induction false} LoadAllIsReloaded(load: Loader, custom: map<string, Parser>, rows: seq<Stored>,
                                             live: map<string, string>)
    requires ListsRows(rows, live)
    ensures LoadAll(load, custom, rows) == custom + Reloaded(load, live)
    ensures CountLoaded(load, rows) == |Reloaded(load, live)|
  {
    if rows == [] {
      assert live == map[];
      assert Reloaded(load, live) == map[];
    } else {
      hide Reloaded, ListsRows;
      var n := |rows| - 1;
      var row, rest := rows[n], live - {rows[n].name};
      ListsRowsInit(rows, live);
      LoadAllIsReloaded(load, custom, rows[..n], rest);
      ReloadedWithout(load, live, row.name);
      if Loads(load, row.yaml) {
        AddOne(custom, Reloaded(load, rest), row.name, Load(load, row.yaml).value[0]);
      }
    }
  }

  lemma ListsRowsInit(rows: seq<Stored>, live: map<string, string>)
    requires ListsRows(rows, live) && rows != []
    ensures var n := |rows| - 1;
      rows[n].name in live && rows[n].yaml == live[rows[n].name] && ListsRows(rows[..n], live - {rows[n].name})
  {
    var n := |rows| - 1;
    var rest := live - {rows[n].name};
    forall k | k in rest
      ensures exists i :: 0 <= i < n && rows[..n][i].name == k
    {
      var i :| 0 <= i < |rows| && rows[i].name == k;
      assert rows[..n][i].name == k;
    }
  }

  lemma AddOne(a: map<string, Parser>, b: map<string, Parser>, k: string, p: Parser)
    requires k !in b
    ensures (a + b)[k := p] == a + b[k := p] && |b[k := p]| == |b| + 1
  {
    assert b[k := p].Keys == b.Keys + {k};
  }

  lemma ReloadedWithout(load: Loader, live: map<string, string>, k: string)
    requires k in live
    ensures k !in Reloaded(load, live - {k})
    ensures Reloaded(load, live)
         == if Loads(load, live[k]) then Reloaded(load, live - {k})[k := Load(load, live[k]).value[0]]
            else Reloaded(load, live - {k})
  {
  }

  /** The keys of a map collected in any order, then sorted. */
  method SortedKeys(keys: set<string>) returns (names: seq<string>)
    ensures Lists(names, keys)
  {
    names := [];
    var left := keys;
    while left != {}
      invariant left <= keys && Distinct(names)
      invariant forall x :: x in names <==> x in keys - left
      decreases left
    {
      var n :| n in left;
      assert n !in names;
      names := names + [n];
      left := left - {n};
    }
    SortLists(names, keys);
    names := Sort(names);
  }

  /** A fresh process on the same table. */
  method Restart(base: seq<Parser>, load: Loader, table: seq<Row>) returns (s: Store)
    ensures fresh(s) && s.Valid() && s.base == base && s.table == table
    ensures s.custom == Reloaded(load, Live(table))
  {
    s := new Store(base, load, table);
    var _ := s.LoadCustom(true);
    assert map[] + Reloaded(load, Live(table)) == Reloaded(load, Live(table));
  }

  // ---------------------------------------------------------------- the operations as steps

  predicate Blank(s: string) {
    Trim(s) == ""
  }

  /** What decides the store's behaviour: the custom tier and the table. */
  datatype State = State(custom: map<string, Parser>, table: seq<Row>)

  function UpsertStep(load: Loader, s: State, yaml: string, writeOk: bool): (State, Result<Info, Error>) {
    match Load(load, yaml)
    case None => (s, Failure(Invalid))
    case Some(list) =>
      if |list| != 1 then (s, Failure(NotOne))
      else if Blank(list[0].name) then (s, Failure(NoName))
      else if !writeOk then (s, Failure(NotPersisted))
      else
        var p := list[0];
        (State(s.custom[p.name := p], s.table + [Row(p.name, p.source, false)]),
         Success(Info(p.name, p.logType, "custom", p.source)))
  }

  function DeleteStep(base: seq<Parser>, s: State, name: string, writeOk: bool): (State, Option<Error>) {
    if name !in s.custom then
      (s, Some(if exists i :: 0 <= i < |base| && base[i].name == name then Builtin else NotFound))
    else if !writeOk then (s, Some(NotPersisted))
    else (State(s.custom - {name}, s.table + [Row(name, "", true)]), None)
  }

  function Reloaded(load: Loader, rows: map<string, string>): map<string, Parser> {
    map name | name in rows && Loads(load, rows[name]) :: Load(load, rows[name]).value[0]
  }

  // ---------------------------------------------------------------- runs

  datatype Op = Put(yaml: string, writeOk: bool) | Remove(name: string, writeOk: bool)

  function Step(base: seq<Parser>, load: Loader, s: State, op: Op): State {
    match op
    case Put(yaml, ok) => UpsertStep(load, s, yaml, ok).0
    case Remove(name, ok) => DeleteStep(base, s, name, ok).0
  }

  function Run(base: seq<Parser>, load: Loader, s: State, ops: seq<Op>): State {
    if ops == [] then s else Step(base, load, Run(base, load, s, ops[..|ops| - 1]), ops[|ops| - 1])
  }

  /** The table mirrors the custom tier: the live rows are the custom parsers' documents. */
  ghost predicate Mirrors(s: State) {
    && Live(s.table).Keys == s.custom.Keys
    && forall n :: n in s.custom ==> s.custom[n].name == n && Live(s.table)[n] == s.custom[n].source
  }

  lemma RowMirrors(s: State, custom: map<string, Parser>, row: Row)
    requires Mirrors(s)
    requires !row.deleted ==>
        row.name in custom && custom[row.name].name == row.name && custom[row.name].source == row.yaml
    requires custom.Keys == if row.deleted then s.custom.Keys - {row.name} else s.custom.Keys + {row.name}
    requires forall n :: n in custom && n != row.name ==> custom[n] == s.custom[n]
    ensures Mirrors(State(custom, s.table + [row]))
  {
    LiveSnoc(s.table, row);
    hide Live;
  }

  lemma UpsertMirrors(load: Loader, s: State, yaml: string, ok: bool)
    requires Mirrors(s)
    ensures Mirrors(UpsertStep(load, s, yaml, ok).0)
  {
    hide Load, Blank, Mirrors;
    var t := UpsertStep(load, s, yaml, ok).0;
    if t != s {
      var p := Load(load, yaml).value[0];
      RowMirrors(s, s.custom[p.name := p], Row(p.name, p.source, false));
    }
  }

  lemma DeleteMirrors(base: seq<Parser>, s: State, name: string, ok: bool)
    requires Mirrors(s)
    ensures Mirrors(DeleteStep(base, s, name, ok).0)
  {
    hide Mirrors;
    if name in s.custom && ok {
      RowMirrors(s, s.custom - {name}, Row(name, "", true));
    }
  }

  lemma StepMirrors(base: seq<Parser>, load: Loader, s: State, op: Op)
    requires Mirrors(s)
    ensures Mirrors(Step(base, load, s, op))
  {
    hide UpsertStep, DeleteStep, Mirrors;
    match op
    case Put(yaml, ok) => UpsertMirrors(load, s, yaml, ok);
    case Remove(name, ok) => DeleteMirrors(base, s, name, ok);
  }

  /** Every run of operations, failed writes included, keeps the mirror. */
  lemma {:induction false} RunMirrors(base: seq<Parser>, load: Loader, s: State, ops: seq<Op>)
    requires Mirrors(s)
    ensures Mirrors(Run(base, load, s, ops))
  {
    hide Mirrors, Step;
    if ops != [] {
      RunMirrors(base, load, s, ops[..|ops| - 1]);
      StepMirrors(base, load, Run(base, load, s, ops[..|ops| - 1]), ops[|ops| - 1]);
    }
  }

  // ---------------------------------------------------------------- what was submitted

  predicate Accepted(load: Loader, yaml: string) {
    Loads(load, yaml) && !Blank(Load(load, yaml).value[0].name)
  }

  /** The one document of a text that holds its parser. */
  function ParserDoc(load: Loader, docs: seq<string>): string {
    if docs == [] then ""
    else
      var last := docs[|docs| - 1];
      if Trim(last) != "" && load.decode(last).Mapping? then last else ParserDoc(load, docs[..|docs| - 1])
  }

  /** The documents that stand after a run: for every name, the one accepted last. */
  function Submitted(load: Loader, ops: seq<Op>): map<string, string> {
    if ops == [] then map[]
    else
      var before := Submitted(load, ops[..|ops| - 1]);
      match ops[|ops| - 1]
      case Put(yaml, ok) =>
        if ok && Accepted(load, yaml)
        then before[Load(load, yaml).value[0].name := ParserDoc(load, SplitDocs(yaml))] else before
      case Remove(name, ok) => if ok then before - {name} else before
  }

  lemma {:induction false} ParserDocIsRead(load: Loader, docs: seq<string>, p: Parser)
    requires ParsersOf(load, docs) == Some([p]) && load.compiles(p.body)
    ensures ParserDoc(load, docs) in docs && ReadAs(load, ParserDoc(load, docs), p)
  {
    var n := |docs| - 1;
    var before := ParsersOf(load, docs[..n]).value;
    if Trim(docs[n]) != "" && load.decode(docs[n]).Mapping? {
      var m := load.decode(docs[n]);
      var q := Parser(m.name, m.logType, Trim(docs[n]), m.body);
      assert before + [q] == [p] && (before + [q])[|before|] == q;
    } else {
      ParserDocIsRead(load, docs[..n], p);
    }
  }

  /** The custom parsers are the ones read from the documents that stand. */
  ghost predicate Stands(load: Loader, s: State, docs: map<string, string>) {
    docs.Keys == s.custom.Keys && forall n :: n in docs ==> StandsFor(load, docs[n], s.custom[n])
  }

  ghost predicate StandsFor(load: Loader, doc: string, p: Parser) {
    ReadAs(load, doc, p) && NoSeparator(Lines(doc))
  }

  lemma AcceptedStands(load: Loader, yaml: string)
    requires Accepted(load, yaml)
    ensures StandsFor(load, ParserDoc(load, SplitDocs(yaml)), Load(load, yaml).value[0])
  {
    var p := Load(load, yaml).value[0];
    var docs := SplitDocs(yaml);
    assert Load(load, yaml).value == [p];
    hide Load, ParsersOf, Lines, Blank;
    assert ParsersOf(load, docs) == Some([p]) && load.compiles(p.body) by {
      LoadIsParsers(load, yaml, p);
    }
    ParserDocIsRead(load, docs, p);
    var doc := ParserDoc(load, docs);
    var k: nat :| k < |docs| && docs[k] == doc;
    PiecesWithout(yaml, '\n');
    NoLines();
    SpaceIsNoSeparator();
    DocsHaveNoSeparator(Lines(yaml), "", k) by {
      LinesPlain(yaml);
    }
  }

  lemma LinesPlain(yaml: string)
    ensures forall i :: 0 <= i < |Lines(yaml)| ==> '\n' !in Lines(yaml)[i]
  {
    PiecesWithout(yaml, '\n');
  }

  lemma LoadIsParsers(load: Loader, yaml: string, p: Parser)
    requires Load(load, yaml) == Some([p])
    ensures ParsersOf(load, SplitDocs(yaml)) == Some([p]) && load.compiles(p.body)
  {
    assert [p][0] == p;
  }

  lemma {:induction false} RunStands(base: seq<Parser>, load: Loader, ops: seq<Op>)
    ensures Stands(load, Run(base, load, State(map[], []), ops), Submitted(load, ops))
  {
    hide Load, StandsFor, Blank, SplitDocs, ParserDoc;
    if ops != [] {
      var n := |ops| - 1;
      RunStands(base, load, ops[..n]);
      if ops[n].Put? && Accepted(load, ops[n].yaml) {
        AcceptedStands(load, ops[n].yaml);
      }
    }
  }

  // ---------------------------------------------------------------- restarts

  /** Stored trimmed, the document decodes as it did when it was accepted. */
  predicate Kept(load: Loader, doc: string) {
    load.decode(Trim(doc) + "\n") == load.decode(doc)
  }

  lemma StandingReloads(load: Loader, doc: string, p: Parser)
    requires StandsFor(load, doc, p)
    ensures (Loads(load, p.source) && Load(load, p.source).value[0] == p) <==> Kept(load, doc)
  {
    ReloadsIff(load, doc, p);
    hide Load, ReadAs, NoSeparator;
    if Loads(load, p.source) && Load(load, p.source).value[0] == p {
      assert Load(load, p.source).value == [p];
    }
  }

  /** After any run a restart brings back the same custom parsers, and so the same active list
      in the same order, exactly if every document that stands, stored trimmed, decodes as it
      did when it was accepted. */
  lemma {:induction false} RestartRestores(base: seq<Parser>, load: Loader, ops: seq<Op>)
    ensures var s, docs := Run(base, load, State(map[], []), ops), Submitted(load, ops);
      && (Reloaded(load, Live(s.table)) == s.custom <==> forall n :: n in docs ==> Kept(load, docs[n]))
      && (Reloaded(load, Live(s.table)) == s.custom ==>
          Active(base, Reloaded(load, Live(s.table))) == Active(base, s.custom))
  {
    var s, docs := Run(base, load, State(map[], []), ops), Submitted(load, ops);
    RunMirrors(base, load, State(map[], []), ops);
    RunStands(base, load, ops);
    hide Run, Submitted, Load, Loads, Kept, StandsFor, Live, Active, Reloaded, Mirrors, Stands;
    ReloadedIffKept(load, s, docs);
  }

  lemma ReloadedIffKept(load: Loader, s: State, docs: map<string, string>)
    requires Mirrors(s) && Stands(load, s, docs)
    ensures Reloaded(load, Live(s.table)) == s.custom <==> forall n :: n in docs ==> Kept(load, docs[n])
  {
    hide Load, Loads, Kept, StandsFor, Live;
    var back := Reloaded(load, Live(s.table));
    forall n | n in docs
      ensures (n in back && back[n] == s.custom[n]) <==> Kept(load, docs[n])
    {
      StandingReloads(load, docs[n], s.custom[n]);
    }
    if forall n :: n in docs ==> Kept(load, docs[n]) {
      assert back.Keys == s.custom.Keys;
    }
  }

  /** Whatever a stored document loads back as, it has that document for its source. */
  lemma StoredIsSource(load: Loader, doc: string, p: Parser)
    requires StandsFor(load, doc, p) && Loads(load, p.source)
    ensures Load(load, p.source).value[0].source == p.source
  {
    TrimmedDocIsOne(doc);
    TrimTwice(doc);
    var t := Trim(doc);
    TrimRight(t, '\n');
    assert t + ['\n'] == t + "\n";
    hide Trim, SplitDocs, Lines;
    LoneDoc(load, t + "\n");
  }

  lemma ActiveFrom(base: seq<Parser>, custom: map<string, Parser>, p: Parser) returns (k: string)
    requires p in Active(base, custom) && p !in base
    ensures k in custom && custom[k] == p
  {
    var order := NameOrder(custom.Keys);
    InKeys(order, custom.Keys);
    UncoveredAre(base, custom.Keys);
    var i :| 0 <= i < |order| && custom[order[i]] == p;
    k := order[i];
  }

  /** If no base parser is itself a custom one, document and all, the active list is restored
      only by restoring the custom parsers. */
  lemma {:induction false} ActiveTellsCustom(base: seq<Parser>, load: Loader, ops: seq<Op>)
    ensures var s := Run(base, load, State(map[], []), ops);
      (forall n :: n in s.custom ==> s.custom[n] !in base) ==>
        (Active(base, Reloaded(load, Live(s.table))) == Active(base, s.custom) <==>
            Reloaded(load, Live(s.table)) == s.custom)
  {
    var s, docs := Run(base, load, State(map[], []), ops), Submitted(load, ops);
    RunMirrors(base, load, State(map[], []), ops);
    RunStands(base, load, ops);
    hide Run, Submitted, Load, Loads, Live, Active, Reloaded, Mirrors, Stands;
    if (forall n :: n in s.custom ==> s.custom[n] !in base) &&
       Active(base, Reloaded(load, Live(s.table))) == Active(base, s.custom) {
      SameActiveSameCustom(base, load, s, docs);
    }
  }

  lemma SameActiveSameCustom(base: seq<Parser>, load: Loader, s: State, docs: map<string, string>)
    requires Mirrors(s) && Stands(load, s, docs) && forall n :: n in s.custom ==> s.custom[n] !in base
    requires Active(base, Reloaded(load, Live(s.table))) == Active(base, s.custom)
    ensures Reloaded(load, Live(s.table)) == s.custom
  {
    hide Load, Loads, Live, Active, StandsFor;
    var back := Reloaded(load, Live(s.table));
    forall n | n in s.custom
      ensures n in back && back[n] == s.custom[n]
    {
      var p := s.custom[n];
      ActiveHolds(base, s.custom, p);
      var k := ActiveFrom(base, back, p);
      StoredIsSource(load, docs[k], s.custom[k]);
    }
    assert back.Keys == s.custom.Keys;
  }

  /** Otherwise a loss may not show: the base parser takes the place of the equal custom one. */
  lemma LossMayNotShow(p: Parser)
    ensures Active([p], map[p.name := p]) == [p] && Active([p], map[]) == [p]
  {
    var custom: map<string, Parser> := map[p.name := p];
    var empty: map<string, Parser> := map[];
    assert [p][..0] == [];
    assert Uncovered([], custom.Keys) == [] && Uncovered([], empty.Keys) == [];
    assert Lists([p.name], custom.Keys) && Lists([], empty.Keys);
    ListingIsUnique(NameOrder(custom.Keys), [p.name], custom.Keys);
    ListingIsUnique(NameOrder(empty.Keys), [], empty.Keys);
    InKeys([p.name], custom.Keys);
    assert Named([p.name], custom) == [p];
    assert Uncovered([p], custom.Keys) == [];
    assert Uncovered([p], empty.Keys) == [p];
  }

  /** For documents that are plain mappings: a restart restores them all exactly if each has a
      single entry or its first entry at the margin. */
  lemma {:induction false} PlainRestartRestores(base: seq<Parser>, load: Loader,
                                                mapping: seq<string> -> Decoded, ops: seq<Op>)
    requires IndentedDocs.ReadsMappings(load, mapping)
    requires forall n :: n in Submitted(load, ops) ==> IndentedDocs.IsFlat(Submitted(load, ops)[n])
    ensures var s, docs := Run(base, load, State(map[], []), ops), Submitted(load, ops);
      Reloaded(load, Live(s.table)) == s.custom <==>
        forall n :: n in docs ==> var es := IndentedDocs.Profile(docs[n]); |es| <= 1 || es[0].indent == 0
  {
    var s, docs := Run(base, load, State(map[], []), ops), Submitted(load, ops);
    RestartRestores(base, load, ops);
    RunStands(base, load, ops);
    hide Run, Submitted, Load, Loads, Reloaded, Live, Active, IndentedDocs.IsFlat, IndentedDocs.ReadsMappings;
    hide IndentedDocs.Profile;
    forall n | n in docs
      ensures Kept(load, docs[n]) <==> var es := IndentedDocs.Profile(docs[n]); |es| <= 1 || es[0].indent == 0
    {
      IndentedDocs.NonBlankHasEntry(docs[n]);
      IndentedDocs.StoredIsReadIffAtMargin(load, mapping, docs[n]);
    }
  }

  /** An indented mapping of two entries, such as a name and a log type, is accepted, saved and
      lost by the next restart. */
  lemma {:induction false} IndentedPairIsLost(base: seq<Parser>, load: Loader, mapping: seq<string> -> Decoded,
                                              a: string, b: string)
    requires IndentedDocs.ReadsMappings(load, mapping) && IndentedDocs.IsEntry(a) && IndentedDocs.IsEntry(b)
    requires mapping([a, b]).Mapping? && !Blank(mapping([a, b]).name) && load.compiles(mapping([a, b]).body)
    ensures var s := Run(base, load, State(map[], []), [Put(IndentedDocs.IndentedPair(a, b), true)]);
      s.custom.Keys == {mapping([a, b]).name} && Reloaded(load, Live(s.table)) == map[]
  {
    var text := IndentedDocs.IndentedPair(a, b);
    var doc := text + "\n";
    PairIsRead(load, mapping, a, b);
    IndentedDocs.PairIsOneDoc(a, b);
    IndentedDocs.PairNotBlank(a, b);
    hide IndentedDocs.ReadsMappings, IndentedDocs.IsEntry, IndentedDocs.IndentedPair, SplitDocs, Trim, Lines, Blank;
    var m := mapping([a, b]);
    BlankName();
    LoneDoc(load, doc);
    UnreadableIsLost(load, doc);
    SavedAlone(base, load, text, Parser(m.name, m.logType, Trim(doc), m.body));
  }

  lemma BlankName()
    ensures Blank("")
  {
  }

  lemma PairIsRead(load: Loader, mapping: seq<string> -> Decoded, a: string, b: string)
    requires IndentedDocs.ReadsMappings(load, mapping) && IndentedDocs.IsEntry(a) && IndentedDocs.IsEntry(b)
    requires mapping([a, b]).Mapping?
    ensures var doc := IndentedDocs.IndentedPair(a, b) + "\n";
      load.decode(doc) == mapping([a, b]) && load.decode(Trim(doc) + "\n").Unreadable?
  {
    var doc := IndentedDocs.IndentedPair(a, b) + "\n";
    IndentedDocs.PairProfile(a, b);
    hide IndentedDocs.IsFlat, IndentedDocs.IsEntry, IndentedDocs.IndentedPair, IndentedDocs.Profile, Trim;
    assert IndentedDocs.Cores(IndentedDocs.Profile(doc)) == [a, b];
    assert load.decode(doc) == mapping([a, b]);
    IndentedDocs.StoredIsReadIffAtMargin(load, mapping, doc);
  }

  lemma SavedAlone(base: seq<Parser>, load: Loader, yaml: string, p: Parser)
    requires Load(load, yaml) == Some([p]) && !Blank(p.name) && Load(load, p.source).None?
    ensures var s := Run(base, load, State(map[], []), [Put(yaml, true)]);
      s.custom.Keys == {p.name} && Reloaded(load, Live(s.table)) == map[]
  {
    hide Load, Blank, Live;
    var start, put := State(map[], []), [Put(yaml, true)];
    assert put[..0] == [];
    var s := Run(base, load, start, put);
    assert s == Step(base, load, Run(base, load, start, []), put[0]);
    assert s == State(map[p.name := p], [] + [Row(p.name, p.source, false)]);
    LiveSnoc([], Row(p.name, p.source, false));
    NothingLive();
  }

  lemma NothingLive()
    ensures Live([]) == map[]
  {
  }

  /** Saving a new name and deleting it again restores the custom tier and the active list;
      over a name that was custom before, it does not. */
  lemma {:induction false} PutThenRemove(base: seq<Parser>, load: Loader, s: State, yaml: string)
    requires UpsertStep(load, s, yaml, true).1.Success?
    ensures var name := UpsertStep(load, s, yaml, true).1.value.name;
      var t := DeleteStep(base, UpsertStep(load, s, yaml, true).0, name, true);
      && t.1 == None
      && (t.0.custom == s.custom <==> name !in s.custom)
      && (name !in s.custom ==> Active(base, t.0.custom) == Active(base, s.custom))
  {
    var name := UpsertStep(load, s, yaml, true).1.value.name;
    var t := DeleteStep(base, UpsertStep(load, s, yaml, true).0, name, true).0;
    assert name !in t.custom;
    if name !in s.custom {
      assert t.custom == s.custom;
    }
  }

  // ---------------------------------------------------------------- what the active list holds

  lemma {:induction false} UncoveredAre(base: seq<Parser>, taken: set<string>)
    ensures forall p :: p in Uncovered(base, taken) <==> p in base && p.name !in taken
  {
    if base != [] {
      var n := |base| - 1;
      UncoveredAre(base[..n], taken);
      assert base == base[..n] + [base[n]];
    }
  }

  /** The active list is the custom parsers and the base parsers whose names they leave free:
      a custom parser overrides the base parsers of its name and nothing else. */
  lemma {:induction false} ActiveHolds(base: seq<Parser>, custom: map<string, Parser>, p: Parser)
    requires forall n :: n in custom ==> custom[n].name == n
    ensures p in Active(base, custom) <==> if p.name in custom then p == custom[p.name] else p in base
  {
    var order := NameOrder(custom.Keys);
    InKeys(order, custom.Keys);
    UncoveredAre(base, custom.Keys);
    var front := Named(order, custom);
    if p.name in custom && p == custom[p.name] {
      assert p.name in order;
      var i :| 0 <= i < |order| && order[i] == p.name;
      assert front[i] == p;
    }
    if p in front {
      var i :| 0 <= i < |front| && front[i] == p;
      assert p.name == order[i];
    }
  }

  /** What a delete answers, read off the active list: not found iff no active parser has the
      name, refused as built in iff one has it without being custom. */
  lemma {:induction false} DeleteAnswers(base: seq<Parser>, s: State, name: string, writeOk: bool)
    requires forall n :: n in s.custom ==> s.custom[n].name == n
    ensures var (t, e) := DeleteStep(base, s, name, writeOk);
      && (e == Some(NotFound) <==> forall p :: p in Active(base, s.custom) ==> p.name != name)
      && (e == Some(Builtin) <==> name !in s.custom && exists p :: p in Active(base, s.custom) && p.name == name)
      && (e.Some? ==> t == s)
      && (e.None? ==> forall p :: p in Active(base, t.custom) && p.name == name ==> p in base)
  {
    hide Active;
    var t := DeleteStep(base, s, name, writeOk).0;
    forall p
      ensures p in Active(base, s.custom) <==> if p.name in s.custom then p == s.custom[p.name] else p in base
      ensures p in Active(base, t.custom) <==> if p.name in t.custom then p == t.custom[p.name] else p in base
    {
      ActiveHolds(base, s.custom, p);
      ActiveHolds(base, t.custom, p);
    }
    if name in s.custom {
      assert s.custom[name] in Active(base, s.custom);
    }
    forall i | 0 <= i < |base|
      ensures base[i] in base
    {
    }
  }
}
