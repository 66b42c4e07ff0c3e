/** The windowed correlator: `engine/correlator.go`, with the parts of `engine/yaral.go` it
    relies on (`matchEvent`, lines 344-366; `countThreshold`, lines 78-88).

    Per rule and join key the correlator keeps a sliding window of matching timestamps and
    the time it last fired.  It is proved against a monitor that keeps no state and looks at
    the whole history of the key. */
module Correlation {
  import opened Wrappers

  // ---------------------------------------------------------------- rules and events

  /** What a predicate line asks of a field: bind it to a placeholder, or pass a test (the
      comparison operators and regular expressions of the rule language). */
  datatype Check = Bind(placeholder: string) | Test(accepts: string -> bool)

  datatype Pred = Pred(evar: string, path: string, check: Check)

  datatype Condition = CountAtLeast(evar: string, min: int) | Combination

  /** `window` is a 64-bit duration; the loader's multiplication can wrap it below zero. */
  datatype Rule = Rule(
    name: string,
    eventVars: seq<string>,
    preds: seq<Pred>,
    keys: seq<string>,
    window: int,
    condition: Condition)

  /** A normalised event: its timestamp and its fields; a missing field reads as "". */
  datatype Event = Event(time: int, fields: map<string, string>)

  function Field(ev: Event, path: string): string {
    if path in ev.fields then ev.fields[path] else ""
  }

  /** A rule as the rule loader produces it: it declares an event variable, and its name is an
      identifier. */
  predicate ValidRule(r: Rule) {
    r.eventVars != [] && '\0' !in r.name
  }

  // ---------------------------------------------------------------- matching

  predicate PredHolds(p: Pred, ev: Event) {
    match p.check
    case Bind(_) => Field(ev, p.path) != ""
    case Test(accepts) => accepts(Field(ev, p.path))
  }

  predicate Matches(r: Rule, ev: Event)
    requires ValidRule(r)
  {
    forall i :: 0 <= i < |r.preds| && r.preds[i].evar == r.eventVars[0] ==> PredHolds(r.preds[i], ev)
  }

  /** The bindings of a matching event: the last line that binds a placeholder wins. */
  function Bindings(preds: seq<Pred>, evar: string, ev: Event): map<string, string> {
    if preds == [] then map[]
    else
      var p, before := preds[|preds| - 1], Bindings(preds[..|preds| - 1], evar, ev);
      if p.evar == evar && p.check.Bind? then before[p.check.placeholder := Field(ev, p.path)] else before
  }

  /** An event matches if every test line of the variable accepts its field, a missing field
      counting as empty, and the field of every binding line is there and not empty; the last
      line that binds a placeholder gives its value. */
  method MatchEvent(r: Rule, evar: string, ev: Event) returns (matched: bool, binds: map<string, string>)
    ensures matched <==> forall i :: 0 <= i < |r.preds| && r.preds[i].evar == evar ==>
      match r.preds[i].check
      case Bind(_) => r.preds[i].path in ev.fields && ev.fields[r.preds[i].path] != ""
      case Test(accepts) => accepts(if r.preds[i].path in ev.fields then ev.fields[r.preds[i].path] else "")
    ensures matched ==> forall k :: k in binds ==>
      exists i: nat :: i < |r.preds| && r.preds[i].evar == evar && r.preds[i].check == Bind(k)
    ensures matched ==> forall i: nat, k ::
      (&& i < |r.preds| && r.preds[i].evar == evar && r.preds[i].check == Bind(k)
       && forall j :: i < j < |r.preds| && r.preds[j].evar == evar ==> r.preds[j].check != Bind(k)) ==>
      k in binds && r.preds[i].path in ev.fields && binds[k] == ev.fields[r.preds[i].path]
  {
    binds := map[];
    for i := 0 to |r.preds|
      invariant binds == Bindings(r.preds[..i], evar, ev)
      invariant forall j :: 0 <= j < i && r.preds[j].evar == evar ==> PredHolds(r.preds[j], ev)
    {
      var p := r.preds[i];
      assert r.preds[..i + 1][..i] == r.preds[..i];
      if p.evar != evar {
        continue;
      }
      var actual := Field(ev, p.path);
      if p.check.Bind? {
        if actual == "" {
          return false, map[];
        }
        binds := binds[p.check.placeholder := actual];
        continue;
      }
      if !p.check.accepts(actual) {
        return false, map[];
      }
    }
    assert r.preds[..|r.preds|] == r.preds;
    matched := true;
    BindingsAre(r.preds, evar, ev);
  }

  /** Line i is the last of the variable's lines that binds k. */
  predicate BindsLast(preds: seq<Pred>, evar: string, k: string, i: nat) {
    && i < |preds| && preds[i].evar == evar && preds[i].check == Bind(k)
    && forall j :: i < j < |preds| && preds[j].evar == evar ==> preds[j].check != Bind(k)
  }

  lemma {:induction false} BindingsAre(preds: seq<Pred>, evar: string, ev: Event)
    ensures forall k, i: nat :: BindsLast(preds, evar, k, i) ==>
      k in Bindings(preds, evar, ev) && Bindings(preds, evar, ev)[k] == Field(ev, preds[i].path)
    ensures forall k :: k in Bindings(preds, evar, ev) ==> exists i: nat :: BindsLast(preds, evar, k, i)
  {
    if preds != [] {
      var n := |preds| - 1;
      var init, last := preds[..n], preds[n];
      BindingsAre(init, evar, ev);
      forall k, i: nat | BindsLast(preds, evar, k, i)
        ensures k in Bindings(preds, evar, ev) && Bindings(preds, evar, ev)[k] == Field(ev, preds[i].path)
      {
        if i < n {
          assert BindsLast(init, evar, k, i);
        }
      }
      forall k | k in Bindings(preds, evar, ev)
        ensures exists i: nat :: BindsLast(preds, evar, k, i)
      {
        if last.evar == evar && last.check == Bind(k) {
          assert BindsLast(preds, evar, k, n);
        } else {
          var i: nat :| BindsLast(init, evar, k, i);
          assert BindsLast(preds, evar, k, i);
        }
      }
    }
  }

  /** What the method returns is the bindings as a function. */
  lemma MatchedBindings(preds: seq<Pred>, evar: string, ev: Event, binds: map<string, string>)
    requires forall k :: k in binds ==>
      exists i: nat :: i < |preds| && preds[i].evar == evar && preds[i].check == Bind(k)
    requires forall k, i: nat :: BindsLast(preds, evar, k, i) ==> k in binds && binds[k] == Field(ev, preds[i].path)
    ensures binds == Bindings(preds, evar, ev)
  {
    BindingsAre(preds, evar, ev);
    forall k | k in binds
      ensures k in Bindings(preds, evar, ev) && binds[k] == Bindings(preds, evar, ev)[k]
    {
      var i: nat :| i < |preds| && preds[i].evar == evar && preds[i].check == Bind(k);
      var l := LastBindOf(preds, evar, k, i);
    }
    forall k | k in Bindings(preds, evar, ev)
      ensures k in binds
    {
      var i: nat :| BindsLast(preds, evar, k, i);
    }
  }

  lemma {:induction false} LastBindOf(preds: seq<Pred>, evar: string, k: string, i: nat) returns (l: nat)
    requires i < |preds| && preds[i].evar == evar && preds[i].check == Bind(k)
    ensures BindsLast(preds, evar, k, l)
    decreases |preds| - i
  {
    if j: nat :| i < j < |preds| && preds[j].evar == evar && preds[j].check == Bind(k) {
      l := LastBindOf(preds, evar, k, j);
    } else {
      l := i;
    }
  }

  function Threshold(r: Rule): int {
    if r.condition.CountAtLeast? then r.condition.min else 1
  }

  // ---------------------------------------------------------------- keys

  function JoinKey(parts: seq<string>): string {
    if parts == [] then ""
    else if |parts| == 1 then parts[0]
    else JoinKey(parts[..|parts| - 1]) + "|" + parts[|parts| - 1]
  }

  /** The values of the join placeholders, in order; none if one of them is not bound. */
  function KeyValues(keys: seq<string>, binds: map<string, string>): (r: Option<seq<string>>)
    ensures r.Some? ==> |r.value| == |keys| && forall i :: 0 <= i < |keys| ==> r.value[i] != ""
  {
    if keys == [] then Some([])
    else
      var last, before := keys[|keys| - 1], KeyValues(keys[..|keys| - 1], binds);
      if before.None? || last !in binds || binds[last] == "" then None else Some(before.value + [binds[last]])
  }

  function GroupKeyOf(r: Rule, binds: map<string, string>): Option<string> {
    if r.keys == [] then Some("*")
    else
      match KeyValues(r.keys, binds)
      case None => None
      case Some(values) => Some(JoinKey(values))
  }

  method GroupKey(r: Rule, binds: map<string, string>) returns (key: string, ok: bool)
    ensures GroupKeyOf(r, binds) == if ok then Some(key) else None
  {
    if r.keys == [] {
      return "*", true;
    }
    var parts: seq<string> := [];
    for i := 0 to |r.keys|
      invariant KeyValues(r.keys[..i], binds) == Some(parts)
    {
      var k := r.keys[i];
      assert r.keys[..i + 1][..i] == r.keys[..i];
      if k !in binds || binds[k] == "" {
        NoKeyValue(r.keys, binds, i);
        return "", false;
      }
      parts := parts + [binds[k]];
    }
    assert r.keys[..|r.keys|] == r.keys;
    key := Joined(parts);
    ok := true;
  }

  lemma {:induction false} NoKeyValue(keys: seq<string>, binds: map<string, string>, i: nat)
    requires i < |keys| && (keys[i] !in binds || binds[keys[i]] == "")
    ensures KeyValues(keys, binds).None?
  {
    if i < |keys| - 1 {
      NoKeyValue(keys[..|keys| - 1], binds, i);
    }
  }

  method Joined(parts: seq<string>) returns (out: string)
    ensures out == JoinKey(parts)
  {
    out := "";
    for i := 0 to |parts|
      invariant out == JoinKey(parts[..i])
    {
      assert parts[..i + 1][..i] == parts[..i];
      if i > 0 {
        out := out + "|";
      }
      out := out + parts[i];
    }
    assert parts[..|parts|] == parts;
  }

  function StateKey(r: Rule, key: string): string {
    r.name + "\0" + key
  }

  /** The key under which r files the event: none if it does not match or lacks a join value. */
  function Filed(r: Rule, ev: Event): Option<string>
    requires ValidRule(r)
  {
    if Matches(r, ev) then GroupKeyOf(r, Bindings(r.preds, r.eventVars[0], ev)) else None
  }

  // ---------------------------------------------------------------- one window, as a value

  /** The stored timestamps and the time of the last alert, if there was one. */
  datatype Win = Win(times: seq<int>, fired: Option<int>)

  const EMPTY := Win([], None)

  function NotBefore(times: seq<int>, cutoff: int): seq<int> {
    if times == [] then []
    else
      var rest := NotBefore(times[..|times| - 1], cutoff);
      if times[|times| - 1] >= cutoff then rest + [times[|times| - 1]] else rest
  }

  predicate Rearmed(fired: Option<int>, t: int, window: int) {
    fired.None? || t - fired.value >= window
  }

  predicate Fires(w: Win, t: int, window: int, min: int) {
    |NotBefore(w.times + [t], t - window)| >= min && Rearmed(w.fired, t, window)
  }

  function Arrive(w: Win, t: int, window: int, min: int): Win {
    Win(NotBefore(w.times + [t], t - window), if Fires(w, t, window, min) then Some(t) else w.fired)
  }

  lemma {:induction false} NotBeforeAppend(times: seq<int>, t: int, cutoff: int)
    ensures NotBefore(times + [t], cutoff) == NotBefore(times, cutoff) + if t >= cutoff then [t] else []
  {
    assert (times + [t])[..|times|] == times;
  }

  /** Unless the window is negative the newest arrival is kept, so no window is left empty. */
  lemma NewestIsKept(w: Win, t: int, window: int, min: int)
    requires window >= 0
    ensures var times := Arrive(w, t, window, min).times; times != [] && times[|times| - 1] == t
  {
    NotBeforeAppend(w.times, t, t - window);
  }

  /** Files a window back under its key; an empty one is dropped. */
  function Settle(s: State, k: string, w: Win): State {
    if w.times == [] then s - {k} else s[k := w]
  }

  type State = map<string, Win>

  function WinAt(s: State, k: string): Win {
    if k in s then s[k] else EMPTY
  }

  lemma SettleAfter(s: State, k: string, first: Win, w: Win)
    ensures Settle(s, k, w) == if w.times == [] then s[k := first][k := w] - {k} else s[k := first][k := w]
  {
  }

  // ---------------------------------------------------------------- the correlator's state, in place

  class WinState {
    var times: seq<int>
    var firedAt: Option<int>

    constructor ()
      ensures times == [] && firedAt.None?
    {
      times := [];
      firedAt := None;
    }

    ghost function View(): Win
      reads this
    {
      Win(times, firedAt)
    }

    /** `pruneWindow`: the kept timestamps are written back over the front of the same slice
        while the rest of it is still being read. */
    method Prune(window: int)
      modifies this`times
      ensures old(times) == [] ==> times == []
      ensures old(times) != [] ==> times == NotBefore(old(times), old(times)[|old(times)| - 1] - window)
    {
      if |times| == 0 {
        return;
      }
      ghost var all := times;
      var cutoff := times[|times| - 1] - window;
      var keep := 0;
      for i := 0 to |times|
        invariant |times| == |all| && keep <= i
        invariant times[..keep] == NotBefore(all[..i], cutoff)
        invariant times[i..] == all[i..]
      {
        assert times[i] == times[i..][0] == all[i];
        assert all[..i + 1][..i] == all[..i];
        if times[i] >= cutoff {
          ghost var before := times[..keep];
          ghost var after := times[i + 1..];
          assert after == all[i + 1..];
          times := times[keep := times[i]];
          keep := keep + 1;
          assert times[..keep] == before + [all[i]];
          assert times[i + 1..] == after;
        } else {
          assert times[i + 1..] == times[i..][1..];
        }
      }
      times := times[..keep];
      assert all[..|all|] == all;
    }

    /** One arrival: append, prune, and decide whether to fire. */
    method Add(ts: int, window: int, min: int) returns (fire: bool)
      modifies this
      ensures View() == Arrive(old(View()), ts, window, min)
      ensures fire <==> Fires(old(View()), ts, window, min)
    {
      times := times + [ts];
      Prune(window);
      fire := |times| >= min && Rearmed(firedAt, ts, window);
      if fire {
        firedAt := Some(ts);
      }
    }
  }

  // ---------------------------------------------------------------- all rules

  datatype Alert = Alert(ruleId: string, time: int, key: string)

  /** One rule sees one event. */
  function Feed(s: State, r: Rule, ev: Event): State
    requires ValidRule(r)
  {
    match Filed(r, ev)
    case None => s
    case Some(key) =>
      var k := StateKey(r, key);
      Settle(s, k, Arrive(WinAt(s, k), ev.time, r.window, Threshold(r)))
  }

  function Raised(s: State, r: Rule, ev: Event): seq<Alert>
    requires ValidRule(r)
  {
    match Filed(r, ev)
    case None => []
    case Some(key) =>
      if Fires(WinAt(s, StateKey(r, key)), ev.time, r.window, Threshold(r)) then [Alert(r.name, ev.time, key)] else []
  }

  lemma FeedByFiling(s: State, r: Rule, ev: Event)
    requires ValidRule(r)
    ensures match Filed(r, ev)
      case None => Feed(s, r, ev) == s && Raised(s, r, ev) == []
      case Some(key) =>
        var k := StateKey(r, key);
        && Feed(s, r, ev) == Settle(s, k, Arrive(WinAt(s, k), ev.time, r.window, Threshold(r)))
        && Raised(s, r, ev) == if Fires(WinAt(s, k), ev.time, r.window, Threshold(r)) then [Alert(r.name, ev.time, key)]
                               else []
  {
  }

  lemma MatchesMeans(r: Rule, ev: Event, matched: bool)
    requires ValidRule(r)
    requires matched <==> forall i :: 0 <= i < |r.preds| && r.preds[i].evar == r.eventVars[0] ==>
      match r.preds[i].check
      case Bind(_) => r.preds[i].path in ev.fields && ev.fields[r.preds[i].path] != ""
      case Test(accepts) => accepts(if r.preds[i].path in ev.fields then ev.fields[r.preds[i].path] else "")
    ensures matched == Matches(r, ev)
  {
    if Matches(r, ev) {
      assert forall i :: 0 <= i < |r.preds| && r.preds[i].evar == r.eventVars[0] ==> PredHolds(r.preds[i], ev);
    }
  }

  /** Under which key an event is filed, over its fields and the rule's lines: every test line
      of the first variable accepts, every binding line finds a value, and the key is the join
      placeholders' last-bound values joined by bars, or a star if there are none. */
  lemma {:induction false} FiledMeans(r: Rule, ev: Event, key: string)
    requires ValidRule(r)
    ensures Filed(r, ev) == Some(key) <==>
      && (forall i :: 0 <= i < |r.preds| && r.preds[i].evar == r.eventVars[0] ==>
            match r.preds[i].check
            case Bind(_) => r.preds[i].path in ev.fields && ev.fields[r.preds[i].path] != ""
            case Test(accepts) => accepts(if r.preds[i].path in ev.fields then ev.fields[r.preds[i].path] else ""))
      && (r.keys == [] ==> key == "*")
      && (r.keys != [] ==> exists values :: SuppliesAll(r, ev, values) && key == JoinKey(values))
  {
    var b := Bindings(r.preds, r.eventVars[0], ev);
    if Matches(r, ev) {
      forall k, v
        ensures (k in b && b[k] == v && v != "") <==> Supplies(r, ev, k, v)
      {
        SuppliesMeans(r, ev, k, v);
      }
      KeyValuesMean(r.keys, b);
      hide JoinKey, Bindings, Supplies;
      if r.keys != [] && KeyValues(r.keys, b).Some? {
        var values := KeyValues(r.keys, b).value;
        assert SuppliesAll(r, ev, values);
      }
      if values :| SuppliesAll(r, ev, values) && key == JoinKey(values) {
        KeyValuesFound(r.keys, b, values);
      }
    }
  }

  /** The last line of the first variable that binds k takes the value v from the event. */
  ghost predicate Supplies(r: Rule, ev: Event, k: string, v: string)
    requires ValidRule(r)
  {
    v != "" && exists i: nat ::
      && i < |r.preds| && r.preds[i].evar == r.eventVars[0] && r.preds[i].check == Bind(k)
      && r.preds[i].path in ev.fields && ev.fields[r.preds[i].path] == v
      && forall j :: i < j < |r.preds| && r.preds[j].evar == r.eventVars[0] ==> r.preds[j].check != Bind(k)
  }

  ghost predicate SuppliesAll(r: Rule, ev: Event, values: seq<string>)
    requires ValidRule(r)
  {
    |values| == |r.keys| && forall j :: 0 <= j < |values| ==> Supplies(r, ev, r.keys[j], values[j])
  }

  lemma SuppliesMeans(r: Rule, ev: Event, k: string, v: string)
    requires ValidRule(r) && Matches(r, ev)
    ensures var b := Bindings(r.preds, r.eventVars[0], ev); (k in b && b[k] == v && v != "") <==> Supplies(r, ev, k, v)
  {
    BindingsAre(r.preds, r.eventVars[0], ev);
    hide Bindings;
    var b := Bindings(r.preds, r.eventVars[0], ev);
    if k in b && b[k] == v && v != "" {
      var i: nat :| BindsLast(r.preds, r.eventVars[0], k, i);
      assert PredHolds(r.preds[i], ev);
    }
    if Supplies(r, ev, k, v) {
      var i: nat :| i < |r.preds| && r.preds[i].evar == r.eventVars[0] && r.preds[i].check == Bind(k)
        && r.preds[i].path in ev.fields && ev.fields[r.preds[i].path] == v
        && forall j :: i < j < |r.preds| && r.preds[j].evar == r.eventVars[0] ==> r.preds[j].check != Bind(k);
      assert BindsLast(r.preds, r.eventVars[0], k, i);
    }
  }

  lemma {:induction false} KeyValuesMean(keys: seq<string>, b: map<string, string>)
    ensures KeyValues(keys, b).Some? ==>
      forall j :: 0 <= j < |keys| ==> keys[j] in b && b[keys[j]] == KeyValues(keys, b).value[j]
  {
    if keys != [] {
      KeyValuesMean(keys[..|keys| - 1], b);
    }
  }

  lemma {:induction false} KeyValuesFound(keys: seq<string>, b: map<string, string>, values: seq<string>)
    requires |keys| == |values|
    requires forall j :: 0 <= j < |keys| ==> keys[j] in b && b[keys[j]] == values[j] && values[j] != ""
    ensures KeyValues(keys, b) == Some(values)
  {
    if keys != [] {
      var n := |keys| - 1;
      KeyValuesFound(keys[..n], b, values[..n]);
      assert values == values[..n] + [values[n]];
    }
  }

  /** All rules, in order, see one event. */
  function FeedAll(s: State, rules: seq<Rule>, ev: Event): State
    requires forall i :: 0 <= i < |rules| ==> ValidRule(rules[i])
  {
    if rules == [] then s
    else
      Feed(FeedAll(s, rules[..|rules| - 1], ev), rules[|rules| - 1], ev)
  }

  function RaisedAll(s: State, rules: seq<Rule>, ev: Event): seq<Alert>
    requires forall i :: 0 <= i < |rules| ==> ValidRule(rules[i])
  {
    if rules == [] then []
    else
      var before := rules[..|rules| - 1];
      RaisedAll(s, before, ev) + Raised(FeedAll(s, before, ev), rules[|rules| - 1], ev)
  }

  class Correlator {
    const rules: seq<Rule>
    var state: map<string, WinState>

    constructor (rules: seq<Rule>)
      requires forall i :: 0 <= i < |rules| ==> ValidRule(rules[i])
      ensures this.rules == rules && Valid() && View() == map[] && state == map[]
    {
      this.rules := rules;
      state := map[];
    }

    /** Different keys never share a window object. */
    ghost predicate Valid()
      reads this
    {
      && (forall i :: 0 <= i < |rules| ==> ValidRule(rules[i]))
      && (forall k, l :: k in state && l in state && k != l ==> state[k] != state[l])
    }

    ghost function View(): State
      reads this, state.Values
    {
      map k | k in state :: state[k].View()
    }

    method Observe(ev: Event) returns (out: seq<Alert>)
      requires Valid()
      modifies this, state.Values
      ensures Valid() && fresh(state.Values - old(state.Values))
      ensures View() == FeedAll(old(View()), rules, ev)
      ensures out == RaisedAll(old(View()), rules, ev)
    {
      out := [];
      for i := 0 to |rules|
        invariant Valid() && fresh(state.Values - old(state.Values))
        invariant View() == FeedAll(old(View()), rules[..i], ev)
        invariant out == RaisedAll(old(View()), rules[..i], ev)
      {
        assert rules[..i + 1][..i] == rules[..i];
        var alerts := ObserveRule(rules[i], ev);
        out := out + alerts;
      }
      assert rules[..|rules|] == rules;
    }

    /** The body of the loop over the rules. */
    method ObserveRule(r: Rule, ev: Event) returns (out: seq<Alert>)
      requires Valid() && ValidRule(r)
      modifies this, state.Values
      ensures Valid() && fresh(state.Values - old(state.Values))
      ensures View() == Feed(old(View()), r, ev)
      ensures out == Raised(old(View()), r, ev)
    {
      hide Matches, GroupKeyOf, Bindings, Feed, Raised, Settle, WinAt, Arrive, Fires, StateKey, Threshold;
      FeedByFiling(View(), r, ev);
      out := [];
      var matched, binds := MatchEvent(r, r.eventVars[0], ev);
      assert matched == Matches(r, ev) by { MatchesMeans(r, ev, matched); }
      if !matched {
        return;
      }
      assert binds == Bindings(r.preds, r.eventVars[0], ev) by {
        MatchedBindings(r.preds, r.eventVars[0], ev, binds);
      }
      var key, ok := GroupKey(r, binds);
      if !ok {
        return;
      }
      var fire := Accept(StateKey(r, key), ev.time, r.window, Threshold(r));
      if fire {
        out := [Alert(r.name, ev.time, key)];
      }
    }

    /** The window of one key takes an arrival; an empty window would be dropped. */
    method Accept(stateKey: string, ts: int, window: int, min: int) returns (fire: bool)
      requires Valid()
      modifies this, state.Values
      ensures Valid() && fresh(state.Values - old(state.Values))
      ensures View() == Settle(old(View()), stateKey, Arrive(WinAt(old(View()), stateKey), ts, window, min))
      ensures fire <==> Fires(WinAt(old(View()), stateKey), ts, window, min)
    {
      hide Arrive, Fires, Settle, WinAt;
      var st := Slot(stateKey);
      fire := AddTo(stateKey, st, ts, window, min);
      SettleAfter(old(View()), stateKey, WinAt(old(View()), stateKey), st.View());
      if |st.times| == 0 {
        Release(stateKey);
      }
    }

    method Release(stateKey: string)
      requires Valid()
      modifies this
      ensures Valid() && state.Values <= old(state.Values)
      ensures View() == old(View()) - {stateKey}
    {
      state := state - {stateKey};
    }

    method AddTo(stateKey: string, st: WinState, ts: int, window: int, min: int) returns (fire: bool)
      requires Valid() && stateKey in state && state[stateKey] == st
      modifies st
      ensures Valid() && View() == old(View())[stateKey := st.View()]
      ensures st.View() == Arrive(old(View())[stateKey], ts, window, min)
      ensures fire <==> Fires(old(View())[stateKey], ts, window, min)
    {
      hide Arrive, Fires;
      fire := st.Add(ts, window, min);
      assert forall k :: k in state && k != stateKey ==> state[k].View() == old(state[k].View());
    }

    /** The window stored under a key, made on first use. */
    method Slot(stateKey: string) returns (st: WinState)
      requires Valid()
      modifies this
      ensures Valid() && fresh(state.Values - old(state.Values))
      ensures stateKey in state && state[stateKey] == st
      ensures View() == old(View())[stateKey := WinAt(old(View()), stateKey)]
    {
      if stateKey in state {
        st := state[stateKey];
      } else {
        st := new WinState();
        state := state[stateKey := st];
      }
    }
  }
}
