/** What the correlator promises, stated against a monitor that remembers everything:
    `engine/correlator.go`, lines 8-17 and 45-79. */
module CorrelatorMonitor {
  import opened Wrappers
  import opened Correlation

  // ---------------------------------------------------------------- one key, its whole history

  /** The window of a key after the arrivals h. */
  function Run(h: seq<int>, window: nat, min: int): Win {
    if h == [] then EMPTY else Arrive(Run(h[..|h| - 1], window, min), h[|h| - 1], window, min)
  }

  predicate FiresAt(h: seq<int>, i: nat, window: nat, min: int)
    requires i < |h|
  {
    Fires(Run(h[..i], window, min), h[i], window, min)
  }

  predicate Ordered(h: seq<int>) {
    forall i, j :: 0 <= i <= j < |h| ==> h[i] <= h[j]
  }

  /** The arrivals up to i that lie in the closed window ending at h[i]. */
  function InWindow(h: seq<int>, i: nat, window: nat): set<nat>
    requires i < |h|
  {
    set j: nat | j <= i && h[i] - window <= h[j] <= h[i]
  }

  /** The monitor: enough arrivals in the window, and no alert less than one window ago. */
  ghost predicate MonitorFires(h: seq<int>, i: nat, window: nat, min: int)
    requires i < |h|
    decreases i
  {
    && |InWindow(h, i, window)| >= min
    && forall f: nat :: f < i && MonitorFires(h, f, window, min) ==> h[i] - h[f] >= window
  }

  // ---------------------------------------------------------------- what is stored

  /** Arrival i is no older than one window before any later arrival. */
  predicate Survives(h: seq<int>, i: nat, window: nat)
    requires i < |h|
  {
    forall j: nat :: i <= j < |h| ==> h[i] >= h[j] - window
  }

  /** The surviving ones among the first n arrivals, in arrival order. */
  function Survivors(h: seq<int>, n: nat, window: nat): seq<int>
    requires n <= |h|
  {
    if n == 0 then []
    else Survivors(h, n - 1, window) + if Survives(h, n - 1, window) then [h[n - 1]] else []
  }

  lemma SurvivesOneMore(h: seq<int>, t: int, i: nat, window: nat)
    requires i < |h|
    ensures Survives(h + [t], i, window) <==> Survives(h, i, window) && h[i] >= t - window
  {
    var all := h + [t];
    assert all[|h|] == t;
    assert forall j: nat :: i <= j < |h| ==> all[j] == h[j];
  }

  lemma {:induction false} SurvivorsPruned(h: seq<int>, t: int, n: nat, window: nat)
    requires n <= |h|
    ensures Survivors(h + [t], n, window) == NotBefore(Survivors(h, n, window), t - window)
  {
    hide Survives, NotBefore;
    if n == 0 {
      NothingBefore(t - window);
    } else {
      SurvivorsPruned(h, t, n - 1, window);
      SurvivesOneMore(h, t, n - 1, window);
      assert (h + [t])[n - 1] == h[n - 1];
      var kept := Survivors(h, n - 1, window);
      NotBeforeAppend(kept, h[n - 1], t - window);
      assert kept + [] == kept && NotBefore(kept, t - window) + [] == NotBefore(kept, t - window);
    }
  }

  lemma NothingBefore(cutoff: int)
    ensures NotBefore([], cutoff) == []
  {
  }

  /** In any order of timestamps, what is stored is exactly the surviving arrivals. */
  lemma {:induction false} StoredAreSurvivors(h: seq<int>, window: nat, min: int)
    ensures Run(h, window, min).times == Survivors(h, |h|, window)
  {
    if h != [] {
      hide NotBefore, Survives;
      var before, t := h[..|h| - 1], h[|h| - 1];
      StoredAreSurvivors(before, window, min);
      SurvivorsPruned(before, t, |before|, window);
      assert before + [t] == h;
      NotBeforeAppend(Run(before, window, min).times, t, t - window);
      LastSurvives(h, window);
    }
  }

  lemma LastSurvives(h: seq<int>, window: nat)
    requires h != []
    ensures Survives(h, |h| - 1, window)
  {
  }

  function SurvivorSet(h: seq<int>, n: nat, window: nat): set<nat>
    requires n <= |h|
  {
    set i: nat | i < n && Survives(h, i, window)
  }

  lemma {:induction false} SurvivorCount(h: seq<int>, n: nat, window: nat)
    requires n <= |h|
    ensures |Survivors(h, n, window)| == |SurvivorSet(h, n, window)|
  {
    if n > 0 {
      SurvivorCount(h, n - 1, window);
      SurvivorsGrow(h, n, window);
      hide Survives, SurvivorSet;
    }
  }

  lemma SurvivorsGrow(h: seq<int>, n: nat, window: nat)
    requires 0 < n <= |h|
    ensures |SurvivorSet(h, n, window)| == |SurvivorSet(h, n - 1, window)| + if Survives(h, n - 1, window) then 1 else 0
  {
    hide Survives;
    var before := SurvivorSet(h, n - 1, window);
    assert SurvivorSet(h, n, window) == if Survives(h, n - 1, window) then before + {n - 1} else before;
  }

  /** With timestamps in order, the survivors are the arrivals of the window. */
  lemma {:induction false} StoredCountInOrder(h: seq<int>, i: nat, window: nat, min: int)
    requires Ordered(h) && i < |h|
    ensures |Run(h[..i + 1], window, min).times| == |InWindow(h, i, window)|
  {
    var p := h[..i + 1];
    StoredAreSurvivors(p, window, min);
    SurvivorCount(p, i + 1, window);
    forall j: nat | j <= i
      ensures Survives(p, j, window) <==> h[j] >= h[i] - window
    {
      assert p[i] == h[i] && p[j] == h[j];
      forall k: nat | j <= k <= i
        ensures p[k] <= p[i]
      {
        assert p[k] == h[k];
      }
    }
    assert SurvivorSet(p, i + 1, window) == InWindow(h, i, window);
  }

  // ---------------------------------------------------------------- when it fires

  lemma RunStep(h: seq<int>, i: nat, window: nat, min: int)
    requires i < |h|
    ensures Run(h[..i + 1], window, min) == Arrive(Run(h[..i], window, min), h[i], window, min)
    ensures FiresAt(h, i, window, min) <==>
      |Run(h[..i + 1], window, min).times| >= min && Rearmed(Run(h[..i], window, min).fired, h[i], window)
  {
    assert h[..i + 1][..i] == h[..i];
  }

  /** The position of the last alert among the first n arrivals. */
  function LastAlert(h: seq<int>, n: nat, window: nat, min: int): (r: Option<nat>)
    requires n <= |h|
    ensures r.None? ==> forall f: nat :: f < n ==> !FiresAt(h, f, window, min)
    ensures r.Some? ==> r.value < n && FiresAt(h, r.value, window, min)
    ensures r.Some? ==> forall f: nat :: r.value < f < n ==> !FiresAt(h, f, window, min)
  {
    if n == 0 then None
    else if FiresAt(h, n - 1, window, min) then Some(n - 1)
    else LastAlert(h, n - 1, window, min)
  }

  /** `fired` is the timestamp of the latest alert, whatever the order of timestamps. */
  lemma {:induction false} FiredIsLatest(h: seq<int>, n: nat, window: nat, min: int)
    requires n <= |h|
    ensures var last := LastAlert(h, n, window, min);
      Run(h[..n], window, min).fired == if last.None? then None else Some(h[last.value])
  {
    if n > 0 {
      FiredIsLatest(h, n - 1, window, min);
      RunStep(h, n - 1, window, min);
      hide Run;
    }
  }

  /** Two alerts of one key are at least one window apart, even on out-of-order input. */
  lemma {:induction false} AlertsSpaced(h: seq<int>, i: nat, j: nat, window: nat, min: int)
    requires i < j < |h| && FiresAt(h, i, window, min) && FiresAt(h, j, window, min)
    ensures h[j] - h[i] >= window
    decreases j
  {
    FiredIsLatest(h, j, window, min);
    RunStep(h, j, window, min);
    var f := LastAlert(h, j, window, min).value;
    if f > i {
      AlertsSpaced(h, i, f, window, min);
    }
  }

  /** When it fires, for timestamps in any order: enough arrivals survive, and no alert was
      raised less than one window before in event time. */
  lemma {:induction false} FiresInAnyOrder(h: seq<int>, i: nat, window: nat, min: int)
    requires i < |h|
    ensures FiresAt(h, i, window, min) <==>
      && |SurvivorSet(h[..i + 1], i + 1, window)| >= min
      && forall f: nat :: f < i && FiresAt(h, f, window, min) ==> h[i] - h[f] >= window
  {
    hide Survivors, SurvivorSet, Run;
    RunStep(h, i, window, min);
    StoredAreSurvivors(h[..i + 1], window, min);
    SurvivorCount(h[..i + 1], i + 1, window);
    FiredIsLatest(h, i, window, min);
    forall f: nat | f < i && FiresAt(h, f, window, min) && FiresAt(h, i, window, min)
      ensures h[i] - h[f] >= window
    {
      AlertsSpaced(h, f, i, window, min);
    }
  }

  /** The stateful correlator fires exactly when the monitor does. */
  lemma {:induction false} RefinesMonitor(h: seq<int>, i: nat, window: nat, min: int)
    requires Ordered(h) && i < |h|
    ensures FiresAt(h, i, window, min) <==> MonitorFires(h, i, window, min)
    decreases i
  {
    RunStep(h, i, window, min);
    StoredCountInOrder(h, i, window, min);
    FiredIsLatest(h, i, window, min);
    forall f: nat | f < i
      ensures FiresAt(h, f, window, min) <==> MonitorFires(h, f, window, min)
    {
      RefinesMonitor(h, f, window, min);
    }
    var last := LastAlert(h, i, window, min);
    if last.Some? {
      forall f: nat | f < i && FiresAt(h, f, window, min)
        ensures h[f] <= h[last.value]
      {
        assert f <= last.value;
      }
    }
  }

  /** No two arrivals of h are further apart than this. */
  function Spread(h: seq<int>): (w: nat)
    ensures forall i, j :: 0 <= i < |h| && 0 <= j < |h| ==> h[i] - h[j] <= w
  {
    if h == [] then 0
    else
      var n := |h| - 1;
      var w := Spread(h[..n]);
      assert forall i :: 0 <= i < n ==> h[i] == h[..n][i] && h[i] - h[..n][0] <= w && h[..n][0] - h[i] <= w;
      w + if h[n] >= h[0] then h[n] - h[0] else h[0] - h[n]
  }

  function FirstNumbers(n: nat): (s: set<nat>)
    ensures |s| == n && forall k: nat :: k in s <==> k < n
  {
    if n == 0 then {} else FirstNumbers(n - 1) + {n - 1}
  }

  lemma AllSurvive(h: seq<int>, n: nat, window: nat)
    requires n <= |h| && window == Spread(h)
    ensures |SurvivorSet(h[..n], n, window)| == n
  {
    var p := h[..n];
    forall k: nat | k < |p|
      ensures Survives(p, k, window)
    {
      assert p[k] == h[k] && forall j: nat :: k <= j < n ==> p[j] == h[j];
    }
    assert SurvivorSet(p, n, window) == FirstNumbers(n);
  }

  /** With a window that wide everything survives, so the first alert comes with arrival min. */
  lemma {:induction false} WideWindowFires(h: seq<int>, i: nat, window: nat)
    requires i < |h| && window == Spread(h)
    ensures FiresAt(h, i, window, i + 1)
  {
    hide FiresAt, SurvivorSet;
    var min := i + 1;
    forall f: nat | f < i
      ensures !FiresAt(h, f, window, min)
    {
      AllSurvive(h, f + 1, window);
      FiresInAnyOrder(h, f, window, min);
    }
    AllSurvive(h, i + 1, window);
    FiresInAnyOrder(h, i, window, min);
  }

  /** The monitor leaves out an arrival later than h[i]. */
  lemma EarlierPeakIsOutside(h: seq<int>, j: nat, i: nat, window: nat)
    requires j < i < |h| && h[j] > h[i]
    ensures |InWindow(h, i, window)| < i + 1
  {
    SubsetSize(InWindow(h, i, window), FirstNumbers(i + 1) - {j});
  }

  lemma SubsetSize<T>(a: set<T>, b: set<T>)
    requires a <= b
    ensures |a| <= |b|
  {
    assert b == a + (b - a);
  }

  /** The correlator agrees with the monitor at every arrival, for every window and threshold,
      exactly when the timestamps arrive in order. */
  lemma {:induction false} MonitorExactlyWhenOrdered(h: seq<int>)
    ensures (forall window: nat, min: int, i: nat :: i < |h| ==>
               (FiresAt(h, i, window, min) <==> MonitorFires(h, i, window, min)))
      <==> Ordered(h)
  {
    hide FiresAt, MonitorFires, InWindow;
    if Ordered(h) {
      forall window: nat, min: int, i: nat | i < |h|
        ensures FiresAt(h, i, window, min) <==> MonitorFires(h, i, window, min)
      {
        RefinesMonitor(h, i, window, min);
      }
    } else {
      var j: nat, i: nat :| j < i < |h| && h[j] > h[i];
      WideWindowFires(h, i, Spread(h));
      EarlierPeakIsOutside(h, j, i, Spread(h));
      FewIsSilent(h, i, Spread(h), i + 1);
    }
  }

  lemma FewIsSilent(h: seq<int>, i: nat, window: nat, min: int)
    requires i < |h| && |InWindow(h, i, window)| < min
    ensures !MonitorFires(h, i, window, min)
  {
  }

  /** So an arrival over the threshold is never silent for a whole window: an alert was raised
      on it, or less than one window before it. */
  lemma {:induction false} OverThresholdIsAlerted(h: seq<int>, i: nat, window: nat, min: int)
    requires Ordered(h) && i < |h| && |InWindow(h, i, window)| >= min
    ensures FiresAt(h, i, window, min) || exists f: nat :: f < i && FiresAt(h, f, window, min) && h[i] - h[f] < window
  {
    RefinesMonitor(h, i, window, min);
    forall f: nat | f < i
      ensures FiresAt(h, f, window, min) <==> MonitorFires(h, f, window, min)
    {
      RefinesMonitor(h, f, window, min);
    }
  }

  // ---------------------------------------------------------------- how often it fires

  function AlertsUpTo(h: seq<int>, n: nat, window: nat, min: int): nat
    requires n <= |h|
  {
    if n == 0 then 0
    else AlertsUpTo(h, n - 1, window, min) + if FiresAt(h, n - 1, window, min) then 1 else 0
  }

  /** k alerts, the last of them at time `fired`, take k - 1 windows at least. */
  ghost predicate Spans(k: nat, fired: Option<int>, a: int, window: nat) {
    if fired.None? then k == 0 else k >= 1 && (k - 1) * window <= fired.value - a
  }

  lemma {:induction false} AlertsSpan(h: seq<int>, n: nat, a: int, window: nat, min: int)
    requires n <= |h| && forall i :: 0 <= i < |h| ==> a <= h[i]
    ensures Spans(AlertsUpTo(h, n, window, min), Run(h[..n], window, min).fired, a, window)
  {
    if n > 0 {
      AlertsSpan(h, n - 1, a, window, min);
      RunStep(h, n - 1, window, min);
      hide Run, Spans;
      var fired := Run(h[..n - 1], window, min).fired;
      var k := AlertsUpTo(h, n - 1, window, min);
      if FiresAt(h, n - 1, window, min) {
        SpanStep(k, fired, h[n - 1], a, window);
      }
    } else {
      assert h[..0] == [];
    }
  }

  lemma SpanStep(k: nat, fired: Option<int>, t: int, a: int, window: nat)
    requires Spans(k, fired, a, window) && Rearmed(fired, t, window) && a <= t
    ensures Spans(k + 1, Some(t), a, window)
  {
    ProductStep(k, window);
  }

  /** Timestamps in [a, b] give at most one alert per started window, in any order. */
  lemma {:induction false} AlertsBounded(h: seq<int>, a: int, b: int, window: nat, min: int)
    requires window > 0 && a <= b && forall i :: 0 <= i < |h| ==> a <= h[i] <= b
    ensures AlertsUpTo(h, |h|, window, min) <= (b - a) / window + 1
  {
    AlertsSpan(h, |h|, a, window, min);
    FiredIsLatest(h, |h|, window, min);
    var last := LastAlert(h, |h|, window, min);
    hide Run, AlertsUpTo, LastAlert;
    SpansBound(AlertsUpTo(h, |h|, window, min), if last.None? then None else Some(h[last.value]), a, b, window);
  }

  lemma SpansBound(k: nat, fired: Option<int>, a: int, b: int, w: nat)
    requires w > 0 && a <= b && Spans(k, fired, a, w) && (fired.Some? ==> fired.value <= b)
    ensures k <= (b - a) / w + 1
  {
    if k > 0 {
      QuotientBound(k - 1, b - a, w);
    } else {
      QuotientBound(0, b - a, w);
    }
  }

  lemma QuotientBound(k: nat, d: int, w: nat)
    requires w > 0 && k * w <= d
    ensures k <= d / w
  {
    assert d == (d / w) * w + d % w;
    if k > d / w {
      ProductOrder(d / w + 1, k, w);
      ProductStep(d / w + 1, w);
    }
  }

  lemma ProductStep(k: int, w: int)
    ensures k * w == (k - 1) * w + w
  {
  }

  lemma ProductOrder(a: int, b: int, w: nat)
    requires a <= b
    ensures a * w <= b * w
  {
  }

  /** Out of order the two differ: a late arrival is counted together with one that lies far
      outside the window ending at it. */
  lemma LateArrivalFires()
    ensures FiresAt([100, 0], 1, 10, 2) && !MonitorFires([100, 0], 1, 10, 2)
  {
    var h := [100, 0];
    assert h[..1] == [100] && [100][..0] == [];
    assert [] + [100] == [100];
    NotBeforeAppend([], 100, 90);
    NotBeforeAppend([100], 0, -10);
    NotBeforeAppend([], 100, -10);
    assert NotBefore([], 90) == [] && NotBefore([], -10) == [];
    assert Run([100], 10, 2) == Win([100], None);
    assert InWindow(h, 1, 10) == {1};
  }

  // ---------------------------------------------------------------- all rules, all keys

  ghost predicate ValidRules(rules: seq<Rule>) {
    && (forall i :: 0 <= i < |rules| ==> ValidRule(rules[i]) && rules[i].window >= 0)
    && (forall i, j :: 0 <= i < j < |rules| ==> rules[i].name != rules[j].name)
  }

  function StateAfter(rules: seq<Rule>, evs: seq<Event>): State
    requires forall i :: 0 <= i < |rules| ==> ValidRule(rules[i])
  {
    if evs == [] then map[] else FeedAll(StateAfter(rules, evs[..|evs| - 1]), rules, evs[|evs| - 1])
  }

  /** The timestamps of the events r files under a key. */
  function History(r: Rule, key: string, evs: seq<Event>): seq<int>
    requires ValidRule(r)
  {
    if evs == [] then []
    else
      var before, ev := History(r, key, evs[..|evs| - 1]), evs[|evs| - 1];
      if Filed(r, ev) == Some(key) then before + [ev.time] else before
  }

  lemma StateKeySplits(r: Rule, k: string, q: Rule, l: string)
    requires ValidRule(r) && ValidRule(q) && StateKey(r, k) == StateKey(q, l)
    ensures r.name == q.name && k == l
  {
    var s := StateKey(r, k);
    assert s[|r.name|] == '\0' && s[|q.name|] == '\0';
    assert forall i :: 0 <= i < |r.name| ==> s[i] == r.name[i];
    assert forall i :: 0 <= i < |q.name| ==> s[i] == q.name[i];
    assert |r.name| == |q.name|;
    assert s[..|r.name|] == r.name && s[..|r.name|] == q.name;
    assert s[|r.name| + 1..] == k && s[|r.name| + 1..] == l;
  }

  lemma OtherRule(s: State, q: Rule, ev: Event, r: Rule, key: string)
    requires ValidRule(r) && ValidRule(q) && q.name != r.name
    ensures WinAt(Feed(s, q, ev), StateKey(r, key)) == WinAt(s, StateKey(r, key))
  {
    hide Filed, Arrive;
    if Filed(q, ev).Some? && StateKey(q, Filed(q, ev).value) == StateKey(r, key) {
      StateKeySplits(q, Filed(q, ev).value, r, key);
    }
  }

  lemma SameRule(s: State, r: Rule, ev: Event, key: string)
    requires ValidRule(r) && r.window >= 0
    ensures WinAt(Feed(s, r, ev), StateKey(r, key))
         == if Filed(r, ev) == Some(key) then Arrive(WinAt(s, StateKey(r, key)), ev.time, r.window, Threshold(r))
            else WinAt(s, StateKey(r, key))
  {
    hide Filed, Arrive;
    if Filed(r, ev).Some? && StateKey(r, Filed(r, ev).value) == StateKey(r, key) {
      StateKeySplits(r, Filed(r, ev).value, r, key);
      NewestIsKept(WinAt(s, StateKey(r, key)), ev.time, r.window, Threshold(r));
    }
  }

  lemma {:induction false} FeedAllAt(s: State, rules: seq<Rule>, ev: Event, r: Rule, key: string)
    requires ValidRules(rules) && ValidRule(r)
    requires forall i :: 0 <= i < |rules| ==> rules[i].name != r.name || rules[i] == r
    ensures WinAt(FeedAll(s, rules, ev), StateKey(r, key))
         == if r in rules && Filed(r, ev) == Some(key)
            then Arrive(WinAt(s, StateKey(r, key)), ev.time, r.window, Threshold(r))
            else WinAt(s, StateKey(r, key))
  {
    hide Filed, Arrive, WinAt, Feed, StateKey;
    if rules != [] {
      var before, last := rules[..|rules| - 1], rules[|rules| - 1];
      FeedAllAt(s, before, ev, r, key);
      assert rules == before + [last];
      if last == r {
        assert r !in before;
        SameRule(FeedAll(s, before, ev), r, ev, key);
      } else {
        OtherRule(FeedAll(s, before, ev), last, ev, r, key);
      }
    }
  }

  /** After any run, the window of a rule and key is the one its own history alone leaves. */
  lemma {:induction false} KeysDoNotInterfere(rules: seq<Rule>, evs: seq<Event>, i: nat, key: string)
    requires ValidRules(rules) && i < |rules|
    ensures var r := rules[i];
      WinAt(StateAfter(rules, evs), StateKey(r, key)) == Run(History(r, key, evs), r.window, Threshold(r))
  {
    hide Filed, Arrive, FeedAll, StateKey;
    var r := rules[i];
    if evs != [] {
      var before, ev := evs[..|evs| - 1], evs[|evs| - 1];
      KeysDoNotInterfere(rules, before, i, key);
      FeedAllAt(StateAfter(rules, before), rules, ev, r, key);
      var h := History(r, key, before);
      if Filed(r, ev) == Some(key) {
        assert (h + [ev.time])[..|h|] == h;
      }
    }
  }

  lemma {:induction false} RaisedAllHas(s: State, rules: seq<Rule>, ev: Event, i: nat, key: string)
    requires ValidRules(rules) && i < |rules|
    ensures var r := rules[i];
      Alert(r.name, ev.time, key) in RaisedAll(s, rules, ev) <==>
        Filed(r, ev) == Some(key) && Fires(WinAt(s, StateKey(r, key)), ev.time, r.window, Threshold(r))
  {
    hide Filed, Fires, WinAt, StateKey, FeedAll;
    var n := |rules| - 1;
    var before, last, r := rules[..n], rules[n], rules[i];
    var a := Alert(r.name, ev.time, key);
    FeedAllAt(s, before, ev, last, key);
    assert last !in before;
    assert a in RaisedAll(s, rules, ev) <==>
        a in RaisedAll(s, before, ev) || a in Raised(FeedAll(s, before, ev), last, ev);
    if i < n {
      RaisedAllHas(s, before, ev, i, key);
    } else {
      RaisedNames(s, before, ev);
    }
  }

  lemma {:induction false} RaisedNames(s: State, rules: seq<Rule>, ev: Event)
    requires forall i :: 0 <= i < |rules| ==> ValidRule(rules[i])
    ensures forall a :: a in RaisedAll(s, rules, ev) ==> exists i :: 0 <= i < |rules| && a.ruleId == rules[i].name
  {
    hide Filed, Fires, WinAt, StateKey, FeedAll;
    if rules != [] {
      var before, last := rules[..|rules| - 1], rules[|rules| - 1];
      RaisedNames(s, before, ev);
      forall a | a in RaisedAll(s, rules, ev)
        ensures exists i :: 0 <= i < |rules| && a.ruleId == rules[i].name
      {
        if a in RaisedAll(s, before, ev) {
          var i :| 0 <= i < |before| && a.ruleId == before[i].name;
          assert rules[i] == before[i];
        } else {
          assert a.ruleId == rules[|rules| - 1].name;
        }
      }
    }
  }

  /** For timestamps in any order: an event raises the alert of a rule and key exactly when it
      is filed there and that key's own history, fed alone, fires on it. */
  lemma {:induction false} AlertsDoNotInterfere(rules: seq<Rule>, evs: seq<Event>, i: nat, key: string)
    requires ValidRules(rules) && i < |rules| && evs != []
    ensures var r, ev, before := rules[i], evs[|evs| - 1], evs[..|evs| - 1];
      var h := History(r, key, evs);
      Alert(r.name, ev.time, key) in RaisedAll(StateAfter(rules, before), rules, ev) <==>
        && Filed(r, ev) == Some(key) && h != []
        && FiresAt(h, |h| - 1, r.window, match r.condition case CountAtLeast(_, min) => min case Combination => 1)
  {
    hide Filed, Fires, WinAt, StateKey, RaisedAll, StateAfter;
    var r, ev, before := rules[i], evs[|evs| - 1], evs[..|evs| - 1];
    KeysDoNotInterfere(rules, before, i, key);
    RaisedAllHas(StateAfter(rules, before), rules, ev, i, key);
    if Filed(r, ev) == Some(key) {
      var h := History(r, key, evs);
      assert h[..|h| - 1] == History(r, key, before);
    }
  }

  lemma {:induction false} HistoryOrdered(r: Rule, key: string, evs: seq<Event>)
    requires ValidRule(r) && forall i, j :: 0 <= i <= j < |evs| ==> evs[i].time <= evs[j].time
    ensures Ordered(History(r, key, evs))
    ensures forall i :: 0 <= i < |History(r, key, evs)| ==> History(r, key, evs)[i] <= evs[|evs| - 1].time
  {
    hide Filed;
    if evs != [] {
      HistoryOrdered(r, key, evs[..|evs| - 1]);
    }
  }

  /** Feeding a time-ordered stream to the whole correlator, with its interleaved rules and
      keys: an event raises the alert of a rule and key exactly when it is filed there and the
      monitor watching only that key's history fires on it. */
  lemma {:induction false} CorrelatorRefinesMonitor(rules: seq<Rule>, evs: seq<Event>, i: nat, key: string)
    requires ValidRules(rules) && i < |rules| && evs != []
    requires forall j, k :: 0 <= j <= k < |evs| ==> evs[j].time <= evs[k].time
    ensures var r, ev, before := rules[i], evs[|evs| - 1], evs[..|evs| - 1];
      var h := History(r, key, evs);
      Alert(r.name, ev.time, key) in RaisedAll(StateAfter(rules, before), rules, ev) <==>
        && Filed(r, ev) == Some(key) && h != []
        && MonitorFires(h, |h| - 1, r.window, match r.condition case CountAtLeast(_, min) => min case Combination => 1)
  {
    hide Filed, FiresAt, RaisedAll, StateAfter, MonitorFires;
    AlertsDoNotInterfere(rules, evs, i, key);
    HistoryOrdered(rules[i], key, evs);
    var h := History(rules[i], key, evs);
    if h != [] {
      RefinesMonitor(h, |h| - 1, rules[i].window, Threshold(rules[i]));
    }
  }

  /** The rules see an event one after the other, each in the state the ones before it left, and
      their alerts come in that order. */
  lemma {:induction false} RulesInOrder(s: State, a: seq<Rule>, b: seq<Rule>, ev: Event)
    requires forall i :: 0 <= i < |a| ==> ValidRule(a[i])
    requires forall i :: 0 <= i < |b| ==> ValidRule(b[i])
    ensures forall i :: 0 <= i < |a + b| ==> ValidRule((a + b)[i])
    ensures FeedAll(s, a + b, ev) == FeedAll(FeedAll(s, a, ev), b, ev)
    ensures RaisedAll(s, a + b, ev) == RaisedAll(s, a, ev) + RaisedAll(FeedAll(s, a, ev), b, ev)
  {
    hide Feed, Raised, ValidRule;
    if b == [] {
      assert a + b == a;
    } else {
      var n := |b| - 1;
      RulesInOrder(s, a, b[..n], ev);
      assert (a + b)[..|a| + n] == a + b[..n] && (a + b)[|a| + n] == b[n];
    }
  }

  /** Two rules of one name share their windows: a rule listed twice fires on the first event
      although its threshold is two. */
  lemma SharedNameFires(ev: Event)
    ensures var r := Rule("r", ["e"], [], [], 10, CountAtLeast("e", 2));
      && RaisedAll(map[], [r, r], ev) == [Alert("r", ev.time, "*")]
      && RaisedAll(map[], [r], ev) == []
  {
    var r := Rule("r", ["e"], [], [], 10, CountAtLeast("e", 2));
    assert Filed(r, ev) == Some("*");
    var k := StateKey(r, "*");
    NotBeforeAppend([], ev.time, ev.time - 10);
    NotBeforeAppend([ev.time], ev.time, ev.time - 10);
    var one := Feed(map[], r, ev);
    assert WinAt(one, k) == Win([ev.time], None);
    assert [r, r][..1] == [r] && [r][..0] == [];
    assert FeedAll(map[], [r], ev) == one;
    assert RaisedAll(map[], [r], ev) == [] + Raised(map[], r, ev);
    assert RaisedAll(map[], [r, r], ev) == RaisedAll(map[], [r], ev) + Raised(one, r, ev);
  }

  // ---------------------------------------------------------------- join values behind a key

  predicate NoBar(s: string) {
    '|' !in s
  }

  /** A single value is its own key, and each further value follows a bar. */
  lemma JoinKeyGrows(a: seq<string>, v: string)
    ensures JoinKey([v]) == v
    ensures a != [] ==> JoinKey(a + [v]) == JoinKey(a) + "|" + v
  {
    assert (a + [v])[..|a|] == a;
  }

  lemma {:induction false} JoinKeyInjective(a: seq<string>, b: seq<string>)
    requires |a| == |b| && forall i :: 0 <= i < |a| ==> NoBar(a[i]) && NoBar(b[i])
    ensures JoinKey(a) == JoinKey(b) ==> a == b
  {
    if JoinKey(a) == JoinKey(b) && |a| > 1 {
      var n := |a| - 1;
      var x, y, s := JoinKey(a[..n]), JoinKey(b[..n]), JoinKey(a);
      assert s == x + "|" + a[n] && s == y + "|" + b[n];
      LastBar(x, a[n], y, b[n]);
      JoinKeyInjective(a[..n], b[..n]);
      assert a == a[..n] + [a[n]] && b == b[..n] + [b[n]];
    }
  }

  lemma BarNotLater(x: string, p: string, y: string, q: string)
    requires x + "|" + p == y + "|" + q && NoBar(p)
    ensures |y| <= |x|
  {
    var s := x + "|" + p;
    forall k | |x| < k < |s|
      ensures s[k] != '|'
    {
      assert s[k] == p[k - |x| - 1];
    }
    assert (y + "|" + q)[|y|] == '|';
  }

  lemma LastBar(x: string, p: string, y: string, q: string)
    requires x + "|" + p == y + "|" + q && NoBar(p) && NoBar(q)
    ensures x == y && p == q
  {
    BarNotLater(x, p, y, q);
    BarNotLater(y, q, x, p);
    var s := x + "|" + p;
    assert s[|x| + 1..] == p && s[|x| + 1..] == q;
    assert s[..|x|] == x && s[..|x|] == y;
  }

  function Bars(s: string): nat {
    if s == "" then 0 else Bars(s[..|s| - 1]) + if s[|s| - 1] == '|' then 1 else 0
  }

  function BarsIn(a: seq<string>): nat {
    if a == [] then 0 else BarsIn(a[..|a| - 1]) + Bars(a[|a| - 1])
  }

  lemma {:induction false} BarsConcat(s: string, t: string)
    ensures Bars(s + t) == Bars(s) + Bars(t)
  {
    if t == "" {
      assert s + t == s;
    } else {
      BarsConcat(s, t[..|t| - 1]);
      assert (s + t)[..|s + t| - 1] == s + t[..|t| - 1];
    }
  }

  lemma {:induction false} NoBars(s: string)
    ensures Bars(s) == 0 <==> NoBar(s)
  {
    if s != "" {
      NoBars(s[..|s| - 1]);
      assert s == s[..|s| - 1] + [s[|s| - 1]];
    }
  }

  lemma {:induction false} BarFreeLists(a: seq<string>)
    ensures BarsIn(a) == 0 <==> forall i :: 0 <= i < |a| ==> NoBar(a[i])
  {
    if a != [] {
      BarFreeLists(a[..|a| - 1]);
      NoBars(a[|a| - 1]);
    }
  }

  /** The key has the bars of its values and one for each join. */
  lemma {:induction false} BarsInKey(a: seq<string>)
    requires a != []
    ensures Bars(JoinKey(a)) == BarsIn(a) + |a| - 1
  {
    var n := |a| - 1;
    if n == 0 {
      assert a[..0] == [];
    } else {
      BarsInKey(a[..n]);
      BarsConcat(JoinKey(a[..n]) + "|", a[n]);
      BarsConcat(JoinKey(a[..n]), "|");
      assert Bars("|") == 1 by {
        assert "|"[..0] == "";
      }
    }
  }

  /** Joining depends on two neighbouring values only through their own join. */
  lemma {:induction false} JoinNeighbours(a: seq<string>, b: seq<string>, i: nat)
    requires |a| == |b| && i + 1 < |a| && a[i] + "|" + a[i + 1] == b[i] + "|" + b[i + 1]
    requires forall k :: 0 <= k < |a| && k != i && k != i + 1 ==> a[k] == b[k]
    ensures JoinKey(a) == JoinKey(b)
    decreases |a|
  {
    var n := |a| - 1;
    if i + 1 < n {
      JoinNeighbours(a[..n], b[..n], i);
    } else if n == 1 {
      assert JoinKey(a[..1]) == a[0] && JoinKey(b[..1]) == b[0];
    } else {
      var front := JoinKey(a[..i]);
      assert a[..n][..i] == a[..i] == b[..i] == b[..n][..i];
      Reassociate(front + "|", a[i], a[i + 1]);
      Reassociate(front + "|", b[i], b[i + 1]);
    }
  }

  lemma Reassociate(front: string, x: string, y: string)
    ensures front + x + "|" + y == front + (x + "|" + y)
  {
  }

  /** Another list of as many values with the same key: the bar at position t of value i takes
      the place of the join after it, or of the join before it. */
  function Shifted(a: seq<string>, i: nat, t: nat): (b: seq<string>)
    requires i < |a| && |a| >= 2 && t < |a[i]| && a[i][t] == '|'
    ensures |b| == |a| && b != a
  {
    var x, y := a[i][..t], a[i][t + 1..];
    if i + 1 < |a| && (t > 0 || i == 0) then
      var b := a[i := x][i + 1 := y + "|" + a[i + 1]];
      assert |b[i]| < |a[i]|;
      b
    else
      var b := a[i - 1 := a[i - 1] + "|" + x][i := y];
      assert |b[i]| < |a[i]|;
      b
  }

  lemma ShiftedJoins(a: seq<string>, i: nat, t: nat)
    requires i < |a| && |a| >= 2 && t < |a[i]| && a[i][t] == '|'
    ensures JoinKey(Shifted(a, i, t)) == JoinKey(a)
  {
    var x, y, b := a[i][..t], a[i][t + 1..], Shifted(a, i, t);
    assert a[i] == x + "|" + y;
    if i + 1 < |a| && (t > 0 || i == 0) {
      assert a[i] + "|" + a[i + 1] == x + "|" + (y + "|" + a[i + 1]);
      JoinNeighbours(a, b, i);
    } else {
      assert a[i - 1] + "|" + a[i] == (a[i - 1] + "|" + x) + "|" + y;
      JoinNeighbours(a, b, i - 1);
    }
  }

  /** Two values or more are told from every other list of as many by their key exactly when
      none of them contains a bar. */
  lemma {:induction false} KeyTellsIffBarFree(a: seq<string>)
    requires |a| >= 2
    ensures (forall b :: |b| == |a| && JoinKey(b) == JoinKey(a) ==> b == a) <==>
      forall i :: 0 <= i < |a| ==> NoBar(a[i])
  {
    hide JoinKey;
    if forall i :: 0 <= i < |a| ==> NoBar(a[i]) {
      forall b | |b| == |a| && JoinKey(b) == JoinKey(a)
        ensures b == a
      {
        BarsInKey(a);
        BarsInKey(b);
        BarFreeLists(a);
        BarFreeLists(b);
        JoinKeyInjective(b, a);
      }
    } else {
      var i: nat :| i < |a| && !NoBar(a[i]);
      var t: nat :| t < |a[i]| && a[i][t] == '|';
      ShiftedJoins(a, i, t);
      var b := Shifted(a, i, t);
      assert |b| == |a| && JoinKey(b) == JoinKey(a);
    }
  }

  // -- among lists without empty values, which are the ones that are joined

  predicate NonEmpty(a: seq<string>) {
    forall i :: 0 <= i < |a| ==> a[i] != ""
  }

  /** A bar is only found at the very start of a value that has one after it or is the first,
      and only at the very end of a value that has one before it or is the last.  A value with
      a neighbour on both sides may thus be a single bar, but hold no other. */
  predicate FixedBars(a: seq<string>) {
    forall i, t :: 0 <= i < |a| && 0 <= t < |a[i]| && a[i][t] == '|' ==>
      (i + 1 < |a| ==> t == 0) && (i > 0 ==> t == |a[i]| - 1)
  }

  lemma {:induction false} SplitKey(x: string, c: string, y: string, u: string)
    requires x + "|" + c == y + "|" + u
    ensures |c| == |u| ==> x == y && c == u
    ensures |c| > |u| ==> exists w :: c == w + "|" + u && y == x + "|" + w
    ensures |c| < |u| ==> exists w :: u == w + "|" + c && x == y + "|" + w
  {
    var s := x + "|" + c;
    if |c| == |u| {
      assert s[..|x|] == x && s[..|y|] == y && s[|x| + 1..] == c && s[|y| + 1..] == u;
    } else if |c| > |u| {
      var w := s[|x| + 1..|y|];
      assert s[|x| + 1..] == c && s[|y|] == '|' && s[|y| + 1..] == u && s[..|y|] == y && s[..|x|] == x && s[|x|] == '|';
      assert c == w + "|" + u && y == x + "|" + w;
    } else {
      var w := s[|y| + 1..|x|];
      assert s[|y| + 1..] == u && s[|x|] == '|' && s[|x| + 1..] == c && s[..|x|] == x && s[..|y|] == y && s[|y|] == '|';
      assert u == w + "|" + c && x == y + "|" + w;
    }
  }

  /** If n values join to what n others and something more do, one of them holds a bar after
      its start. */
  lemma {:induction false} BarInside(a: seq<string>, b: seq<string>, u: string) returns (i: nat, t: nat)
    requires |a| == |b| > 0 && NonEmpty(b) && JoinKey(a) == JoinKey(b) + "|" + u
    ensures i < |a| && 0 < t < |a[i]| && a[i][t] == '|'
    decreases |a|
  {
    var n := |a| - 1;
    if n == 0 {
      i, t := 0, |b[0]|;
    } else {
      var x, c, y, d := JoinKey(a[..n]), a[n], JoinKey(b[..n]), b[n];
      assert JoinKey(a) == x + "|" + c && JoinKey(b) == y + "|" + d;
      SplitKey(x, c, y + "|" + d, u);
      if |c| > |u| {
        var w :| c == w + "|" + u && y + "|" + d == x + "|" + w;
        if w != "" {
          i, t := n, |w|;
        } else {
          SplitKey(x, w, y, d);
          var v :| d == v + "|" + w && x == y + "|" + v;
          i, t := BarInside(a[..n], b[..n], v);
        }
      } else if |c| == |u| {
        i, t := BarInside(a[..n], b[..n], d);
      } else {
        var w :| u == w + "|" + c && x == (y + "|" + d) + "|" + w;
        assert x == y + "|" + (d + "|" + w);
        i, t := BarInside(a[..n], b[..n], d + "|" + w);
      }
    }
  }

  lemma {:induction false} SameKeyMovesABar(a: seq<string>, b: seq<string>)
    requires |a| == |b| > 0 && NonEmpty(a) && NonEmpty(b) && JoinKey(a) == JoinKey(b) && a != b
    ensures !FixedBars(a)
    decreases |a|
  {
    var n := |a| - 1;
    assert a == a[..n] + [a[n]] && b == b[..n] + [b[n]];
    if n > 0 {
      var x, c, y, d := JoinKey(a[..n]), a[n], JoinKey(b[..n]), b[n];
      SplitKey(x, c, y, d);
      if |c| > |d| {
        var w :| c == w + "|" + d && y == x + "|" + w;
        assert a[n][|w|] == '|';
      } else if |c| < |d| {
        var w :| d == w + "|" + c && x == y + "|" + w;
        var i, t := BarInside(a[..n], b[..n], w);
        assert a[i][t] == '|';
      } else {
        SameKeyMovesABar(a[..n], b[..n]);
        var i, t :| 0 <= i < n && 0 <= t < |a[..n][i]| && a[..n][i][t] == '|' &&
          !((i + 1 < n ==> t == 0) && (i > 0 ==> t == |a[..n][i]| - 1));
        assert a[i][t] == '|';
      }
    }
  }

  /** Among non-empty values a list is told from every other of its length exactly when its
      bars are fixed. */
  lemma {:induction false} KeyTellsIffFixedBars(a: seq<string>)
    requires a != [] && NonEmpty(a)
    ensures (forall b :: |b| == |a| && NonEmpty(b) && JoinKey(b) == JoinKey(a) ==> b == a) <==> FixedBars(a)
  {
    hide JoinKey;
    if FixedBars(a) {
      forall b | |b| == |a| && NonEmpty(b) && JoinKey(b) == JoinKey(a)
        ensures b == a
      {
        if b != a {
          SameKeyMovesABar(a, b);
        }
      }
    } else {
      var i: nat, t: nat :| i < |a| && t < |a[i]| && a[i][t] == '|' &&
        !((i + 1 < |a| ==> t == 0) && (i > 0 ==> t == |a[i]| - 1));
      ShiftedJoins(a, i, t);
      var b := Shifted(a, i, t);
      assert |b| == |a| && JoinKey(b) == JoinKey(a);
      assert NonEmpty(b);
    }
  }

  /** The binding that gives each of the placeholders its value. */
  function Binding(keys: seq<string>, values: seq<string>): map<string, string>
    requires |keys| == |values|
  {
    if keys == [] then map[]
    else
      var n := |keys| - 1;
      Binding(keys[..n], values[..n])[keys[n] := values[n]]
  }

  lemma {:induction false} KeyValuesAre(keys: seq<string>, binds: map<string, string>, values: seq<string>)
    requires |keys| == |values| && NonEmpty(values)
    requires forall i :: 0 <= i < |keys| ==> keys[i] in binds && binds[keys[i]] == values[i]
    ensures KeyValues(keys, binds) == Some(values)
  {
    if keys != [] {
      var n := |keys| - 1;
      KeyValuesAre(keys[..n], binds, values[..n]);
      assert values == values[..n] + [values[n]];
    }
  }

  lemma {:induction false} BindingBinds(keys: seq<string>, values: seq<string>)
    requires |keys| == |values| && forall i, j :: 0 <= i < j < |keys| ==> keys[i] != keys[j]
    ensures forall i :: 0 <= i < |keys| ==>
        keys[i] in Binding(keys, values) && Binding(keys, values)[keys[i]] == values[i]
  {
    if keys != [] {
      BindingBinds(keys[..|keys| - 1], values[..|keys| - 1]);
    }
  }

  /** Whatever else an event binds, other join values mean another key. */
  ghost predicate KeyTells(r: Rule, binds: map<string, string>) {
    forall other :: GroupKeyOf(r, other) == GroupKeyOf(r, binds) ==>
        KeyValues(r.keys, other) == KeyValues(r.keys, binds)
  }

  /** Events with other join values are filed under other keys when the bars in the values are
      fixed, as they are when there are none; and only then, for a rule that does not list a
      placeholder twice. */
  lemma {:induction false} DifferentValuesDifferentKeys(r: Rule, binds: map<string, string>)
    requires r.keys != [] && KeyValues(r.keys, binds).Some?
    ensures FixedBars(KeyValues(r.keys, binds).value) ==> KeyTells(r, binds)
    ensures (forall i, j :: 0 <= i < j < |r.keys| ==> r.keys[i] != r.keys[j]) ==>
      (KeyTells(r, binds) <==> FixedBars(KeyValues(r.keys, binds).value))
  {
    var a := KeyValues(r.keys, binds).value;
    hide JoinKey, KeyValues, FixedBars;
    KeyTellsIffFixedBars(a);
    if FixedBars(a) {
      forall other | GroupKeyOf(r, other) == GroupKeyOf(r, binds)
        ensures KeyValues(r.keys, other) == KeyValues(r.keys, binds)
      {
        var b := KeyValues(r.keys, other).value;
        assert |b| == |a| && NonEmpty(b) && JoinKey(b) == JoinKey(a);
      }
    } else if forall i, j :: 0 <= i < j < |r.keys| ==> r.keys[i] != r.keys[j] {
      var b :| |b| == |a| && NonEmpty(b) && JoinKey(b) == JoinKey(a) && b != a;
      var other := Binding(r.keys, b);
      BindingBinds(r.keys, b);
      KeyValuesAre(r.keys, other, b);
      assert GroupKeyOf(r, other) == GroupKeyOf(r, binds);
    }
  }

  /** With a bar in a value two different joins are counted together. */
  lemma BarsCollide()
    ensures JoinKey(["a|b", "c"]) == JoinKey(["a", "b|c"])
  {
    assert ["a|b", "c"][..1] == ["a|b"] && ["a", "b|c"][..1] == ["a"];
    assert "a|b" + "|" + "c" == "a" + "|" + "b|c";
  }
}
