/** File-integrity monitoring: `agent/fim.go`, lines 14-62.

    Each scan is compared with the one before it.  The loop ranges over maps in arbitrary
    order. */
module Fim {
  import opened Wrappers

  datatype FileState = FileState(sha: string, size: int)

  type Scan = map<string, FileState>

  datatype Kind = Created | Modified | Deleted

  datatype Event = Event(path: string, kind: Kind, sha: string, size: int)

  const NO_FILE := FileState("", 0)

  /** The event a path gives rise to; on the first scan new files are not reported. */
  function EventFor(prev: Scan, cur: Scan, first: bool, path: string): Option<Event> {
    if path in cur then
      if path !in prev then
        if first then None else Some(Event(path, Created, cur[path].sha, cur[path].size))
      else if prev[path].sha != cur[path].sha then Some(Event(path, Modified, cur[path].sha, cur[path].size))
      else None
    else if path in prev then Some(Event(path, Deleted, NO_FILE.sha, NO_FILE.size))
    else None
  }

  /** The events of a scan in some order: one for each path that has one, and no others. */
  ghost predicate Reports(events: seq<Event>, prev: Scan, cur: Scan, first: bool) {
    && (forall e :: e in events <==> EventFor(prev, cur, first, e.path) == Some(e))
    && (forall i, j :: 0 <= i < j < |events| ==> events[i].path != events[j].path)
  }

  /** Those of the paths in `done`. */
  ghost predicate ReportsOn(done: set<string>, events: seq<Event>, prev: Scan, cur: Scan, first: bool) {
    && (forall e :: e in events <==> e.path in done && EventFor(prev, cur, first, e.path) == Some(e))
    && (forall i, j :: 0 <= i < j < |events| ==> events[i].path != events[j].path)
  }

  lemma ReportMore(done: set<string>, events: seq<Event>, prev: Scan, cur: Scan, first: bool, path: string)
    requires ReportsOn(done, events, prev, cur, first) && path !in done
    ensures var e := EventFor(prev, cur, first, path);
      ReportsOn(done + {path}, if e.Some? then events + [e.value] else events, prev, cur, first)
  {
    var e := EventFor(prev, cur, first, path);
    assert forall i :: 0 <= i < |events| ==> events[i] in events;
    if e.Some? {
      assert e.value.path == path;
    }
  }

  class Monitor {
    var prev: Scan
    var first: bool

    constructor ()
      ensures prev == map[] && first
    {
      prev := map[];
      first := true;
    }

    /** One turn of the loop on a scan of the watched paths. */
    method Turn(cur: Scan) returns (events: seq<Event>)
      modifies this
      ensures Reports(events, old(prev), cur, old(first))
      ensures prev == cur && !first
    {
      events := [];
      var left := cur.Keys;
      ghost var done: set<string> := {};
      while left != {}
        invariant done !! left && done + left == cur.Keys && prev == old(prev) && first == old(first)
        invariant ReportsOn(done, events, prev, cur, first)
        decreases left
      {
        var path :| path in left;
        var st := cur[path];
        ReportMore(done, events, prev, cur, first, path);
        if path !in prev {
          if !first {
            events := events + [Event(path, Created, st.sha, st.size)];
          }
        } else if prev[path].sha != st.sha {
          events := events + [Event(path, Modified, st.sha, st.size)];
        }
        left, done := left - {path}, done + {path};
      }
      left := prev.Keys;
      ghost var gone: set<string> := {};
      while left != {}
        invariant gone !! left && gone + left == prev.Keys && prev == old(prev) && first == old(first)
        invariant ReportsOn(cur.Keys + gone, events, prev, cur, first)
        decreases left
      {
        var path :| path in left;
        if path !in cur {
          ReportMore(cur.Keys + gone, events, prev, cur, first, path);
          events := events + [Event(path, Deleted, "", 0)];
        }
        assert cur.Keys + (gone + {path}) == if path in cur then cur.Keys + gone else cur.Keys + gone + {path};
        left, gone := left - {path}, gone + {path};
      }
      prev := cur;
      first := false;
    }
  }

  // ---------------------------------------------------------------- replaying events

  function Hashes(s: Scan): map<string, string> {
    map path | path in s :: s[path].sha
  }

  function Apply(h: map<string, string>, e: Event): map<string, string> {
    match e.kind
    case Deleted => h - {e.path}
    case _ => h[e.path := e.sha]
  }

  function Replay(h: map<string, string>, events: seq<Event>): map<string, string> {
    if events == [] then h else Apply(Replay(h, events[..|events| - 1]), events[|events| - 1])
  }

  function At(h: map<string, string>, path: string): Option<string> {
    if path in h then Some(h[path]) else None
  }

  /** A path without an event keeps its hash; a path with one gets that event's. */
  lemma {:induction false} ReplayAt(h: map<string, string>, events: seq<Event>, path: string)
    requires forall i, j :: 0 <= i < j < |events| ==> events[i].path != events[j].path
    ensures (forall i :: 0 <= i < |events| ==> events[i].path != path) ==> At(Replay(h, events), path) == At(h, path)
    ensures forall i :: 0 <= i < |events| && events[i].path == path ==>
      At(Replay(h, events), path) == if events[i].kind == Deleted then None else Some(events[i].sha)
  {
    if events != [] {
      var n := |events| - 1;
      ReplayAt(h, events[..n], path);
      assert forall i :: 0 <= i < n ==> events[..n][i] == events[i];
    }
  }

  /** The events of a scan, in any order, turn the previous hashes into the current ones. */
  lemma {:induction false} ReplayGivesScan(events: seq<Event>, prev: Scan, cur: Scan)
    requires Reports(events, prev, cur, false)
    ensures Replay(Hashes(prev), events) == Hashes(cur)
  {
    var r := Replay(Hashes(prev), events);
    forall path
      ensures At(r, path) == At(Hashes(cur), path)
    {
      ReplayAt(Hashes(prev), events, path);
      var e := EventFor(prev, cur, false, path);
      if e.Some? {
        assert e.value in events;
        var i :| 0 <= i < |events| && events[i] == e.value;
        assert events[i].path == path;
      } else {
        forall i | 0 <= i < |events|
          ensures events[i].path != path
        {
          assert events[i] in events;
        }
      }
    }
    SameEverywhere(r, Hashes(cur));
  }

  lemma SameEverywhere(a: map<string, string>, b: map<string, string>)
    requires forall path :: At(a, path) == At(b, path)
    ensures a == b
  {
    assert forall path :: path in a ==> At(a, path) == At(b, path);
    assert forall path :: path in b ==> At(a, path) == At(b, path);
  }

  /** A scan reports a path, once, exactly when its hash or its presence differs, and the kind
      of the event says which. */
  lemma {:induction false} ExactlyTheDifferences(events: seq<Event>, prev: Scan, cur: Scan)
    requires Reports(events, prev, cur, false)
    ensures forall path ::
      (exists i :: 0 <= i < |events| && events[i].path == path) <==>
        if path in prev && path in cur then prev[path].sha != cur[path].sha else path in prev || path in cur
    ensures forall i, j :: 0 <= i < j < |events| ==> events[i].path != events[j].path
    ensures forall e :: e in events ==>
      && (e.kind == Created <==> e.path !in prev) && (e.kind == Deleted <==> e.path !in cur)
      && FileState(e.sha, e.size) == if e.path in cur then cur[e.path] else FileState("", 0)
  {
    forall path
      ensures (exists i :: 0 <= i < |events| && events[i].path == path) <==>
        if path in prev && path in cur then prev[path].sha != cur[path].sha else path in prev || path in cur
    {
      var e := EventFor(prev, cur, false, path);
      assert forall i :: 0 <= i < |events| ==> events[i] in events;
      if e.Some? {
        assert e.value in events;
      }
    }
  }

  // ---------------------------------------------------------------- runs of scans

  /** The events of turns 1, 2, ... on the scans that follow the first. */
  ghost predicate RunReports(scans: seq<Scan>, reports: seq<seq<Event>>) {
    |reports| == |scans| && forall i :: 0 < i < |scans| ==> Reports(reports[i], scans[i - 1], scans[i], false)
  }

  function Flatten(reports: seq<seq<Event>>): seq<Event> {
    if reports == [] then [] else Flatten(reports[..|reports| - 1]) + reports[|reports| - 1]
  }

  lemma {:induction false} ReplayConcat(h: map<string, string>, a: seq<Event>, b: seq<Event>)
    ensures Replay(h, a + b) == Replay(Replay(h, a), b)
  {
    if b == [] {
      assert a + b == a;
    } else {
      var n := |b| - 1;
      ReplayConcat(h, a, b[..n]);
      assert (a + b)[..|a| + n] == a + b[..n];
    }
  }

  /** Replaying everything reported after the first scan onto the first scan's hashes gives the
      latest scan's hashes. */
  lemma {:induction false} ReplayGivesLatest(scans: seq<Scan>, reports: seq<seq<Event>>)
    requires scans != [] && RunReports(scans, reports)
    ensures Replay(Hashes(scans[0]), Flatten(reports[1..])) == Hashes(scans[|scans| - 1])
  {
    var n := |scans| - 1;
    if n == 0 {
      assert reports[1..] == [];
    } else {
      ReplayGivesLatest(scans[..n], reports[..n]);
      var later := reports[1..];
      assert later[..|later| - 1] == reports[..n][1..];
      ReplayConcat(Hashes(scans[0]), Flatten(reports[..n][1..]), reports[n]);
      ReplayGivesScan(reports[n], scans[n - 1], scans[n]);
    }
  }

  /** The first turn of a fresh monitor reports nothing. */
  lemma FirstTurnIsSilent(events: seq<Event>, cur: Scan)
    requires Reports(events, map[], cur, true)
    ensures events == []
  {
    if events != [] {
      var path := SomeReported(events, map[], cur, true);
    }
  }

  lemma SomeReported(events: seq<Event>, prev: Scan, cur: Scan, first: bool) returns (path: string)
    requires Reports(events, prev, cur, first) && events != []
    ensures EventFor(prev, cur, first, path).Some?
  {
    assert events[0] in events;
    path := events[0].path;
  }

  /** Feeding a run of scans to a fresh monitor. */
  method Watch(scans: seq<Scan>) returns (reports: seq<seq<Event>>)
    ensures RunReports(scans, reports) && (scans != [] ==> reports[0] == [])
  {
    var m := new Monitor();
    reports := [];
    for i := 0 to |scans|
      invariant |reports| == i && fresh(m)
      invariant i == 0 ==> m.prev == map[] && m.first
      invariant i > 0 ==> m.prev == scans[i - 1] && !m.first && reports[0] == []
      invariant forall k :: 0 < k < i ==> Reports(reports[k], scans[k - 1], scans[k], false)
    {
      var events := m.Turn(scans[i]);
      if i == 0 {
        FirstTurnIsSilent(events, scans[0]);
      }
      reports := reports + [events];
    }
  }
}
