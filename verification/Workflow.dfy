/** The workflow walk: `backend/app/services/workflow_engine.py`, lines 270-341.

    A breadth-first walk over an arbitrary, possibly cyclic graph, with branch handles and
    stop on failure.  What an executor returns is an arbitrary function of the node. */
module Workflow {
  import opened Wrappers
  import Sorting

  datatype Node = Node(id: string, kind: string)

  /** An edge leaves a node through an optional handle. */
  datatype Edge = Edge(source: string, handle: Option<string>, target: string)

  datatype Result = Result(ok: bool, branch: Option<string>)

  datatype Outcome = Returned(result: Result) | Raised

  /** The node kinds that have an executor, and what the executors do. */
  datatype Engine = Engine(executors: set<string>, run: Node -> Outcome)

  datatype Entry = Executed(id: string, kind: string, result: Result) | NothingToRun

  datatype Graph = Graph(nodes: seq<Node>, edges: seq<Edge>, engine: Engine)

  const FAILED := Result(false, None)

  function ResultOf(engine: Engine, n: Node): Result {
    if n.kind !in engine.executors then FAILED
    else
      match engine.run(n)
      case Returned(r) => r
      case Raised => FAILED
  }

  // ---------------------------------------------------------------- looking nodes up

  /** The first trigger, or else the first node. */
  function StartOf(nodes: seq<Node>): Node
    requires nodes != []
  {
    var i := FirstTrigger(nodes);
    if i < |nodes| then nodes[i] else nodes[0]
  }

  function FirstTrigger(nodes: seq<Node>): (i: nat)
    ensures i <= |nodes| && (i < |nodes| ==> "trigger." <= nodes[i].kind)
    ensures forall j :: 0 <= j < i ==> !("trigger." <= nodes[j].kind)
  {
    if nodes == [] || "trigger." <= nodes[0].kind then 0 else 1 + FirstTrigger(nodes[1..])
  }

  /** The first node whose kind begins with `trigger.`, or the first of all if there is none. */
  predicate StartsAt(nodes: seq<Node>, i: nat) {
    && i < |nodes|
    && (forall j :: 0 <= j < i ==> !("trigger." <= nodes[j].kind))
    && ("trigger." <= nodes[i].kind || (i == 0 && forall j :: 0 <= j < |nodes| ==> !("trigger." <= nodes[j].kind)))
  }

  lemma StartIs(nodes: seq<Node>, i: nat)
    requires StartsAt(nodes, i)
    ensures StartOf(nodes) == nodes[i]
  {
    var f := FirstTrigger(nodes);
    if "trigger." <= nodes[i].kind {
      NotPast(nodes, i);
    }
  }

  lemma {:induction false} NotPast(nodes: seq<Node>, i: nat)
    requires i < |nodes| && "trigger." <= nodes[i].kind
    ensures FirstTrigger(nodes) <= i
  {
    if i > 0 {
      NotPast(nodes[1..], i - 1);
    }
  }

  method FindStartNode(nodes: seq<Node>) returns (start: Option<Node>)
    ensures nodes == [] <==> start == None
    ensures nodes != [] ==>
      start.value == StartOf(nodes) && exists i: nat :: StartsAt(nodes, i) && start.value == nodes[i]
  {
    for i := 0 to |nodes|
      invariant forall j :: 0 <= j < i ==> !("trigger." <= nodes[j].kind)
    {
      if "trigger." <= nodes[i].kind {
        assert StartsAt(nodes, i);
        StartIs(nodes, i);
        return Some(nodes[i]);
      }
    }
    if nodes != [] {
      assert StartsAt(nodes, 0);
      StartIs(nodes, 0);
    }
    start := if nodes != [] then Some(nodes[0]) else None;
  }

  /** Nodes by id; when an id is repeated the last node of that id stands. */
  function ById(nodes: seq<Node>): (m: map<string, Node>)
    ensures forall id :: id in m ==> m[id].id == id
    ensures forall n :: n in nodes ==> n.id in m
  {
    if nodes == [] then map[] else ById(nodes[..|nodes| - 1])[nodes[|nodes| - 1].id := nodes[|nodes| - 1]]
  }

  // ---------------------------------------------------------------- the graph that results

  /** The node that runs under an id: the start node itself, or the one found by id. */
  function NodeAt(g: Graph, id: string): Node
    requires id in ById(g.nodes)
  {
    if id == StartOf(g.nodes).id then StartOf(g.nodes) else ById(g.nodes)[id]
  }

  function ResultAt(g: Graph, id: string): Result
    requires id in ById(g.nodes)
  {
    ResultOf(g.engine, NodeAt(g, id))
  }

  /** The walk goes on from a node that succeeded or is a condition. */
  predicate Proceeds(g: Graph, id: string)
    requires id in ById(g.nodes)
  {
    ResultAt(g, id).ok || NodeAt(g, id).kind == "logic.condition"
  }

  predicate Agrees(handle: Option<string>, branch: Option<string>) {
    branch.None? || handle.None? || handle == branch
  }

  /** The edges the results enable. */
  predicate Enabled(g: Graph, u: string, v: string) {
    var m := ById(g.nodes);
    && u in m && v in m && Proceeds(g, u)
    && exists e :: e in g.edges && e.source == u && e.target == v && Agrees(e.handle, ResultAt(g, u).branch)
  }

  ghost predicate PathTo(g: Graph, v: string, n: nat)
    requires g.nodes != []
    decreases n
  {
    if n == 0 then v == StartOf(g.nodes).id else exists u :: PathTo(g, u, n - 1) && Enabled(g, u, v)
  }

  ghost predicate Reachable(g: Graph, v: string)
    requires g.nodes != []
  {
    exists n: nat :: PathTo(g, v, n)
  }

  ghost predicate Distance(g: Graph, v: string, n: nat)
    requires g.nodes != []
  {
    PathTo(g, v, n) && forall m: nat :: m < n ==> !PathTo(g, v, m)
  }

  // ---------------------------------------------------------------- successors

  predicate Follows(e: Edge, id: string, branch: Option<string>, m: map<string, Node>) {
    e.source == id && Agrees(e.handle, branch) && e.target in m
  }

  function Successors(id: string, branch: Option<string>, m: map<string, Node>, edges: seq<Edge>): seq<Node> {
    if edges == [] then []
    else
      var before, e := Successors(id, branch, m, edges[..|edges| - 1]), edges[|edges| - 1];
      if Follows(e, id, branch, m) then before + [m[e.target]] else before
  }

  /** The positions of the edges that lead on. */
  function Picked(id: string, branch: Option<string>, m: map<string, Node>, edges: seq<Edge>): (r: seq<nat>)
    ensures forall k :: 0 <= k < |r| ==> r[k] < |edges|
    ensures forall i, j :: 0 <= i < j < |r| ==> r[i] < r[j]
  {
    if edges == [] then []
    else
      var n := |edges| - 1;
      Picked(id, branch, m, edges[..n]) + if Follows(edges[n], id, branch, m) then [n] else []
  }

  /** In edge order, the known targets of the edges from `id` whose handle, if both there are, is
      the branch. */
  method NextNodes(id: string, branch: Option<string>, m: map<string, Node>, edges: seq<Edge>)
    returns (out: seq<Node>)
    ensures out == Successors(id, branch, m, edges)
  {
    out := [];
    for i := 0 to |edges|
      invariant out == Successors(id, branch, m, edges[..i])
    {
      var e := edges[i];
      assert edges[..i + 1][..i] == edges[..i];
      if e.source != id {
        continue;
      }
      if branch.Some? && e.handle.Some? && e.handle != branch {
        continue;
      }
      if e.target in m {
        out := out + [m[e.target]];
      }
    }
    assert edges[..|edges|] == edges;
  }

  lemma {:induction false} PickedAre(id: string, branch: Option<string>, m: map<string, Node>, edges: seq<Edge>, e: nat)
    ensures e in Picked(id, branch, m, edges) <==> e < |edges| && Follows(edges[e], id, branch, m)
  {
    hide Follows;
    if edges != [] {
      PickedAre(id, branch, m, edges[..|edges| - 1], e);
    }
  }

  lemma {:induction false} SuccessorsInOrder(id: string, branch: Option<string>, m: map<string, Node>, edges: seq<Edge>)
    ensures |Successors(id, branch, m, edges)| == |Picked(id, branch, m, edges)|
    ensures forall k :: 0 <= k < |Picked(id, branch, m, edges)| ==>
      var e := edges[Picked(id, branch, m, edges)[k]];
      e.target in m && Successors(id, branch, m, edges)[k] == m[e.target]
  {
    if edges != [] {
      var n := |edges| - 1;
      SuccessorsInOrder(id, branch, m, edges[..n]);
      LastSuccessor(id, branch, m, edges);
      hide Successors, Picked, Follows;
      var before, all := Picked(id, branch, m, edges[..n]), Picked(id, branch, m, edges);
      forall k | 0 <= k < |all|
        ensures var e := edges[all[k]];
          e.target in m && Successors(id, branch, m, edges)[k] == m[e.target]
      {
        if k < |before| {
          assert edges[..n][before[k]] == edges[all[k]];
        }
      }
    }
  }

  lemma LastSuccessor(id: string, branch: Option<string>, m: map<string, Node>, edges: seq<Edge>)
    requires edges != []
    ensures var n := |edges| - 1;
      if Follows(edges[n], id, branch, m) then
        && edges[n].target in m
        && Successors(id, branch, m, edges) == Successors(id, branch, m, edges[..n]) + [m[edges[n].target]]
        && Picked(id, branch, m, edges) == Picked(id, branch, m, edges[..n]) + [n]
      else
        && Successors(id, branch, m, edges) == Successors(id, branch, m, edges[..n])
        && Picked(id, branch, m, edges) == Picked(id, branch, m, edges[..n])
  {
  }

  lemma {:induction false} SuccessorsAre(id: string, branch: Option<string>, m: map<string, Node>, edges: seq<Edge>)
    requires forall k :: k in m ==> m[k].id == k
    ensures forall i :: 0 <= i < |Successors(id, branch, m, edges)| ==>
      var n := Successors(id, branch, m, edges)[i];
      n.id in m && n == m[n.id] && exists e :: e in edges && e.target == n.id && Follows(e, id, branch, m)
    ensures forall e :: e in edges && Follows(e, id, branch, m) ==>
      exists i :: 0 <= i < |Successors(id, branch, m, edges)| && Successors(id, branch, m, edges)[i].id == e.target
  {
    if edges != [] {
      var before, e := edges[..|edges| - 1], edges[|edges| - 1];
      SuccessorsAre(id, branch, m, before);
      assert edges == before + [e];
      var old_, all := Successors(id, branch, m, before), Successors(id, branch, m, edges);
      assert forall i :: 0 <= i < |old_| ==> all[i] == old_[i];
      if Follows(e, id, branch, m) {
        assert all[|old_|] == m[e.target];
      }
    }
  }

  // ---------------------------------------------------------------- the order of the log

  /** A log position and an edge position: the edge through which the node logged there leads on. */
  type Lead = (nat, nat)

  predicate Before(a: Lead, b: Lead) {
    a.0 < b.0 || (a.0 == b.0 && a.1 < b.1)
  }

  /** The edge leads on from a node logged like this. */
  ghost predicate LeadsFrom(g: Graph, entry: Entry, e: Edge) {
    && entry.Executed? && e.source == entry.id
    && (exists n :: n in g.nodes && n.id == e.target)
    && (entry.result.ok || entry.kind == "logic.condition")
    && (entry.result.branch.None? || e.handle.None? || entry.result.branch == e.handle)
  }

  ghost predicate Leads(g: Graph, log: seq<Entry>, l: Lead) {
    l.0 < |log| && l.1 < |g.edges| && LeadsFrom(g, log[l.0], g.edges[l.1])
  }

  /** The node at j was reached through `leads[j]`, and through nothing before that. */
  ghost predicate ReachedBy(g: Graph, log: seq<Entry>, leads: seq<Lead>) {
    && |leads| == |log|
    && (forall j :: 1 <= j < |log| ==>
          Leads(g, log, leads[j]) && leads[j].0 < j && log[j].Executed? && g.edges[leads[j].1].target == log[j].id)
    && (forall j, k :: 1 <= j < k < |log| ==> Before(leads[j], leads[k]))
  }

  predicate IsEntryOf(entry: Entry, id: string) {
    entry.Executed? && entry.id == id
  }

  ghost predicate LoggedBy(g: Graph, log: seq<Entry>, leads: seq<Lead>, l: Lead)
    requires |leads| == |log| && l.1 < |g.edges|
  {
    exists j :: 0 <= j < |log| && IsEntryOf(log[j], g.edges[l.1].target) && (j == 0 || !Before(l, leads[j]))
  }

  /** The log lists the start node, then the nodes that edges lead to in the order of the log
      itself and, from one node, in edge order. */
  ghost predicate InOrder(g: Graph, log: seq<Entry>, leads: seq<Lead>) {
    && ReachedBy(g, log, leads)
    && forall l: Lead :: Leads(g, log, l) ==> LoggedBy(g, log, leads, l)
  }

  /** Each queued node is the target of its lead. */
  ghost predicate QueueLed(g: Graph, log: seq<Entry>, queue: seq<Node>, qleads: seq<Lead>) {
    && |qleads| == |queue|
    && forall k :: 0 <= k < |queue| ==> Leads(g, log, qleads[k]) && g.edges[qleads[k].1].target == queue[k].id
  }

  predicate LeadsSorted(leads: seq<Lead>, qleads: seq<Lead>) {
    && (forall i, k :: 0 <= i < k < |qleads| ==> Before(qleads[i], qleads[k]))
    && (forall j, k :: 1 <= j < |leads| && 0 <= k < |qleads| ==> Before(leads[j], qleads[k]))
  }

  /** Every node that an edge leads to from the log is logged in time or waits for its turn. */
  ghost predicate NoneMissed(g: Graph, log: seq<Entry>, leads: seq<Lead>, qleads: seq<Lead>)
    requires |leads| == |log|
  {
    forall l: Lead :: Leads(g, log, l) ==> LoggedBy(g, log, leads, l) || l in qleads
  }

  ghost predicate Ordering(g: Graph, log: seq<Entry>, leads: seq<Lead>, queue: seq<Node>, qleads: seq<Lead>) {
    && ReachedBy(g, log, leads) && |qleads| == |queue|
    && (log == [] ==> |queue| == 1)
    && (log != [] ==> QueueLed(g, log, queue, qleads) && LeadsSorted(leads, qleads))
    && NoneMissed(g, log, leads, qleads)
  }

  lemma QueueTail(g: Graph, log: seq<Entry>, leads: seq<Lead>, queue: seq<Node>, qleads: seq<Lead>)
    requires queue != [] && QueueLed(g, log, queue, qleads) && LeadsSorted(leads, qleads)
    ensures QueueLed(g, log, queue[1..], qleads[1..]) && LeadsSorted(leads, qleads[1..])
  {
    hide Leads, Before;
  }

  lemma MissedTail(g: Graph, log: seq<Entry>, leads: seq<Lead>, qleads: seq<Lead>)
    requires |leads| == |log| && qleads != [] && NoneMissed(g, log, leads, qleads)
    requires qleads[0].1 < |g.edges| && LoggedBy(g, log, leads, qleads[0])
    ensures NoneMissed(g, log, leads, qleads[1..])
  {
    hide LoggedBy, LeadsFrom;
    assert qleads == [qleads[0]] + qleads[1..];
  }

  lemma OrderingSkip(g: Graph, log: seq<Entry>, leads: seq<Lead>, queue: seq<Node>, qleads: seq<Lead>)
    requires Ordering(g, log, leads, queue, qleads) && queue != []
    requires exists j :: 0 <= j < |log| && IsEntryOf(log[j], queue[0].id)
    ensures Ordering(g, log, leads, queue[1..], qleads[1..])
  {
    assert |leads| == |log| && log != [];
    HeadIsLogged(g, log, leads, queue, qleads);
    hide LoggedBy, QueueLed, LeadsSorted, ReachedBy, NoneMissed, LeadsFrom;
    QueueTail(g, log, leads, queue, qleads);
    MissedTail(g, log, leads, qleads);
  }

  lemma HeadIsLogged(g: Graph, log: seq<Entry>, leads: seq<Lead>, queue: seq<Node>, qleads: seq<Lead>)
    requires Ordering(g, log, leads, queue, qleads) && queue != []
    requires exists j :: 0 <= j < |log| && IsEntryOf(log[j], queue[0].id)
    ensures Leads(g, log, qleads[0]) && LoggedBy(g, log, leads, qleads[0])
  {
    hide LeadsFrom;
    var j :| 0 <= j < |log| && IsEntryOf(log[j], queue[0].id);
    assert j == 0 || Before(leads[j], qleads[0]);
  }

  lemma OrderingBegins(g: Graph, start: Node)
    ensures Ordering(g, [], [], [start], [(0, 0)])
  {
  }

  lemma OrderingEnds(g: Graph, log: seq<Entry>, leads: seq<Lead>)
    requires Ordering(g, log, leads, [], [])
    ensures log != [] && InOrder(g, log, leads)
  {
  }

  /** The edges that lead on from a node just logged at position i. */
  function NextLeads(i: nat, picked: seq<nat>): (s: seq<Lead>)
    ensures |s| == |picked| && forall k :: 0 <= k < |s| ==> s[k] == (i, picked[k])
  {
    seq(|picked|, k requires 0 <= k < |picked| => (i, picked[k]))
  }

  lemma OrderingTake(g: Graph, log: seq<Entry>, leads: seq<Lead>, queue: seq<Node>, qleads: seq<Lead>, entry: Entry,
                     next: seq<Node>, picked: seq<nat>)
    requires Ordering(g, log, leads, queue, qleads) && queue != [] && entry.Executed? && entry.id == queue[0].id
    requires |next| == |picked| && forall i, j :: 0 <= i < j < |picked| ==> picked[i] < picked[j]
    requires forall k :: 0 <= k < |next| ==>
      Leads(g, log + [entry], (|log|, picked[k])) && g.edges[picked[k]].target == next[k].id
    requires forall e: nat :: Leads(g, log + [entry], (|log|, e)) ==> e in picked
    ensures Ordering(g, log + [entry], leads + [qleads[0]], queue[1..] + next, qleads[1..] + NextLeads(|log|, picked))
  {
    hide LeadsFrom, LoggedBy, NoneMissed;
    OrderingTakeReached(g, log, leads, queue, qleads, entry);
    OrderingTakeSorted(g, log, leads, queue, qleads, picked);
    MissedTake(g, log, leads, qleads, entry, picked);
    hide ReachedBy, LeadsSorted;
    var queue', qleads' := queue[1..] + next, qleads[1..] + NextLeads(|log|, picked);
    forall k | 0 <= k < |queue'|
      ensures Leads(g, log + [entry], qleads'[k]) && g.edges[qleads'[k].1].target == queue'[k].id
    {
      if k < |queue| - 1 {
        assert queue'[k] == queue[k + 1] && qleads'[k] == qleads[k + 1];
      }
    }
  }

  lemma OrderingTakeReached(g: Graph, log: seq<Entry>, leads: seq<Lead>, queue: seq<Node>, qleads: seq<Lead>,
                            entry: Entry)
    requires Ordering(g, log, leads, queue, qleads) && queue != [] && entry.Executed? && entry.id == queue[0].id
    ensures ReachedBy(g, log + [entry], leads + [qleads[0]])
  {
    hide LeadsFrom, NoneMissed;
    var log', leads' := log + [entry], leads + [qleads[0]];
    forall j | 1 <= j < |log'|
      ensures Leads(g, log', leads'[j]) && leads'[j].0 < j && log'[j].Executed?
      ensures g.edges[leads'[j].1].target == log'[j].id
    {
    }
  }

  lemma OrderingTakeSorted(g: Graph, log: seq<Entry>, leads: seq<Lead>, queue: seq<Node>, qleads: seq<Lead>,
                           picked: seq<nat>)
    requires Ordering(g, log, leads, queue, qleads) && queue != []
    requires forall i, j :: 0 <= i < j < |picked| ==> picked[i] < picked[j]
    ensures LeadsSorted(leads + [qleads[0]], qleads[1..] + NextLeads(|log|, picked))
  {
    hide NoneMissed, LeadsFrom;
    var leads', qleads' := leads + [qleads[0]], qleads[1..] + NextLeads(|log|, picked);
    assert forall k :: 0 <= k < |qleads'| ==>
      qleads'[k] == if k < |qleads| - 1 then qleads[k + 1] else (|log|, picked[k - |qleads| + 1]);
    assert forall j :: 0 <= j < |leads'| ==> leads'[j] == if j < |leads| then leads[j] else qleads[0];
    assert log != [] ==> forall k :: 0 <= k < |qleads| ==> qleads[k].0 < |log|;
  }

  lemma LoggedLater(g: Graph, log: seq<Entry>, leads: seq<Lead>, entry: Entry, lead: Lead, l: Lead)
    requires |leads| == |log| && l.1 < |g.edges| && LoggedBy(g, log, leads, l)
    ensures LoggedBy(g, log + [entry], leads + [lead], l)
  {
    hide Before;
    var j :| 0 <= j < |log| && IsEntryOf(log[j], g.edges[l.1].target) && (j == 0 || !Before(l, leads[j]));
    assert (log + [entry])[j] == log[j] && (leads + [lead])[j] == leads[j];
  }

  lemma LoggedNow(g: Graph, log: seq<Entry>, leads: seq<Lead>, entry: Entry, l: Lead)
    requires |leads| == |log| && l.1 < |g.edges| && IsEntryOf(entry, g.edges[l.1].target)
    ensures LoggedBy(g, log + [entry], leads + [l], l)
  {
    assert (log + [entry])[|log|] == entry && (leads + [l])[|log|] == l;
  }

  lemma MissedTake(g: Graph, log: seq<Entry>, leads: seq<Lead>, qleads: seq<Lead>, entry: Entry, picked: seq<nat>)
    requires |leads| == |log| && qleads != [] && NoneMissed(g, log, leads, qleads)
    requires log != [] ==> qleads[0].1 < |g.edges| && IsEntryOf(entry, g.edges[qleads[0].1].target)
    requires forall e: nat :: Leads(g, log + [entry], (|log|, e)) ==> e in picked
    ensures NoneMissed(g, log + [entry], leads + [qleads[0]], qleads[1..] + NextLeads(|log|, picked))
  {
    hide LeadsFrom, LoggedBy, IsEntryOf;
    var later := NextLeads(|log|, picked);
    assert qleads == [qleads[0]] + qleads[1..];
    forall l: Lead | Leads(g, log + [entry], l)
      ensures LoggedBy(g, log + [entry], leads + [qleads[0]], l) || l in qleads[1..] + later
    {
      if l.0 == |log| {
        var k :| 0 <= k < |picked| && picked[k] == l.1;
        assert later[k] == l;
      } else {
        assert Leads(g, log, l);
        if LoggedBy(g, log, leads, l) {
          LoggedLater(g, log, leads, entry, qleads[0], l);
        } else if l == qleads[0] {
          LoggedNow(g, log, leads, entry, l);
        }
      }
    }
  }

  /** The successors of a node just logged, with the positions of their edges. */
  lemma SuccessorsAreLed(g: Graph, log: seq<Entry>, entry: Entry, goesOn: bool, next: seq<Node>, picked: seq<nat>)
    requires entry.Executed? && (goesOn <==> entry.result.ok || entry.kind == "logic.condition")
    requires next == if goesOn then Successors(entry.id, entry.result.branch, ById(g.nodes), g.edges) else []
    requires picked == if goesOn then Picked(entry.id, entry.result.branch, ById(g.nodes), g.edges) else []
    ensures |next| == |picked| && forall i, j :: 0 <= i < j < |picked| ==> picked[i] < picked[j]
    ensures forall k :: 0 <= k < |next| ==>
      Leads(g, log + [entry], (|log|, picked[k])) && g.edges[picked[k]].target == next[k].id
    ensures forall e: nat :: Leads(g, log + [entry], (|log|, e)) ==> e in picked
  {
    hide Successors, Picked, ById;
    if goesOn {
      var m := ById(g.nodes);
      SuccessorsInOrder(entry.id, entry.result.branch, m, g.edges);
      forall e: nat | e in Picked(entry.id, entry.result.branch, m, g.edges)
                      || Leads(g, log + [entry], (|log|, e))
        ensures Leads(g, log + [entry], (|log|, e)) && e in Picked(entry.id, entry.result.branch, m, g.edges)
      {
        PickedAre(entry.id, entry.result.branch, m, g.edges, e);
        IdIsThere(g.nodes, if e < |g.edges| then g.edges[e].target else "");
      }
    }
  }

  // ---------------------------------------------------------------- the walk

  /** What the walk knows: the ids logged so far with their levels, and the queue with the
      level each entry was put there for. */
  ghost predicate LevelsReached(g: Graph, level: map<string, nat>, queue: seq<Node>, qlev: seq<nat>)
    requires g.nodes != []
  {
    && |qlev| == |queue|
    && (forall v :: v in level ==> v in ById(g.nodes) && PathTo(g, v, level[v]))
    && (forall i :: 0 <= i < |queue| ==> queue[i].id in ById(g.nodes) && PathTo(g, queue[i].id, qlev[i]))
  }

  /** The queue is in order of level, at most one level ahead of its head. */
  ghost predicate LevelsOrdered(level: map<string, nat>, qlev: seq<nat>) {
    && (forall i, j :: 0 <= i <= j < |qlev| ==> qlev[i] <= qlev[j] <= qlev[0] + 1)
    && (forall v, i :: v in level && 0 <= i < |qlev| ==> level[v] <= qlev[i])
  }

  ghost predicate Waiting(v: string, bound: nat, queue: seq<Node>, qlev: seq<nat>)
    requires |qlev| == |queue|
  {
    exists i :: 0 <= i < |queue| && queue[i].id == v && qlev[i] <= bound
  }

  /** Every successor of a logged node is logged or queued one level on. */
  ghost predicate Closed(g: Graph, level: map<string, nat>, queue: seq<Node>, qlev: seq<nat>)
    requires |qlev| == |queue|
  {
    forall u, v :: u in level && Enabled(g, u, v) ==>
      (v in level && level[v] <= level[u] + 1) || Waiting(v, level[u] + 1, queue, qlev)
  }

  /** The start node comes first, and every other queued node is the one found by its id. */
  ghost predicate QueueByIds(g: Graph, level: map<string, nat>, queue: seq<Node>)
    requires g.nodes != []
  {
    var start := StartOf(g.nodes);
    if start.id in level then forall i :: 0 <= i < |queue| ==>
        queue[i].id in ById(g.nodes) && queue[i] == ById(g.nodes)[queue[i].id]
    else level == map[] && queue == [start]
  }

  ghost predicate Walking(g: Graph, level: map<string, nat>, queue: seq<Node>, qlev: seq<nat>)
    requires g.nodes != []
  {
    && LevelsReached(g, level, queue, qlev) && LevelsOrdered(level, qlev)
    && Closed(g, level, queue, qlev) && QueueByIds(g, level, queue)
    && (StartOf(g.nodes).id in level ==> level[StartOf(g.nodes).id] == 0)
    && (level == map[] ==> qlev == [0])
  }

  /** Each log entry is a node's, with that node's result. */
  ghost predicate EntriesOk(g: Graph, log: seq<Entry>) {
    forall i :: 0 <= i < |log| ==>
      && log[i].Executed? && log[i].id in ById(g.nodes)
      && log[i] == Executed(log[i].id, NodeAt(g, log[i].id).kind, ResultAt(g, log[i].id))
  }

  function Ids(log: seq<Entry>): (s: seq<string>)
    requires forall i :: 0 <= i < |log| ==> log[i].Executed?
    ensures |s| == |log| && forall i :: 0 <= i < |log| ==> s[i] == log[i].id
  {
    seq(|log|, i requires 0 <= i < |log| => log[i].id)
  }

  /** The ids without repeats, in order of level, and all of them. */
  ghost predicate ByLevel(ids: seq<string>, level: map<string, nat>) {
    && (forall i :: 0 <= i < |ids| ==> ids[i] in level)
    && (forall i, j :: 0 <= i < j < |ids| ==> ids[i] != ids[j] && level[ids[i]] <= level[ids[j]])
    && (forall v :: v in level ==> v in ids)
  }

  ghost predicate LogOk(g: Graph, log: seq<Entry>, level: map<string, nat>) {
    EntriesOk(g, log) && ByLevel(Ids(log), level)
  }

  lemma StartIsThere(g: Graph)
    requires g.nodes != []
    ensures StartOf(g.nodes).id in ById(g.nodes)
  {
    assert StartOf(g.nodes) in g.nodes;
  }

  /** When the queue is empty, every path ends in a logged node no deeper than its length. */
  lemma {:induction false} PathsAreLogged(g: Graph, level: map<string, nat>, v: string, n: nat)
    requires g.nodes != [] && Closed(g, level, [], []) && PathTo(g, v, n)
    requires StartOf(g.nodes).id in level && level[StartOf(g.nodes).id] == 0
    ensures v in level && level[v] <= n
    decreases n
  {
    if n > 0 {
      var u :| PathTo(g, u, n - 1) && Enabled(g, u, v);
      PathsAreLogged(g, level, u, n - 1);
      assert !Waiting(v, level[u] + 1, [], []);
    }
  }

  lemma WalkBegins(g: Graph)
    requires g.nodes != []
    ensures StartOf(g.nodes).id in ById(g.nodes) && Walking(g, map[], [StartOf(g.nodes)], [0])
    ensures LogOk(g, [], map[])
  {
    StartIsThere(g);
  }

  /** What the walk knows at the end: the levels are the distances of the reachable nodes. */
  lemma WalkEnds(g: Graph, level: map<string, nat>)
    requires g.nodes != [] && Walking(g, level, [], [])
    ensures forall v :: v in level <==> Reachable(g, v)
    ensures forall v :: v in level ==> Distance(g, v, level[v])
  {
    forall v, n: nat | PathTo(g, v, n)
      ensures v in level && level[v] <= n
    {
      PathsAreLogged(g, level, v, n);
    }
  }

  lemma VisitedIsLogged(g: Graph, log: seq<Entry>, level: map<string, nat>, id: string)
    requires LogOk(g, log, level) && id in level
    ensures exists j :: 0 <= j < |log| && IsEntryOf(log[j], id)
  {
    var j :| 0 <= j < |Ids(log)| && Ids(log)[j] == id;
    assert IsEntryOf(log[j], id);
  }

  /** What the proof keeps beside the walk: the levels of the ids logged, what each log entry was
      reached by, and the same for the queue. */
  datatype Notes = Notes(level: map<string, nat>, leads: seq<Lead>, qlev: seq<nat>, qleads: seq<Lead>)

  ghost predicate WalkState(g: Graph, log: seq<Entry>, queue: seq<Node>, notes: Notes)
    requires g.nodes != []
  {
    && Walking(g, notes.level, queue, notes.qlev) && LogOk(g, log, notes.level)
    && Ordering(g, log, notes.leads, queue, notes.qleads)
    && if log == [] then queue == [StartOf(g.nodes)] else IsEntryOf(log[0], StartOf(g.nodes).id)
  }

  lemma StateBegins(g: Graph)
    requires g.nodes != []
    ensures WalkState(g, [], [StartOf(g.nodes)], Notes(map[], [], [0], [(0, 0)]))
  {
    hide Walking, LogOk, Ordering, StartOf;
    WalkBegins(g);
    OrderingBegins(g, StartOf(g.nodes));
  }

  lemma SameLengths(g: Graph, log: seq<Entry>, queue: seq<Node>, notes: Notes)
    requires g.nodes != [] && WalkState(g, log, queue, notes)
    ensures |notes.qlev| == |queue| == |notes.qleads|
  {
  }

  lemma StateSkip(g: Graph, log: seq<Entry>, queue: seq<Node>, notes: Notes) returns (more: Notes)
    requires g.nodes != [] && WalkState(g, log, queue, notes) && queue != [] && queue[0].id in notes.level
    ensures WalkState(g, log, queue[1..], more) && more.level == notes.level
  {
    SameLengths(g, log, queue, notes);
    hide Walking, LogOk, Ordering, StartOf, IsEntryOf;
    SkipVisited(g, notes.level, queue, notes.qlev);
    VisitedIsLogged(g, log, notes.level, queue[0].id);
    OrderingSkip(g, log, notes.leads, queue, notes.qleads);
    more := notes.(qlev := notes.qlev[1..], qleads := notes.qleads[1..]);
  }

  lemma WalkTake(g: Graph, log: seq<Entry>, level: map<string, nat>, queue: seq<Node>, qlev: seq<nat>, entry: Entry,
                 next: seq<Node>)
    requires g.nodes != [] && Walking(g, level, queue, qlev) && LogOk(g, log, level) && |qlev| == |queue|
    requires queue != [] && queue[0].id !in level
    requires entry == Executed(queue[0].id, queue[0].kind, ResultOf(g.engine, queue[0]))
    requires next == if entry.result.ok || entry.kind == "logic.condition"
                     then Successors(entry.id, entry.result.branch, ById(g.nodes), g.edges) else []
    ensures entry.id in ById(g.nodes) && LogOk(g, log + [entry], level[entry.id := qlev[0]])
    ensures Walking(g, level[entry.id := qlev[0]], queue[1..] + next, qlev[1..] + Deeper(qlev[0], |next|))
  {
    hide Walking, LogOk, StartOf, ById, Successors, ResultOf, NodeAt;
    HeadIsItsNode(g, level, queue, qlev);
    LogVisited(g, log, level, queue, qlev);
    TakeNode(g, level, queue, qlev, next);
  }

  lemma OrderTake(g: Graph, log: seq<Entry>, leads: seq<Lead>, queue: seq<Node>, qleads: seq<Lead>, entry: Entry,
                  next: seq<Node>) returns (picked: seq<nat>)
    requires Ordering(g, log, leads, queue, qleads) && queue != [] && |qleads| == |queue|
    requires IsEntryOf(entry, queue[0].id)
    requires next == if entry.result.ok || entry.kind == "logic.condition"
                     then Successors(entry.id, entry.result.branch, ById(g.nodes), g.edges) else []
    ensures Ordering(g, log + [entry], leads + [qleads[0]], queue[1..] + next, qleads[1..] + NextLeads(|log|, picked))
  {
    var goesOn := entry.result.ok || entry.kind == "logic.condition";
    picked := if goesOn then Picked(entry.id, entry.result.branch, ById(g.nodes), g.edges) else [];
    hide Ordering, ById, Successors, Picked, Leads;
    SuccessorsAreLed(g, log, entry, goesOn, next, picked);
    OrderingTake(g, log, leads, queue, qleads, entry, next, picked);
  }

  lemma StateTake(g: Graph, log: seq<Entry>, queue: seq<Node>, notes: Notes, entry: Entry, next: seq<Node>)
    returns (more: Notes)
    requires g.nodes != [] && WalkState(g, log, queue, notes) && queue != [] && queue[0].id !in notes.level
    requires entry == Executed(queue[0].id, queue[0].kind, ResultOf(g.engine, queue[0]))
    requires next == if entry.result.ok || entry.kind == "logic.condition"
                     then Successors(entry.id, entry.result.branch, ById(g.nodes), g.edges) else []
    ensures entry.id in ById(g.nodes)
    ensures WalkState(g, log + [entry], queue[1..] + next, more) && more.level.Keys == notes.level.Keys + {entry.id}
  {
    SameLengths(g, log, queue, notes);
    hide Walking, LogOk, Ordering, StartOf, ById, Successors, ResultOf;
    WalkTake(g, log, notes.level, queue, notes.qlev, entry, next);
    var picked := OrderTake(g, log, notes.leads, queue, notes.qleads, entry, next);
    more := Notes(notes.level[entry.id := notes.qlev[0]], notes.leads + [notes.qleads[0]],
                  notes.qlev[1..] + Deeper(notes.qlev[0], |next|), notes.qleads[1..] + NextLeads(|log|, picked));
    StateTaken(g, log, queue, notes, entry, next, more);
  }

  lemma StateTaken(g: Graph, log: seq<Entry>, queue: seq<Node>, notes: Notes, entry: Entry, next: seq<Node>,
                   more: Notes)
    requires g.nodes != [] && WalkState(g, log, queue, notes) && queue != [] && IsEntryOf(entry, queue[0].id)
    requires Walking(g, more.level, queue[1..] + next, more.qlev) && LogOk(g, log + [entry], more.level)
    requires Ordering(g, log + [entry], more.leads, queue[1..] + next, more.qleads)
    ensures WalkState(g, log + [entry], queue[1..] + next, more)
  {
    hide Walking, LogOk, Ordering, StartOf;
    assert (log + [entry])[0] == if log == [] then entry else log[0];
  }

  lemma StateEnds(g: Graph, log: seq<Entry>, notes: Notes)
    requires g.nodes != [] && WalkState(g, log, [], notes)
    ensures LogOk(g, log, notes.level)
    ensures forall v :: v in notes.level <==> Reachable(g, v)
    ensures forall v :: v in notes.level ==> Distance(g, v, notes.level[v])
    ensures log != [] && IsEntryOf(log[0], StartOf(g.nodes).id) && InOrder(g, log, notes.leads)
  {
    SameLengths(g, log, [], notes);
    assert notes.qlev == [] && notes.qleads == [];
    hide Walking, LogOk, Ordering, StartOf, Reachable, Distance, InOrder;
    WalkEnds(g, notes.level);
    OrderingEnds(g, log, notes.leads);
  }

  /** Every node reachable over enabled edges is logged once, with its own result, nearest
      first and in the order of the edges; nothing else is; and the walk ends on every graph. */
  method ExecuteWorkflow(g: Graph)
    returns (log: seq<Entry>, ghost distance: map<string, nat>, ghost leads: seq<Lead>)
    ensures g.nodes == [] ==> log == [NothingToRun]
    ensures g.nodes != [] ==>
      && LogOk(g, log, distance)
      && (forall v :: v in distance <==> Reachable(g, v))
      && (forall v :: v in distance ==> Distance(g, v, distance[v]))
      && log != [] && IsEntryOf(log[0], StartOf(g.nodes).id) && InOrder(g, log, leads)
  {
    distance, leads := map[], [];
    var start := FindStartNode(g.nodes);
    if start.None? {
      return [NothingToRun], map[], [];
    }
    hide WalkState, LogOk, StartOf, Successors, ResultOf, ById, Reachable, Distance, InOrder;
    var m := ById(g.nodes);
    log := [];
    var visited: set<string> := {};
    var queue := [start.value];
    ghost var notes := Notes(map[], [], [0], [(0, 0)]);
    StateBegins(g);
    while queue != []
      invariant visited == notes.level.Keys && WalkState(g, log, queue, notes)
      decreases m.Keys - visited, |queue|
    {
      var node := queue[0];
      if node.id in visited {
        notes := StateSkip(g, log, queue, notes);
        queue := queue[1..];
        continue;
      }
      visited := visited + {node.id};
      var result := ResultOf(g.engine, node);
      var entry := Executed(node.id, node.kind, result);
      var next: seq<Node> := [];
      if result.ok || node.kind == "logic.condition" {
        next := NextNodes(node.id, result.branch, m, g.edges);
      }
      notes := StateTake(g, log, queue, notes, entry, next);
      log := log + [entry];
      queue := queue[1..] + next;
    }
    distance, leads := notes.level, notes.leads;
    StateEnds(g, log, notes);
  }

  /** Dropping a queue entry whose node is already logged keeps everything. */
  lemma SkipVisited(g: Graph, level: map<string, nat>, queue: seq<Node>, qlev: seq<nat>)
    requires g.nodes != [] && Walking(g, level, queue, qlev) && queue != [] && queue[0].id in level
    ensures Walking(g, level, queue[1..], qlev[1..])
  {
    hide Enabled;
    forall u, v | u in level && Enabled(g, u, v)
      ensures (v in level && level[v] <= level[u] + 1) || Waiting(v, level[u] + 1, queue[1..], qlev[1..])
    {
      if !(v in level && level[v] <= level[u] + 1) {
        WaitingTail(v, level[u] + 1, queue, qlev);
      }
    }
  }

  lemma WaitingTail(v: string, bound: nat, queue: seq<Node>, qlev: seq<nat>)
    requires |qlev| == |queue| && queue != [] && Waiting(v, bound, queue, qlev)
    ensures Waiting(v, bound, queue[1..], qlev[1..]) || (queue[0].id == v && qlev[0] <= bound)
  {
    var i :| 0 <= i < |queue| && queue[i].id == v && qlev[i] <= bound;
    if i > 0 {
      assert queue[1..][i - 1].id == v && qlev[1..][i - 1] <= bound;
    }
  }

  lemma HeadIsItsNode(g: Graph, level: map<string, nat>, queue: seq<Node>, qlev: seq<nat>)
    requires g.nodes != [] && Walking(g, level, queue, qlev) && queue != [] && queue[0].id !in level
    ensures queue[0].id in ById(g.nodes) && NodeAt(g, queue[0].id) == queue[0]
    ensures level == map[] ==> queue[0].id == StartOf(g.nodes).id && qlev[0] == 0
    ensures level != map[] ==> StartOf(g.nodes).id in level
  {
    if level == map[] {
      assert qlev[0] == 0;
    }
  }

  lemma LogVisited(g: Graph, log: seq<Entry>, level: map<string, nat>, queue: seq<Node>, qlev: seq<nat>)
    requires g.nodes != [] && Walking(g, level, queue, qlev) && queue != [] && queue[0].id !in level
    requires queue[0].id in ById(g.nodes) && NodeAt(g, queue[0].id) == queue[0]
    requires LogOk(g, log, level)
    ensures LogOk(g, log + [Executed(queue[0].id, queue[0].kind, ResultOf(g.engine, queue[0]))],
                  level[queue[0].id := qlev[0]])
  {
    assert qlev != [] && forall v :: v in level ==> level[v] <= qlev[0];
    hide Walking, ResultOf, ById, StartOf, ByLevel, EntriesOk, NodeAt;
    var id := queue[0].id;
    var more := log + [Executed(id, queue[0].kind, ResultOf(g.engine, queue[0]))];
    ByLevelMore(Ids(log), level, id, qlev[0]);
    EntriesMore(g, log, id);
    assert Ids(more) == Ids(log) + [id];
  }

  lemma EntriesMore(g: Graph, log: seq<Entry>, id: string)
    requires EntriesOk(g, log) && id in ById(g.nodes)
    ensures EntriesOk(g, log + [Executed(id, NodeAt(g, id).kind, ResultAt(g, id))])
  {
  }

  lemma ByLevelMore(ids: seq<string>, level: map<string, nat>, id: string, l: nat)
    requires ByLevel(ids, level) && id !in level && forall v :: v in level ==> level[v] <= l
    ensures ByLevel(ids + [id], level[id := l])
  {
    assert forall i :: 0 <= i < |ids| ==> ids[i] in level;
  }

  function Deeper(level: nat, n: nat): (s: seq<nat>)
    ensures |s| == n && forall i :: 0 <= i < n ==> s[i] == level + 1
  {
    seq(n, _ => level + 1)
  }

  /** The successors of a node the walk goes on from are the nodes its enabled edges lead to. */
  lemma NextAreEnabled(g: Graph, id: string, next: seq<Node>)
    requires id in ById(g.nodes)
    requires next == if Proceeds(g, id) then Successors(id, ResultAt(g, id).branch, ById(g.nodes), g.edges) else []
    ensures forall i :: 0 <= i < |next| ==>
      Enabled(g, id, next[i].id) && next[i].id in ById(g.nodes) && next[i] == ById(g.nodes)[next[i].id]
    ensures forall v :: Enabled(g, id, v) ==> exists i :: 0 <= i < |next| && next[i].id == v
  {
    hide ResultAt, NodeAt;
    SuccessorsAre(id, ResultAt(g, id).branch, ById(g.nodes), g.edges);
    forall v | Enabled(g, id, v)
      ensures exists i :: 0 <= i < |next| && next[i].id == v
    {
      var e :| e in g.edges && e.source == id && e.target == v && Agrees(e.handle, ResultAt(g, id).branch);
      assert Follows(e, id, ResultAt(g, id).branch, ById(g.nodes));
    }
  }

  /** Logging the head of the queue and queueing its successors keeps everything. */
  lemma TakeNode(g: Graph, level: map<string, nat>, queue: seq<Node>, qlev: seq<nat>, next: seq<Node>)
    requires g.nodes != [] && Walking(g, level, queue, qlev) && queue != [] && queue[0].id !in level
    requires queue[0].id in ById(g.nodes) && NodeAt(g, queue[0].id) == queue[0]
    requires next == if Proceeds(g, queue[0].id)
                     then Successors(queue[0].id, ResultAt(g, queue[0].id).branch, ById(g.nodes), g.edges) else []
    ensures Walking(g, level[queue[0].id := qlev[0]], queue[1..] + next, qlev[1..] + Deeper(qlev[0], |next|))
  {
    hide Proceeds, Successors, Enabled, ResultAt, NodeAt, ById, StartOf;
    HeadIsItsNode(g, level, queue, qlev);
    NextAreEnabled(g, queue[0].id, next);
    TakeNodeReached(g, level, queue, qlev, next);
    TakeNodeOrdered(level, queue[0].id, qlev, |next|);
    TakeNodeClosed(g, level, queue, qlev, next);
    TakeNodeByIds(g, level, queue, qlev[0], next);
    hide LevelsReached, LevelsOrdered, Closed, QueueByIds;
  }

  lemma TakeNodeReached(g: Graph, level: map<string, nat>, queue: seq<Node>, qlev: seq<nat>, next: seq<Node>)
    requires g.nodes != [] && queue != [] && LevelsReached(g, level, queue, qlev)
    requires forall i :: 0 <= i < |next| ==> Enabled(g, queue[0].id, next[i].id) && next[i].id in ById(g.nodes)
    ensures LevelsReached(g, level[queue[0].id := qlev[0]], queue[1..] + next, qlev[1..] + Deeper(qlev[0], |next|))
  {
    hide Enabled, ById, StartOf;
    var queue', qlev' := queue[1..] + next, qlev[1..] + Deeper(qlev[0], |next|);
    forall i | 0 <= i < |queue'|
      ensures queue'[i].id in ById(g.nodes) && PathTo(g, queue'[i].id, qlev'[i])
    {
      if i < |queue| - 1 {
        assert queue'[i] == queue[i + 1] && qlev'[i] == qlev[i + 1];
      } else {
        assert queue'[i] == next[i - |queue| + 1] && qlev'[i] == qlev[0] + 1;
        assert PathTo(g, queue[0].id, qlev[0]);
      }
    }
  }

  lemma TakeNodeOrdered(level: map<string, nat>, id: string, qlev: seq<nat>, n: nat)
    requires qlev != [] && LevelsOrdered(level, qlev)
    ensures LevelsOrdered(level[id := qlev[0]], qlev[1..] + Deeper(qlev[0], n))
  {
    var qlev' := qlev[1..] + Deeper(qlev[0], n);
    assert forall i :: 0 <= i < |qlev'| ==> qlev'[i] == if i < |qlev| - 1 then qlev[i + 1] else qlev[0] + 1;
  }

  lemma TakeNodeByIds(g: Graph, level: map<string, nat>, queue: seq<Node>, l: nat, next: seq<Node>)
    requires g.nodes != [] && queue != [] && QueueByIds(g, level, queue) && queue[0].id !in level
    requires level == map[] ==> queue[0].id == StartOf(g.nodes).id
    requires forall i :: 0 <= i < |next| ==> next[i].id in ById(g.nodes) && next[i] == ById(g.nodes)[next[i].id]
    ensures QueueByIds(g, level[queue[0].id := l], queue[1..] + next)
  {
    hide ById, StartOf;
    var queue' := queue[1..] + next;
    assert forall i :: 0 <= i < |queue'| ==>
        queue'[i] == if i < |queue| - 1 then queue[i + 1] else next[i - |queue| + 1];
  }

  lemma TakeNodeClosed(g: Graph, level: map<string, nat>, queue: seq<Node>, qlev: seq<nat>, next: seq<Node>)
    requires |queue| == |qlev| && queue != [] && queue[0].id !in level && Closed(g, level, queue, qlev)
    requires forall v :: Enabled(g, queue[0].id, v) ==> exists i :: 0 <= i < |next| && next[i].id == v
    ensures Closed(g, level[queue[0].id := qlev[0]], queue[1..] + next, qlev[1..] + Deeper(qlev[0], |next|))
  {
    hide Enabled;
    var id, l := queue[0].id, qlev[0];
    var level', queue', qlev' := level[id := l], queue[1..] + next, qlev[1..] + Deeper(l, |next|);
    forall u, v | u in level' && Enabled(g, u, v)
      ensures (v in level' && level'[v] <= level'[u] + 1) || Waiting(v, level'[u] + 1, queue', qlev')
    {
      if u == id {
        var i :| 0 <= i < |next| && next[i].id == v;
        assert queue'[|queue| - 1 + i].id == v && qlev'[|queue| - 1 + i] == l + 1;
      } else if !(v in level && level[v] <= level[u] + 1) {
        WaitingTail(v, level[u] + 1, queue, qlev);
        if Waiting(v, level[u] + 1, queue[1..], qlev[1..]) {
          var i :| 0 <= i < |queue[1..]| && queue[1..][i].id == v && qlev[1..][i] <= level[u] + 1;
          assert queue'[i].id == v && qlev'[i] <= level[u] + 1;
        }
      }
    }
  }

  // ---------------------------------------------------------------- the steps, from the nodes and the engine alone

  /** The node that runs under its id: the start node, or else the last one of that id. */
  ghost predicate RunsAs(nodes: seq<Node>, i: nat) {
    i < |nodes| && exists s: nat ::
      StartsAt(nodes, s) &&
      (i == s || (nodes[i].id != nodes[s].id && forall j :: i < j < |nodes| ==> nodes[j].id != nodes[i].id))
  }

  lemma {:induction false} LastStands(nodes: seq<Node>, i: nat)
    requires i < |nodes| && forall j :: i < j < |nodes| ==> nodes[j].id != nodes[i].id
    ensures nodes[i].id in ById(nodes) && ById(nodes)[nodes[i].id] == nodes[i]
  {
    if i < |nodes| - 1 {
      LastStands(nodes[..|nodes| - 1], i);
    }
  }

  lemma {:induction false} SomeStands(nodes: seq<Node>, id: string) returns (i: nat)
    requires id in ById(nodes)
    ensures i < |nodes| && nodes[i].id == id && forall j :: i < j < |nodes| ==> nodes[j].id != id
  {
    var n := |nodes| - 1;
    if nodes[n].id == id {
      i := n;
    } else {
      i := SomeStands(nodes[..n], id);
    }
  }

  lemma {:induction false} SomeStart(nodes: seq<Node>) returns (i: nat)
    requires nodes != []
    ensures StartsAt(nodes, i)
  {
    i := FirstTrigger(nodes);
    if i == |nodes| {
      i := 0;
    }
  }

  lemma NodeAtIs(g: Graph, i: nat)
    requires RunsAs(g.nodes, i)
    ensures g.nodes[i].id in ById(g.nodes) && NodeAt(g, g.nodes[i].id) == g.nodes[i]
  {
    hide ById, StartOf;
    var s: nat :| StartsAt(g.nodes, s) &&
      (i == s || (g.nodes[i].id != g.nodes[s].id && forall j :: i < j < |g.nodes| ==> g.nodes[j].id != g.nodes[i].id));
    StartIs(g.nodes, s);
    assert g.nodes[i] in g.nodes;
    if i != s {
      LastStands(g.nodes, i);
    }
  }

  lemma SomeRuns(g: Graph, id: string) returns (i: nat)
    requires g.nodes != [] && id in ById(g.nodes)
    ensures RunsAs(g.nodes, i) && g.nodes[i].id == id && NodeAt(g, id) == g.nodes[i]
  {
    var s := SomeStart(g.nodes);
    i := SomeStands(g.nodes, id);
    if g.nodes[i].id == g.nodes[s].id {
      i := s;
    }
    NodeAtIs(g, i);
  }

  lemma IdIsThere(nodes: seq<Node>, id: string)
    ensures id in ById(nodes) <==> exists n :: n in nodes && n.id == id
  {
    if id in ById(nodes) {
      var i := SomeStands(nodes, id);
      assert nodes[i] in nodes;
    }
  }

  /** Each entry of the log is what the executor of that node returned, or a failure without a
      branch when the kind has no executor or the executor raised. */
  lemma EntryMeans(g: Graph, log: seq<Entry>, level: map<string, nat>, k: nat)
    requires g.nodes != [] && LogOk(g, log, level) && k < |log|
    ensures log[k].Executed?
    ensures exists i: nat ::
      RunsAs(g.nodes, i) && log[k].id == g.nodes[i].id && log[k].kind == g.nodes[i].kind &&
      if g.nodes[i].kind in g.engine.executors && g.engine.run(g.nodes[i]).Returned?
      then log[k].result == g.engine.run(g.nodes[i]).result
      else !log[k].result.ok && log[k].result.branch == None
  {
    var i := SomeRuns(g, log[k].id);
  }

  /** Which edges lead on: those of a node that returned `ok` or is a condition, without a handle
      or with that of the branch it returned; after a failure only those of a condition. */
  ghost predicate LeadsOn(engine: Engine, n: Node, e: Edge) {
    if n.kind in engine.executors && engine.run(n).Returned? then
      var r := engine.run(n).result;
      (r.ok || n.kind == "logic.condition") && (r.branch.None? || e.handle.None? || r.branch == e.handle)
    else n.kind == "logic.condition"
  }

  lemma EnabledMeans(g: Graph, u: string, v: string)
    requires g.nodes != []
    ensures Enabled(g, u, v) <==>
      && (exists n :: n in g.nodes && n.id == v)
      && exists i: nat, e ::
           RunsAs(g.nodes, i) && e in g.edges && g.nodes[i].id == u && e.source == u &&
           e.target == v && LeadsOn(g.engine, g.nodes[i], e)
  {
    hide ById, NodeAt;
    IdIsThere(g.nodes, u);
    IdIsThere(g.nodes, v);
    if Enabled(g, u, v) {
      var i := SomeRuns(g, u);
      var e :| e in g.edges && e.source == u && e.target == v && Agrees(e.handle, ResultAt(g, u).branch);
      assert LeadsOn(g.engine, g.nodes[i], e);
    }
    forall i: nat, e | RunsAs(g.nodes, i) && e in g.edges && g.nodes[i].id == u && e.source == u && e.target == v
                       && LeadsOn(g.engine, g.nodes[i], e) && exists n :: n in g.nodes && n.id == v
      ensures Enabled(g, u, v)
    {
      NodeAtIs(g, i);
      assert Agrees(e.handle, ResultAt(g, u).branch);
    }
  }

  /** After a node that raised or has no executor the walk stops, unless it is a condition. */
  lemma FailureStops(g: Graph, i: nat, v: string)
    requires RunsAs(g.nodes, i) && g.nodes[i].kind != "logic.condition"
    requires g.nodes[i].kind in g.engine.executors ==> g.engine.run(g.nodes[i]) == Raised
    ensures !Enabled(g, g.nodes[i].id, v)
  {
    NodeAtIs(g, i);
  }

  // ---------------------------------------------------------------- what the log means

  lemma DistanceIsUnique(g: Graph, v: string, m: nat, n: nat)
    requires g.nodes != [] && Distance(g, v, m) && Distance(g, v, n)
    ensures m == n
  {
  }

  /** Read off the log alone: it lists reachable nodes by shortest distance. */
  lemma LogByDistance(g: Graph, log: seq<Entry>, distance: map<string, nat>, i: nat, j: nat, m: nat, n: nat)
    requires g.nodes != [] && LogOk(g, log, distance) && i < j < |log|
    requires forall v :: v in distance ==> Distance(g, v, distance[v])
    requires Distance(g, log[i].id, m) && Distance(g, log[j].id, n)
    ensures m <= n
  {
    DistanceIsUnique(g, log[i].id, m, distance[log[i].id]);
    DistanceIsUnique(g, log[j].id, n, distance[log[j].id]);
    assert Ids(log)[i] == log[i].id && Ids(log)[j] == log[j].id;
  }

  ghost predicate Distinct(log: seq<Entry>) {
    && (forall i :: 0 <= i < |log| ==> log[i].Executed?)
    && (forall i, j :: 0 <= i < j < |log| ==> log[i].id != log[j].id)
  }

  lemma SameLeads(g: Graph, a: seq<Entry>, b: seq<Entry>, n: nat, l: Lead)
    requires n <= |a| && n <= |b| && a[..n] == b[..n] && l.0 < n && Leads(g, a, l)
    ensures Leads(g, b, l)
  {
    hide LeadsFrom;
    assert b[l.0] == b[..n][l.0] && a[l.0] == a[..n][l.0];
  }

  lemma NotBefore(a: seq<Entry>, b: seq<Entry>, n: nat, j: nat)
    requires n < |a| && n <= |b| && a[..n] == b[..n] && Distinct(a) && j < |b| && IsEntryOf(b[j], a[n].id)
    ensures j >= n
  {
    assert forall i :: 0 <= i < n ==> b[i] == b[..n][i] && b[..n][i] == a[i];
  }

  /** What log a reaches at n, log b reaches no later than a does. */
  lemma ReachedToo(g: Graph, a: seq<Entry>, la: seq<Lead>, b: seq<Entry>, lb: seq<Lead>, n: nat) returns (j: nat)
    requires InOrder(g, a, la) && InOrder(g, b, lb) && 0 < n < |a| && n < |b| && a[..n] == b[..n] && Distinct(a)
    ensures n <= j < |b| == |lb| && |la| == |a| && a[n].Executed?
    ensures IsEntryOf(b[j], a[n].id) && !Before(la[n], lb[j])
  {
    var l := la[n];
    assert Leads(g, a, l) && l.0 < n && |lb| == |b| && g.edges[l.1].target == a[n].id by {
      hide LeadsFrom, Before, LoggedBy;
    }
    hide LeadsFrom, Before, ReachedBy, Distinct;
    SameLeads(g, a, b, n, l);
    assert LoggedBy(g, b, lb, l);
    j :| 0 <= j < |b| && IsEntryOf(b[j], g.edges[l.1].target) && (j == 0 || !Before(l, lb[j]));
    NotBefore(a, b, n, j);
  }

  /** So it reaches that node at n itself, or another one before it. */
  lemma ReachedFirst(g: Graph, a: seq<Entry>, la: seq<Lead>, b: seq<Entry>, lb: seq<Lead>, n: nat)
    requires InOrder(g, a, la) && InOrder(g, b, lb) && 0 < n < |a| && n < |b| && a[..n] == b[..n] && Distinct(a)
    ensures |la| == |a| && |lb| == |b| && a[n].Executed?
    ensures IsEntryOf(b[n], a[n].id) || Before(lb[n], la[n])
  {
    hide InOrder;
    var j := ReachedToo(g, a, la, b, lb, n);
    LaterLead(g, b, lb, n, j, la[n]);
  }

  lemma LaterLead(g: Graph, log: seq<Entry>, leads: seq<Lead>, n: nat, j: nat, l: Lead)
    requires InOrder(g, log, leads) && 1 <= n <= j < |log| == |leads| && !Before(l, leads[j])
    ensures j == n || Before(leads[n], l)
  {
    hide LoggedBy, Leads;
  }

  /** Two logs in order that agree up to n agree at n: neither can list a node before the other,
      because the other would have reached it too. */
  lemma NextIsDetermined(g: Graph, a: seq<Entry>, la: seq<Lead>, b: seq<Entry>, lb: seq<Lead>, n: nat)
    requires InOrder(g, a, la) && InOrder(g, b, lb) && 0 < n < |a| && n < |b| && a[..n] == b[..n]
    requires Distinct(a) && Distinct(b)
    ensures a[n].Executed? && b[n].Executed? && a[n].id == b[n].id
  {
    hide InOrder;
    ReachedFirst(g, a, la, b, lb, n);
    ReachedFirst(g, b, lb, a, la, n);
  }

  lemma LogIsDistinct(g: Graph, log: seq<Entry>, level: map<string, nat>)
    requires LogOk(g, log, level)
    ensures Distinct(log) && |log| == |level.Keys|
  {
    assert forall i :: 0 <= i < |log| ==> Ids(log)[i] == log[i].id;
    Sorting.CountDistinct(Ids(log), level.Keys);
  }

  lemma {:induction false} PrefixIsDetermined(g: Graph, a: seq<Entry>, la: seq<Lead>, b: seq<Entry>, lb: seq<Lead>,
                                              n: nat)
    requires g.nodes != [] && EntriesOk(g, a) && EntriesOk(g, b) && InOrder(g, a, la) && InOrder(g, b, lb)
    requires Distinct(a) && Distinct(b) && n <= |a| && n <= |b|
    requires a != [] && b != [] && IsEntryOf(a[0], StartOf(g.nodes).id) && IsEntryOf(b[0], StartOf(g.nodes).id)
    ensures a[..n] == b[..n]
  {
    hide InOrder, EntriesOk, Distinct, StartOf;
    if n > 0 {
      PrefixIsDetermined(g, a, la, b, lb, n - 1);
      if n > 1 {
        NextIsDetermined(g, a, la, b, lb, n - 1);
      }
      SameEntry(g, a, b, n - 1);
      assert a[..n] == a[..n - 1] + [a[n - 1]] && b[..n] == b[..n - 1] + [b[n - 1]];
    }
  }

  lemma SameEntry(g: Graph, a: seq<Entry>, b: seq<Entry>, i: nat)
    requires EntriesOk(g, a) && EntriesOk(g, b) && i < |a| && i < |b| && a[i].Executed? && b[i].Executed?
    requires a[i].id == b[i].id
    ensures a[i] == b[i]
  {
  }

  /** The order leaves no freedom: the graph and the engine determine the whole log. */
  lemma LogIsDetermined(g: Graph, a: seq<Entry>, la: seq<Lead>, da: map<string, nat>, b: seq<Entry>, lb: seq<Lead>,
                        db: map<string, nat>)
    requires g.nodes != [] && LogOk(g, a, da) && LogOk(g, b, db) && InOrder(g, a, la) && InOrder(g, b, lb)
    requires a != [] && b != [] && IsEntryOf(a[0], StartOf(g.nodes).id) && IsEntryOf(b[0], StartOf(g.nodes).id)
    requires forall v :: v in da <==> Reachable(g, v)
    requires forall v :: v in db <==> Reachable(g, v)
    ensures a == b
  {
    hide InOrder, IsEntryOf, Reachable, StartOf, EntriesOk, ByLevel, Distinct;
    LogIsDistinct(g, a, da);
    LogIsDistinct(g, b, db);
    assert da.Keys == db.Keys;
    PrefixIsDetermined(g, a, la, b, lb, |a|);
    assert a[..|a|] == a && b[..|a|] == b;
  }
}
