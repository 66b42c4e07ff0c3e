/** The agent's event forwarder: `agent/forward.go`, lines 12-116.

    A bounded queue feeds a batch, which is posted when it is full, on every tick and at
    shutdown; a post is retried a few times.  The class performs the steps; `Step` describes
    them, and the theorems are about every sequence of steps. */
module Forwarder {

  const CAPACITY := 16384
  const MAX_BATCH := 500
  const MAX_ATTEMPTS := 4
  const FIRST_BACKOFF := 500

  type Event = string

  /** How the server answers one attempt. */
  datatype Reply = Status(code: int) | Unreachable

  /** One attempt, and whether the context ends while waiting to try again. */
  datatype Try = Try(reply: Reply, ends: bool)

  predicate Accepted(r: Reply) {
    r.Status? && r.code < 300
  }

  /** The answers of a post's attempts, should they be needed. */
  type Tries = t: seq<Try> | |t| == MAX_ATTEMPTS witness seq(MAX_ATTEMPTS, _ => Try(Unreachable, false))

  // ---------------------------------------------------------------- posting

  /** The attempt from i on that is accepted; none if the context ends or the attempts run out
      first. */
  predicate Delivers(tries: Tries, i: nat)
    requires i <= MAX_ATTEMPTS
    decreases MAX_ATTEMPTS - i
  {
    i < MAX_ATTEMPTS && (Accepted(tries[i].reply) || (!tries[i].ends && Delivers(tries, i + 1)))
  }

  /** The context ends during the waits of a post. */
  predicate Ends(tries: Tries, i: nat)
    requires i <= MAX_ATTEMPTS
    decreases MAX_ATTEMPTS - i
  {
    i < MAX_ATTEMPTS && !Accepted(tries[i].reply) && (tries[i].ends || Ends(tries, i + 1))
  }

  function Doubled(n: nat): nat {
    if n == 0 then FIRST_BACKOFF else 2 * Doubled(n - 1)
  }

  function Waits(n: nat): nat {
    if n == 0 then 0 else Waits(n - 1) + Doubled(n - 1)
  }

  /** Attempt k is answered with a status below 300, no earlier one is, and the context ends in
      no wait before it. */
  predicate SucceedsAt(tries: Tries, k: nat) {
    && k < 4 && tries[k].reply.Status? && tries[k].reply.code < 300
    && forall j :: 0 <= j < k ==> !(tries[j].reply.Status? && tries[j].reply.code < 300) && !tries[j].ends
  }

  /** The context ends in the wait after attempt k, and in none before; no attempt so far is
      answered with a status below 300. */
  predicate EndsAt(tries: Tries, k: nat) {
    && k < 4 && tries[k].ends
    && (forall j :: 0 <= j < k ==> !tries[j].ends)
    && forall j :: 0 <= j <= k ==> !(tries[j].reply.Status? && tries[j].reply.code < 300)
  }

  /** `postJSON`: retries with a doubling backoff.  On a context that has already ended every
      request fails, and the wait returns at once. */
  method PostJSON(ended: bool, tries: Tries) returns (delivered: bool, endsNow: bool, waited: nat)
    ensures delivered <==> !ended && Delivers(tries, 0)
    ensures endsNow <==> ended || Ends(tries, 0)
    ensures delivered <==> !ended && exists k: nat :: SucceedsAt(tries, k)
    ensures endsNow <==> ended || exists k: nat :: EndsAt(tries, k)
    ensures waited <= 7500 && (!delivered && !endsNow ==> waited == 7500)
  {
    DeliversMeans(tries, 0);
    EndsMeans(tries, 0);
    FullWait();
    var backoff := FIRST_BACKOFF;
    waited := 0;
    for attempt := 0 to MAX_ATTEMPTS
      invariant !ended || attempt == 0
      invariant backoff == Doubled(attempt) && waited == Waits(attempt)
      invariant Delivers(tries, 0) == Delivers(tries, attempt) && Ends(tries, 0) == Ends(tries, attempt)
    {
      WaitsGrow(attempt, MAX_ATTEMPTS);
      var reply := if ended then Unreachable else tries[attempt].reply;
      if Accepted(reply) {
        return true, false, waited;
      }
      if ended || tries[attempt].ends {
        return false, true, waited;
      }
      waited := waited + backoff;
      backoff := backoff * 2;
    }
    delivered, endsNow := false, false;
  }

  lemma {:induction false} WaitsGrow(m: nat, n: nat)
    requires m <= n
    ensures Waits(m) <= Waits(n)
    decreases n
  {
    if m < n {
      WaitsGrow(m, n - 1);
    }
  }

  /** A post that is neither accepted nor cut short waits seven and a half seconds in all. */
  lemma FullWait()
    ensures Waits(MAX_ATTEMPTS) == 7500
  {
    assert Doubled(0) == 500 && Doubled(1) == 1000 && Doubled(2) == 2000 && Doubled(3) == 4000;
    assert Waits(1) == 500 && Waits(2) == 1500 && Waits(3) == 3500;
  }

  /** Attempts before i that failed without the context ending. */
  predicate FailedBefore(tries: Tries, i: nat)
    requires i <= MAX_ATTEMPTS
  {
    forall j :: 0 <= j < i ==> !(tries[j].reply.Status? && tries[j].reply.code < 300) && !tries[j].ends
  }

  /** Independently: a post delivers exactly if some attempt is answered with a status below 300
      and the context did not end in any wait before it. */
  lemma {:induction false} DeliversMeans(tries: Tries, i: nat)
    requires i <= MAX_ATTEMPTS && FailedBefore(tries, i)
    ensures Delivers(tries, i) <==> exists k: nat :: SucceedsAt(tries, k)
    decreases MAX_ATTEMPTS - i
  {
    if i < MAX_ATTEMPTS {
      if Accepted(tries[i].reply) {
        assert SucceedsAt(tries, i);
      } else if tries[i].ends {
        assert forall k: nat :: SucceedsAt(tries, k) ==> i <= k && k != i;
      } else {
        DeliversMeans(tries, i + 1);
      }
    }
  }

  /** And the context ends during it exactly if it ends in some wait that the post comes to. */
  lemma {:induction false} EndsMeans(tries: Tries, i: nat)
    requires i <= MAX_ATTEMPTS && FailedBefore(tries, i)
    ensures Ends(tries, i) <==> exists k: nat :: EndsAt(tries, k)
    decreases MAX_ATTEMPTS - i
  {
    if i < MAX_ATTEMPTS {
      if Accepted(tries[i].reply) {
        assert forall k: nat :: EndsAt(tries, k) ==> i <= k;
      } else if tries[i].ends {
        assert EndsAt(tries, i);
      } else {
        EndsMeans(tries, i + 1);
      }
    }
  }

  // ---------------------------------------------------------------- states and steps

  /** A batch that was posted, and whether the server took it. */
  datatype Batch = Batch(events: seq<Event>, delivered: bool)

  /** `accepted` and `dropped` record what became of every submitted event. */
  datatype State = State(
    queue: seq<Event>,
    batch: seq<Event>,
    ended: bool,
    stopped: bool,
    flushed: seq<Batch>,
    accepted: seq<Event>,
    dropped: seq<Event>)

  const START := State([], [], false, false, [], [], [])

  /** The steps of the system; `End` is the context ending, `Stop` the loop noticing it. */
  datatype Action =
    | Submit(ev: Event)
    | Receive(tries: Tries)
    | Tick(tries: Tries)
    | End
    | Stop(tries: Tries)

  function Flushing(s: State, tries: Tries): State {
    if s.batch == [] then s
    else s.(batch := [],
            flushed := s.flushed + [Batch(s.batch, !s.ended && Delivers(tries, 0))],
            ended := s.ended || Ends(tries, 0))
  }

  predicate Possible(s: State, a: Action) {
    match a
    case Submit(_) => true
    case End => true
    case Receive(_) => !s.stopped && s.queue != []
    case Tick(_) => !s.stopped
    case Stop(_) => !s.stopped && s.ended
  }

  function Step(s: State, a: Action): State
    requires Possible(s, a)
  {
    match a
    case Submit(ev) =>
      if |s.queue| < CAPACITY then s.(queue := s.queue + [ev], accepted := s.accepted + [ev])
      else s.(dropped := s.dropped + [ev])
    case Receive(tries) =>
      var t := s.(queue := s.queue[1..], batch := s.batch + [s.queue[0]]);
      if |t.batch| >= MAX_BATCH then Flushing(t, tries) else t
    case Tick(tries) => Flushing(s, tries)
    case End => s.(ended := true)
    case Stop(tries) => Flushing(s, tries).(stopped := true)
  }

  // ---------------------------------------------------------------- the forwarder, in place

  class Forwarder {
    var queue: seq<Event>
    var batch: seq<Event>
    var ended: bool
    var stopped: bool
    ghost var flushed: seq<Batch>
    ghost var accepted: seq<Event>
    ghost var dropped: seq<Event>

    ghost function View(): State
      reads this
    {
      State(queue, batch, ended, stopped, flushed, accepted, dropped)
    }

    constructor ()
      ensures View() == START
    {
      queue, batch, ended, stopped := [], [], false, false;
      flushed, accepted, dropped := [], [], [];
    }

    method Submit(ev: Event)
      modifies this
      ensures View() == Step(old(View()), Action.Submit(ev))
    {
      if |queue| < CAPACITY {
        queue := queue + [ev];
        accepted := accepted + [ev];
      } else {
        dropped := dropped + [ev];
      }
    }

    method Flush(tries: Tries)
      modifies this
      ensures View() == Flushing(old(View()), tries)
    {
      if |batch| == 0 {
        return;
      }
      var delivered, endsNow, _ := PostJSON(ended, tries);
      ended := endsNow;
      flushed := flushed + [Batch(batch, delivered)];
      batch := [];
    }

    method Receive(tries: Tries)
      requires Possible(View(), Action.Receive(tries))
      modifies this
      ensures View() == Step(old(View()), Action.Receive(tries))
    {
      var ev := queue[0];
      queue := queue[1..];
      batch := batch + [ev];
      if |batch| >= MAX_BATCH {
        Flush(tries);
      }
    }

    method Tick(tries: Tries)
      requires Possible(View(), Action.Tick(tries))
      modifies this
      ensures View() == Step(old(View()), Action.Tick(tries))
    {
      Flush(tries);
    }

    method Stop(tries: Tries)
      requires Possible(View(), Action.Stop(tries))
      modifies this
      ensures View() == Step(old(View()), Action.Stop(tries))
    {
      Flush(tries);
      stopped := true;
    }
  }

  // ---------------------------------------------------------------- every run

  /** s is reached from the start by the given steps. */
  ghost predicate Run(s: State, actions: seq<Action>)
    decreases actions
  {
    if actions == [] then s == START
    else
      var n := |actions| - 1;
      exists before :: Run(before, actions[..n]) && Possible(before, actions[n]) && s == Step(before, actions[n])
  }

  function Submitted(actions: seq<Action>): seq<Event> {
    if actions == [] then []
    else
      var before, a := Submitted(actions[..|actions| - 1]), actions[|actions| - 1];
      if a.Submit? then before + [a.ev] else before
  }

  function Events(flushed: seq<Batch>): seq<Event> {
    if flushed == [] then [] else Events(flushed[..|flushed| - 1]) + flushed[|flushed| - 1].events
  }

  function Count(flushed: seq<Batch>, delivered: bool): nat {
    if flushed == [] then 0
    else
      var last := flushed[|flushed| - 1];
      Count(flushed[..|flushed| - 1], delivered) + if last.delivered == delivered then |last.events| else 0
  }

  ghost predicate Invariant(s: State) {
    && s.accepted == Events(s.flushed) + s.batch + s.queue
    && |s.queue| <= CAPACITY && |s.batch| < MAX_BATCH
    && (s.stopped ==> s.ended && s.batch == [])
    && forall i :: 0 <= i < |s.flushed| ==> 0 < |s.flushed[i].events| <= MAX_BATCH
  }

  lemma FlushedMore(flushed: seq<Batch>, f: Batch)
    ensures Events(flushed + [f]) == Events(flushed) + f.events
    ensures forall d :: Count(flushed + [f], d) == Count(flushed, d) + if f.delivered == d then |f.events| else 0
  {
    assert (flushed + [f])[..|flushed|] == flushed;
  }

  lemma FlushingKeeps(s: State, tries: Tries)
    requires s.accepted == Events(s.flushed) + s.batch + s.queue && |s.queue| <= CAPACITY && |s.batch| <= MAX_BATCH
    requires forall i :: 0 <= i < |s.flushed| ==> 0 < |s.flushed[i].events| <= MAX_BATCH
    requires !s.stopped
    ensures Invariant(Flushing(s, tries))
  {
    hide Delivers, Ends, Events, Count;
    FlushedMore(s.flushed, Batch(s.batch, !s.ended && Delivers(tries, 0)));
    assert Events(s.flushed) + s.batch + [] == Events(s.flushed) + s.batch;
  }

  lemma SubmitKeeps(s: State, ev: Event)
    requires Invariant(s)
    ensures Invariant(Step(s, Submit(ev)))
  {
    hide Events, Delivers, Ends;
    assert Events(s.flushed) + s.batch + (s.queue + [ev]) == Events(s.flushed) + s.batch + s.queue + [ev];
  }

  lemma ReceiveKeeps(s: State, tries: Tries)
    requires Invariant(s) && Possible(s, Receive(tries))
    ensures Invariant(Step(s, Receive(tries)))
  {
    hide Events, Delivers, Ends, Flushing;
    var t := s.(queue := s.queue[1..], batch := s.batch + [s.queue[0]]);
    assert s.queue == [s.queue[0]] + s.queue[1..];
    assert Events(s.flushed) + (s.batch + [s.queue[0]]) + s.queue[1..]
        == Events(s.flushed) + s.batch + ([s.queue[0]] + s.queue[1..]);
    if |t.batch| >= MAX_BATCH {
      FlushingKeeps(t, tries);
    }
  }

  lemma StopKeeps(s: State, tries: Tries)
    requires Invariant(s) && Possible(s, Stop(tries))
    ensures Invariant(Step(s, Stop(tries)))
  {
    FlushingKeeps(s, tries);
    hide Events, Delivers, Ends;
  }

  lemma StepKeeps(s: State, a: Action)
    requires Invariant(s) && Possible(s, a)
    ensures Invariant(Step(s, a))
  {
    match a
    case Submit(ev) => SubmitKeeps(s, ev);
    case Receive(tries) => ReceiveKeeps(s, tries);
    case Stop(tries) => StopKeeps(s, tries);
    case Tick(tries) =>
      FlushingKeeps(s, tries);
      hide Events, Flushing;
    case End =>
      hide Events;
  }

  /** In every run the accepted events are, in order, those of the posted batches, then the
      current batch, then the queue; a batch is never empty or larger than 500 when posted. */
  lemma {:induction false} EventsAreKeptInOrder(s: State, actions: seq<Action>)
    requires Run(s, actions)
    ensures Invariant(s)
    decreases actions
  {
    if actions != [] {
      var n := |actions| - 1;
      var before :| Run(before, actions[..n]) && Possible(before, actions[n]) && s == Step(before, actions[n]);
      EventsAreKeptInOrder(before, actions[..n]);
      StepKeeps(before, actions[n]);
    }
  }

  lemma StepSplits(s: State, a: Action)
    requires Possible(s, a)
    ensures var t := Step(s, a);
      && |t.accepted| + |t.dropped| == |s.accepted| + |s.dropped| + (if a.Submit? then 1 else 0)
      && multiset(t.accepted) + multiset(t.dropped)
           == multiset(s.accepted) + multiset(s.dropped) + if a.Submit? then multiset{a.ev} else multiset{}
  {
    hide Delivers, Ends;
  }

  /** Every submitted event was accepted or dropped, never both. */
  lemma {:induction false} SubmittedIsSplit(s: State, actions: seq<Action>)
    requires Run(s, actions)
    ensures |Submitted(actions)| == |s.accepted| + |s.dropped|
    ensures multiset(Submitted(actions)) == multiset(s.accepted) + multiset(s.dropped)
    decreases actions
  {
    if actions != [] {
      var n := |actions| - 1;
      var before :| Run(before, actions[..n]) && Possible(before, actions[n]) && s == Step(before, actions[n]);
      SubmittedIsSplit(before, actions[..n]);
      StepSplits(before, actions[n]);
      hide Run, Possible, Step;
    }
  }

  lemma {:induction false} EventsCounted(flushed: seq<Batch>)
    ensures |Events(flushed)| == Count(flushed, true) + Count(flushed, false)
  {
    if flushed != [] {
      EventsCounted(flushed[..|flushed| - 1]);
    }
  }

  /** Conservation: submitted = dropped + delivered + lost + still pending. */
  lemma {:induction false} NothingUnaccountedFor(s: State, actions: seq<Action>)
    requires Run(s, actions)
    ensures |Submitted(actions)| ==
      |s.dropped| + Count(s.flushed, true) + Count(s.flushed, false) + |s.batch| + |s.queue|
  {
    SubmittedIsSplit(s, actions);
    EventsAreKeptInOrder(s, actions);
    EventsCounted(s.flushed);
  }

  /** In every run an event is dropped exactly when as many accepted events as the queue holds
      are neither posted nor in the batch. */
  lemma {:induction false} DropsExactlyWhenFull(s: State, actions: seq<Action>, ev: Event)
    requires Run(s, actions)
    ensures Step(s, Submit(ev)).dropped == s.dropped + [ev] <==>
        |s.accepted| == |Events(s.flushed)| + |s.batch| + 16384
    ensures Step(s, Submit(ev)).dropped == s.dropped <==> |s.accepted| < |Events(s.flushed)| + |s.batch| + 16384
  {
    EventsAreKeptInOrder(s, actions);
  }

  /** In every run a batch is posted when its 500th event arrives, and on a tick or at shutdown
      if it holds anything; nothing else posts.  It is delivered if an attempt gets through. */
  lemma {:induction false} WhenBatchesArePosted(s: State, actions: seq<Action>, a: Action)
    requires Run(s, actions) && Possible(s, a)
    ensures var t := Step(s, a);
      && (t.flushed != s.flushed <==>
          (a.Receive? && |s.batch| == 499) || ((a.Tick? || a.Stop?) && s.batch != []))
      && (t.flushed != s.flushed ==>
          && |t.flushed| == |s.flushed| + 1 && t.batch == []
          && t.flushed[|s.flushed|].events == (s.batch + if a.Receive? then [s.queue[0]] else [])
          && (t.flushed[|s.flushed|].delivered <==> !s.ended && exists k: nat :: SucceedsAt(a.tries, k)))
  {
    EventsAreKeptInOrder(s, actions);
    if a.Receive? || a.Tick? || a.Stop? {
      DeliversMeans(a.tries, 0);
    }
    hide Run, Delivers, Ends, Events;
  }

  /** Once the context has ended no posted batch is delivered any more: in particular the batch
      flushed at shutdown is always lost. */
  lemma {:induction false} NothingDeliveredAfterEnd(s: State, a: Action)
    requires s.ended && Possible(s, a)
    ensures Step(s, a).ended && Count(Step(s, a).flushed, true) == Count(s.flushed, true)
  {
    var pending := if a.Receive? then s.batch + [s.queue[0]] else s.batch;
    FlushedMore(s.flushed, Batch(pending, false));
  }

  /** Since the context ended at `mid` nothing more was delivered, and the events then in the
      batch are still in it or in a posted batch that was not delivered. */
  ghost predicate BatchNotDelivered(mid: State, s: State) {
    && s.ended && Count(s.flushed, true) == Count(mid.flushed, true)
    && mid.flushed <= s.flushed
    && (if s.flushed == mid.flushed then mid.batch <= s.batch
        else !s.flushed[|mid.flushed|].delivered && mid.batch <= s.flushed[|mid.flushed|].events)
  }

  lemma StaysUndelivered(mid: State, s: State, a: Action)
    requires BatchNotDelivered(mid, s) && Possible(s, a)
    ensures BatchNotDelivered(mid, Step(s, a))
  {
    NothingDeliveredAfterEnd(s, a);
    hide Count, Events, Delivers, Ends;
    if s.flushed == mid.flushed {
      assert |s.flushed| == |mid.flushed|;
    } else {
      assert |s.flushed| > |mid.flushed| by {
        assert |s.flushed| == |mid.flushed| ==> s.flushed == mid.flushed;
      }
    }
  }

  /** In every run that goes on after the context has ended, whatever the servers answer, the
      batch of that moment is not delivered: once the loop has stopped it is lost, with
      everything still queued left behind. */
  lemma {:induction false} ShutdownLosesTheBatch(mid: State, actions: seq<Action>, s: State, more: seq<Action>)
    requires Run(mid, actions) && mid.ended && Run(s, actions + more)
    ensures BatchNotDelivered(mid, s)
    ensures s.stopped && mid.batch != [] ==>
      |mid.flushed| < |s.flushed| && !s.flushed[|mid.flushed|].delivered && mid.batch <= s.flushed[|mid.flushed|].events
    decreases more
  {
    if more == [] {
      assert actions + more == actions;
      OneState(mid, s, actions);
    } else {
      var n := |more| - 1;
      assert (actions + more)[..|actions| + n] == actions + more[..n];
      var before :| Run(before, actions + more[..n]) && Possible(before, more[n]) && s == Step(before, more[n]);
      hide Run;
      ShutdownLosesTheBatch(mid, actions, before, more[..n]);
      StaysUndelivered(mid, before, more[n]);
    }
    EventsAreKeptInOrder(s, actions + more);
  }

  lemma {:induction false} OneState(s: State, t: State, actions: seq<Action>)
    requires Run(s, actions) && Run(t, actions)
    ensures s == t
    decreases actions
  {
    if actions != [] {
      var n := |actions| - 1;
      var a :| Run(a, actions[..n]) && Possible(a, actions[n]) && s == Step(a, actions[n]);
      var b :| Run(b, actions[..n]) && Possible(b, actions[n]) && t == Step(b, actions[n]);
      OneState(a, b, actions[..n]);
    }
  }

  // ---------------------------------------------------------------- outages

  /** An outage: no request made from `start` on, for `length` milliseconds, gets through. */
  datatype Outage = Outage(start: int, length: nat)

  predicate Covers(o: Outage, t: int) {
    o.start <= t < o.start + o.length
  }

  /** How long each attempt takes until it is answered or fails. */
  type Durations = t: seq<nat> | |t| == MAX_ATTEMPTS witness seq(MAX_ATTEMPTS, _ => 0)

  function Sum(ts: seq<nat>): nat {
    if ts == [] then 0 else Sum(ts[..|ts| - 1]) + ts[|ts| - 1]
  }

  /** When the k-th attempt of a post begins: after the earlier attempts and their waits. */
  function AttemptAt(posted: int, took: Durations, k: nat): int
    requires k < MAX_ATTEMPTS
  {
    posted + Sum(took[..k]) + Waits(k)
  }

  /** The answers of a post when nothing but the outage goes wrong. */
  function TriesDuring(o: Outage, posted: int, took: Durations): Tries {
    seq(MAX_ATTEMPTS, k requires 0 <= k < MAX_ATTEMPTS =>
      Try(if Covers(o, AttemptAt(posted, took, k)) then Unreachable else Status(200), false))
  }

  lemma WaitTimes()
    ensures Waits(0) == 0 && Waits(1) == 500 && Waits(2) == 1500 && Waits(3) == 3500
  {
    assert Doubled(0) == 500 && Doubled(1) == 1000 && Doubled(2) == 2000;
  }

  lemma LastAttempt(posted: int, took: Durations)
    ensures AttemptAt(posted, took, 3) >= posted + 3500 && AttemptAt(posted, took, 0) == posted
  {
    WaitTimes();
    assert took[..0] == [];
  }

  lemma InstantAttempts(posted: int, took: Durations, k: nat)
    requires k < MAX_ATTEMPTS && forall i :: 0 <= i < MAX_ATTEMPTS ==> took[i] == 0
    ensures posted <= AttemptAt(posted, took, k) <= posted + 3500
  {
    NoTime(took[..k]);
    WaitTimes();
    WaitsGrow(k, 3);
  }

  lemma {:induction false} NoTime(ts: seq<nat>)
    requires forall i :: 0 <= i < |ts| ==> ts[i] == 0
    ensures Sum(ts) == 0
  {
    if ts != [] {
      NoTime(ts[..|ts| - 1]);
    }
  }

  /** An outage loses no batch, whenever the batch is posted and however long requests take,
      exactly if it lasts no longer than the three waits between the four attempts. */
  lemma {:induction false} OutageLosesNothingIff(length: nat)
    ensures (forall start, posted, took :: Delivers(TriesDuring(Outage(start, length), posted, took), 0)) <==>
        length <= 3500
  {
    hide Waits, Sum, Delivers;
    if length <= 3500 {
      forall start, posted, took: Durations
        ensures Delivers(TriesDuring(Outage(start, length), posted, took), 0)
      {
        SurvivesOutage(Outage(start, length), posted, took);
      }
    } else {
      var took: Durations := seq(MAX_ATTEMPTS, _ => 0);
      var tries := TriesDuring(Outage(0, length), 0, took);
      forall k | 0 <= k < MAX_ATTEMPTS
        ensures !Accepted(tries[k].reply)
      {
        InstantAttempts(0, took, k);
      }
      DeliversMeans(tries, 0);
      assert forall k: nat :: k < MAX_ATTEMPTS ==> !Accepted(tries[k].reply);
      assert !Delivers(TriesDuring(Outage(0, length), 0, took), 0);
    }
  }

  lemma SurvivesOutage(o: Outage, posted: int, took: Durations)
    requires o.length <= 3500
    ensures Delivers(TriesDuring(o, posted, took), 0)
  {
    hide Waits, Sum, Delivers;
    var tries := TriesDuring(o, posted, took);
    LastAttempt(posted, took);
    DeliversFrom(tries, 0, if Covers(o, posted) then 3 else 0);
  }

  /** When the context never ends, one accepted attempt is enough. */
  lemma {:induction false} DeliversFrom(tries: Tries, i: nat, k: nat)
    requires i <= k < MAX_ATTEMPTS && Accepted(tries[k].reply)
    requires forall j :: 0 <= j < MAX_ATTEMPTS ==> !tries[j].ends
    ensures Delivers(tries, i)
    decreases k - i
  {
    if i < k {
      DeliversFrom(tries, i + 1, k);
    }
  }
}
