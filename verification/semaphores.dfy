/**
 A bounded first-in first-out counting semaphore, and the two independent implementations
 of it in the API server.
 */
module FifoSemaphore {

  type Id = nat

  datatype Outcome = Granted | QueueFull | TimedOut

  /** `arrivals` lists every request that ever had to wait, in order. */
  datatype State = State(
    limit: nat, queueMax: nat, running: set<Id>, queue: seq<Id>, arrivals: seq<Id>, outcomes: map<Id, Outcome>)

  datatype Event = Acquire(id: Id) | Release(id: Id) | Timeout(id: Id)

  function Init(limit: nat, queueMax: nat): State {
    State(limit, queueMax, {}, [], [], map[])
  }

  function Remove(queue: seq<Id>, id: Id): (r: seq<Id>)
    ensures |r| <= |queue|
  {
    if queue == [] then []
    else if queue[0] == id then queue[1..]
    else [queue[0]] + Remove(queue[1..], id)
  }

  predicate Known(s: State, id: Id) { id in s.outcomes || id in s.queue }

  /** Requests are new, releases come from a running request; a timer of a settled request is void. */
  predicate Enabled(s: State, e: Event) {
    match e
    case Acquire(id) => !Known(s, id)
    case Release(id) => id in s.running
    case Timeout(id) => true
  }

  function Step(s: State, e: Event): State {
    match e
    case Acquire(id) =>
      if |s.running| < s.limit then s.(running := s.running + {id}, outcomes := s.outcomes[id := Granted])
      else if |s.queue| >= s.queueMax then s.(outcomes := s.outcomes[id := QueueFull])
      else s.(queue := s.queue + [id], arrivals := s.arrivals + [id])
    case Release(id) =>
      if s.queue == [] then s.(running := s.running - {id})
      else s.(running := s.running - {id} + {s.queue[0]}, queue := s.queue[1..],
              outcomes := s.outcomes[s.queue[0] := Granted])
    case Timeout(id) =>
      if id in s.queue then s.(queue := Remove(s.queue, id), outcomes := s.outcomes[id := TimedOut]) else s
  }

  /** The waiting requests: those that arrived and have no outcome, in arrival order. */
  function Unsettled(arrivals: seq<Id>, outcomes: map<Id, Outcome>): seq<Id> {
    if arrivals == [] then []
    else if arrivals[0] in outcomes then Unsettled(arrivals[1..], outcomes)
    else [arrivals[0]] + Unsettled(arrivals[1..], outcomes)
  }

  predicate NoRepeats(s: seq<Id>) {
    forall i, j :: 0 <= i < j < |s| ==> s[i] != s[j]
  }

  ghost predicate Safe(s: State) {
    && |s.running| <= s.limit
    && |s.queue| <= s.queueMax
    && (s.queue != [] ==> |s.running| == s.limit)
    && s.queue == Unsettled(s.arrivals, s.outcomes)
    && NoRepeats(s.arrivals)
    && (forall id :: id in s.running ==> id in s.outcomes && s.outcomes[id] == Granted)
    && NoOvertaking(s)
  }

  /** Whoever was granted after waiting, everyone who arrived before is settled too. */
  ghost predicate NoOvertaking(s: State) {
    forall i, j :: 0 <= i < j < |s.arrivals| && s.arrivals[j] in s.outcomes && s.outcomes[s.arrivals[j]] == Granted
      ==> s.arrivals[i] in s.outcomes
  }

  lemma {:induction false} UnsettledMembers(arrivals: seq<Id>, outcomes: map<Id, Outcome>)
    ensures forall id :: id in Unsettled(arrivals, outcomes) <==> id in arrivals && id !in outcomes
    ensures NoRepeats(arrivals) ==> NoRepeats(Unsettled(arrivals, outcomes))
  {
    if arrivals != [] {
      UnsettledMembers(arrivals[1..], outcomes);
      assert arrivals == [arrivals[0]] + arrivals[1..];
    }
  }

  lemma {:induction false} UnsettledAppend(arrivals: seq<Id>, outcomes: map<Id, Outcome>, id: Id)
    requires id !in outcomes
    ensures Unsettled(arrivals + [id], outcomes) == Unsettled(arrivals, outcomes) + [id]
  {
    if arrivals != [] {
      UnsettledAppend(arrivals[1..], outcomes, id);
      assert (arrivals + [id])[1..] == arrivals[1..] + [id];
    }
  }

  /** Settling one request removes exactly it from the waiting list. */
  lemma {:induction false} UnsettledSettle(arrivals: seq<Id>, outcomes: map<Id, Outcome>, id: Id, o: Outcome)
    requires NoRepeats(arrivals)
    ensures Unsettled(arrivals, outcomes[id := o])
            == if id in Unsettled(arrivals, outcomes) then Remove(Unsettled(arrivals, outcomes), id)
               else Unsettled(arrivals, outcomes)
  {
    if arrivals != [] {
      UnsettledSettle(arrivals[1..], outcomes, id, o);
      UnsettledMembers(arrivals, outcomes);
      UnsettledMembers(arrivals[1..], outcomes);
      assert arrivals == [arrivals[0]] + arrivals[1..];
      assert arrivals[0] !in arrivals[1..];
    }
  }

  /** The oldest unsettled arrival is the head of the waiting list. */
  lemma {:induction false} HeadIsOldest(arrivals: seq<Id>, outcomes: map<Id, Outcome>, i: nat)
    requires Unsettled(arrivals, outcomes) != [] && NoRepeats(arrivals)
    requires i < |arrivals| && arrivals[i] == Unsettled(arrivals, outcomes)[0]
    ensures forall k :: 0 <= k < i ==> arrivals[k] in outcomes
  {
    UnsettledMembers(arrivals, outcomes);
    if arrivals[0] in outcomes {
      if i > 0 { HeadIsOldest(arrivals[1..], outcomes, i - 1); }
      forall k | 0 <= k < i ensures arrivals[k] in outcomes {
        if k > 0 { assert arrivals[k] == arrivals[1..][k - 1]; }
      }
    }
  }

  lemma AcquireKeepsSafe(s: State, id: Id)
    requires Safe(s) && !Known(s, id)
    ensures Safe(Step(s, Acquire(id)))
    ensures id !in s.arrivals && id !in s.running
  {
    UnsettledMembers(s.arrivals, s.outcomes);
    assert id !in s.arrivals;
    if |s.running| < s.limit {
      UnsettledSettle(s.arrivals, s.outcomes, id, Granted);
    } else if |s.queue| >= s.queueMax {
      UnsettledSettle(s.arrivals, s.outcomes, id, QueueFull);
    } else {
      UnsettledAppend(s.arrivals, s.outcomes, id);
    }
  }

  lemma ReleaseKeepsSafe(s: State, id: Id)
    requires Safe(s) && id in s.running
    ensures Safe(Step(s, Release(id)))
    ensures |Step(s, Release(id)).running| == if s.queue == [] then |s.running| - 1 else |s.running|
    ensures s.queue != [] ==>
      s.queue[0] in s.arrivals && s.queue[0] !in s.outcomes && s.queue[0] !in s.running && s.queue[0] !in s.queue[1..]
  {
    if s.queue != [] {
      var head := s.queue[0];
      UnsettledMembers(s.arrivals, s.outcomes);
      UnsettledSettle(s.arrivals, s.outcomes, head, Granted);
      var i :| 0 <= i < |s.arrivals| && s.arrivals[i] == head;
      HeadIsOldest(s.arrivals, s.outcomes, i);
      assert head !in s.running;
    }
  }

  lemma TimeoutKeepsSafe(s: State, id: Id)
    requires Safe(s)
    ensures Safe(Step(s, Timeout(id)))
    ensures id in s.queue <==> id in s.arrivals && id !in s.outcomes
    ensures id in s.queue ==> |Remove(s.queue, id)| == |s.queue| - 1
    ensures id in s.queue ==> forall x :: x in Remove(s.queue, id) <==> x in s.queue && x != id
  {
    UnsettledMembers(s.arrivals, s.outcomes);
    UnsettledSettle(s.arrivals, s.outcomes, id, TimedOut);
    if id in s.queue { RemoveFacts(s.queue, id); }
  }

  lemma {:induction false} RemoveFacts(queue: seq<Id>, id: Id)
    requires id in queue
    ensures |Remove(queue, id)| == |queue| - 1
    ensures NoRepeats(queue) ==> forall x :: x in Remove(queue, id) <==> x in queue && x != id
  {
    if queue[0] != id {
      RemoveFacts(queue[1..], id);
      assert queue == [queue[0]] + queue[1..];
    }
  }

  lemma StepKeepsSafe(s: State, e: Event)
    requires Safe(s) && Enabled(s, e)
    ensures Safe(Step(s, e))
  {
    match e
    case Acquire(id) => AcquireKeepsSafe(s, id);
    case Release(id) => ReleaseKeepsSafe(s, id);
    case Timeout(id) => TimeoutKeepsSafe(s, id);
  }

  // ---- runs ----

  function Run(s: State, events: seq<Event>): State {
    if events == [] then s else Step(Run(s, events[..|events| - 1]), events[|events| - 1])
  }

  ghost predicate RunEnabled(s: State, events: seq<Event>) {
    forall i :: 0 <= i < |events| ==> Enabled(Run(s, events[..i]), events[i])
  }

  lemma {:induction false} EnabledFront(s: State, events: seq<Event>)
    requires RunEnabled(s, events) && events != []
    ensures RunEnabled(s, events[..|events| - 1])
    ensures Enabled(Run(s, events[..|events| - 1]), events[|events| - 1])
  {
    var front := events[..|events| - 1];
    forall i | 0 <= i < |front| ensures Enabled(Run(s, front[..i]), front[i]) {
      assert front[..i] == events[..i];
      assert Enabled(Run(s, events[..i]), events[i]);
    }
  }

  lemma {:induction false} StaysSafe(s: State, events: seq<Event>)
    requires Safe(s) && RunEnabled(s, events)
    ensures Safe(Run(s, events))
  {
    if events != [] {
      EnabledFront(s, events);
      StaysSafe(s, events[..|events| - 1]);
      StepKeepsSafe(Run(s, events[..|events| - 1]), events[|events| - 1]);
    }
  }

  /** Every reachable state: limits kept, no idle slot while someone waits, first come first served. */
  lemma {:induction false} RunSafe(limit: nat, queueMax: nat, events: seq<Event>)
    requires RunEnabled(Init(limit, queueMax), events)
    ensures Safe(Run(Init(limit, queueMax), events))
  {
    StaysSafe(Init(limit, queueMax), events);
  }

  // ---- why each outcome was given ----

  /** What an event settles, and with what: a slot was free, none was and the queue was full, or the wait ended. */
  predicate Settles(s: State, e: Event, id: Id, o: Outcome) {
    match o
    case Granted =>
      || (e == Acquire(id) && |s.running| < s.limit)
      || (e.Release? && s.queue != [] && s.queue[0] == id)
    case QueueFull => e == Acquire(id) && |s.running| >= s.limit && |s.queue| >= s.queueMax
    case TimedOut => e == Timeout(id) && id in s.queue
  }

  ghost predicate SettledAs(s: State, id: Id, o: Outcome) { id in s.outcomes && s.outcomes[id] == o }

  lemma AcquireSettles(s: State, x: Id, id: Id, o: Outcome)
    requires Safe(s) && !Known(s, x) && id !in s.outcomes
    ensures SettledAs(Step(s, Acquire(x)), id, o) <==> Settles(s, Acquire(x), id, o)
    ensures x == id || id in s.queue ==> Known(Step(s, Acquire(x)), id)
  {
    assert (s.queue + [x])[|s.queue|] == x;
  }

  lemma ReleaseSettles(s: State, x: Id, id: Id, o: Outcome)
    requires Safe(s) && x in s.running && id !in s.outcomes
    ensures SettledAs(Step(s, Release(x)), id, o) <==> Settles(s, Release(x), id, o)
    ensures id in s.queue ==> Known(Step(s, Release(x)), id)
  {
    if s.queue != [] { assert s.queue == [s.queue[0]] + s.queue[1..]; }
  }

  lemma TimeoutSettles(s: State, x: Id, id: Id, o: Outcome)
    requires Safe(s) && id !in s.outcomes
    ensures SettledAs(Step(s, Timeout(x)), id, o) <==> Settles(s, Timeout(x), id, o)
    ensures id in s.queue ==> Known(Step(s, Timeout(x)), id)
  {
    TimeoutKeepsSafe(s, x);
  }

  /** An event gives a request its outcome exactly when there is reason to. */
  lemma StepSettlesExactly(s: State, e: Event, id: Id, o: Outcome)
    requires Safe(s) && Enabled(s, e) && id !in s.outcomes
    ensures SettledAs(Step(s, e), id, o) <==> Settles(s, e, id, o)
    ensures e == Acquire(id) || id in s.queue ==> Known(Step(s, e), id)
  {
    match e
    case Acquire(x) => AcquireSettles(s, x, id, o);
    case Release(x) => ReleaseSettles(s, x, id, o);
    case Timeout(x) => TimeoutSettles(s, x, id, o);
  }

  lemma {:induction false} OutcomesKept(s: State, e: Event, id: Id)
    requires Safe(s) && Enabled(s, e) && id in s.outcomes
    ensures SettledAs(Step(s, e), id, s.outcomes[id])
  {
    UnsettledMembers(s.arrivals, s.outcomes);
  }

  /** Every outcome in a run goes back to the event that gave it, for the reason it states. */
  lemma {:induction false} OutcomesAreEarned(s: State, events: seq<Event>, id: Id) returns (i: nat)
    requires Safe(s) && RunEnabled(s, events) && id !in s.outcomes && id in Run(s, events).outcomes
    ensures i < |events| && Settles(Run(s, events[..i]), events[i], id, Run(s, events).outcomes[id])
  {
    var n := |events| - 1;
    EnabledFront(s, events);
    StaysSafe(s, events[..n]);
    var before := Run(s, events[..n]);
    if id in before.outcomes {
      OutcomesKept(before, events[n], id);
      i := OutcomesAreEarned(s, events[..n], id);
      assert events[..n][..i] == events[..i];
    } else {
      i := n;
      StepSettlesExactly(before, events[n], id, Run(s, events).outcomes[id]);
    }
  }

  lemma {:induction false} StaysKnown(s: State, e: Event, id: Id)
    requires Safe(s) && Enabled(s, e) && (Known(s, id) || e == Acquire(id))
    ensures Known(Step(s, e), id)
  {
    if id in s.outcomes {
      OutcomesKept(s, e, id);
    } else {
      StepSettlesExactly(s, e, id, Granted);
    }
  }

  /** Nobody is forgotten: whoever asked has an outcome or is waiting. */
  lemma {:induction false} NobodyIsForgotten(s: State, events: seq<Event>, id: Id)
    requires Safe(s) && RunEnabled(s, events) && (Known(s, id) || Acquire(id) in events)
    ensures Known(Run(s, events), id)
  {
    if events != [] {
      var n := |events| - 1;
      EnabledFront(s, events);
      StaysSafe(s, events[..n]);
      assert events == events[..n] + [events[n]];
      if Known(s, id) || Acquire(id) in events[..n] { NobodyIsForgotten(s, events[..n], id); }
      StaysKnown(Run(s, events[..n]), events[n], id);
    }
  }

  /** An outcome once given never changes. */
  lemma {:induction false} OutcomesAreFinal(s: State, events: seq<Event>, id: Id)
    requires Safe(s) && RunEnabled(s, events) && id in s.outcomes
    ensures Safe(Run(s, events))
    ensures id in Run(s, events).outcomes && Run(s, events).outcomes[id] == s.outcomes[id]
  {
    if events != [] {
      var n := |events| - 1;
      EnabledFront(s, events);
      OutcomesAreFinal(s, events[..n], id);
      OutcomesKept(Run(s, events[..n]), events[n], id);
      StepKeepsSafe(Run(s, events[..n]), events[n]);
    }
  }
}

/** `class Semaphore`: a count of free slots, a queue of promises, timers that are cleared on promotion. */
module PromiseSemaphore {
  import opened FifoSemaphore

  datatype AcquireResult = Resolved | Rejected | Waiting

  lemma PromoteFacts(s: State, id: Id) returns (t: State)
    requires Safe(s) && id in s.running && s.queue != []
    ensures t == Step(s, FifoSemaphore.Release(id)) && Safe(t)
    ensures t.limit == s.limit && t.queueMax == s.queueMax && t.arrivals == s.arrivals && |t.running| == |s.running|
    ensures t.queue == s.queue[1..] && t.outcomes == s.outcomes[s.queue[0] := Granted]
    ensures (set x | x in s.queue[1..]) == (set x | x in s.queue) - {s.queue[0]}
  {
    ReleaseKeepsSafe(s, id);
    t := Step(s, FifoSemaphore.Release(id));
    assert s.queue == [s.queue[0]] + s.queue[1..];
  }

  class Semaphore {
    const max: nat
    const queueMax: nat
    var available: int
    var queue: seq<Id>
    var timers: set<Id>
    var settled: map<Id, Outcome>
    var totalAcquired: nat
    var totalReleased: nat
    var totalQueued: nat
    var totalTimedOut: nat
    var totalRejected: nat
    var peakConcurrent: nat
    var peakQueueDepth: nat
    /** The abstract semaphore this object stands for. */
    ghost var spec: State
    ghost var promoted: nat

    /** The fields represent `spec`; the counters account for every slot and every wait. */
    ghost predicate Valid()
      reads this
    {
      && Safe(spec)
      && spec.limit == max && spec.queueMax == queueMax && spec.queue == queue && spec.outcomes == settled
      && available == max - |spec.running|
      && timers == (set id | id in queue)
      && totalAcquired - totalReleased == |spec.running|
      && totalQueued == |spec.arrivals| == |queue| + totalTimedOut + promoted
      && |spec.running| <= peakConcurrent <= max
      && |queue| <= peakQueueDepth <= queueMax
    }

    constructor (max: nat, queueMax: nat)
      ensures Valid() && spec == Init(max, queueMax)
    {
      this.max, this.queueMax, this.available := max, queueMax, max;
      queue, timers, settled := [], {}, map[];
      totalAcquired, totalReleased, totalQueued, totalTimedOut, totalRejected := 0, 0, 0, 0, 0;
      peakConcurrent, peakQueueDepth := 0, 0;
      spec, promoted := Init(max, queueMax), 0;
    }

    method Acquire(id: Id) returns (r: AcquireResult)
      requires Valid() && !Known(spec, id)
      modifies this
      ensures Valid() && spec == Step(old(spec), FifoSemaphore.Acquire(id))
      ensures r == if |old(spec.running)| < max then Resolved else if |old(queue)| >= queueMax then Rejected
        else Waiting
    {
      if available > 0 {
        TakeSlot(id);
        r := Resolved;
      } else if |queue| >= queueMax {
        Refuse(id);
        r := Rejected;
      } else {
        Enqueue(id);
        r := Waiting;
      }
    }

    method TakeSlot(id: Id)
      requires Valid() && !Known(spec, id) && available > 0
      modifies this
      ensures Valid() && spec == Step(old(spec), FifoSemaphore.Acquire(id))
    {
      AcquireKeepsSafe(spec, id);
      spec := Step(spec, FifoSemaphore.Acquire(id));
      available := available - 1;
      totalAcquired := totalAcquired + 1;
      settled := settled[id := Granted];
      var current := max - available;
      if current > peakConcurrent { peakConcurrent := current; }
    }

    method Refuse(id: Id)
      requires Valid() && !Known(spec, id) && available <= 0 && |queue| >= queueMax
      modifies this
      ensures Valid() && spec == Step(old(spec), FifoSemaphore.Acquire(id))
    {
      AcquireKeepsSafe(spec, id);
      spec := Step(spec, FifoSemaphore.Acquire(id));
      totalRejected := totalRejected + 1;
      settled := settled[id := QueueFull];
    }

    method Enqueue(id: Id)
      requires Valid() && !Known(spec, id) && available <= 0 && |queue| < queueMax
      modifies this
      ensures Valid() && spec == Step(old(spec), FifoSemaphore.Acquire(id))
    {
      AcquireKeepsSafe(spec, id);
      spec := Step(spec, FifoSemaphore.Acquire(id));
      totalQueued := totalQueued + 1;
      var queueDepth := |queue| + 1;
      if queueDepth > peakQueueDepth { peakQueueDepth := queueDepth; }
      timers := timers + {id};
      queue := queue + [id];
    }

    /** Give a slot back; the oldest waiter takes it over without it ever becoming free. */
    method Release(ghost id: Id)
      requires Valid() && id in spec.running
      modifies this
      ensures Valid() && spec == Step(old(spec), FifoSemaphore.Release(id))
    {
      if |queue| > 0 {
        PromoteOldest(id);
      } else {
        ReleaseKeepsSafe(spec, id);
        spec := Step(spec, FifoSemaphore.Release(id));
        totalReleased := totalReleased + 1;
        available := available + 1;
      }
    }

    method PromoteOldest(ghost id: Id)
      requires Valid() && id in spec.running && queue != []
      modifies this
      ensures Valid() && spec == Step(old(spec), FifoSemaphore.Release(id))
    {
      ghost var t := PromoteFacts(spec, id);
      HandOver();
      spec := t;
    }

    /** The slot goes straight to the head of the queue. */
    method HandOver()
      requires queue != [] && available <= max
      modifies this`totalReleased, this`queue, this`timers, this`totalAcquired, this`peakConcurrent, this`settled,
        this`promoted
      ensures totalReleased == old(totalReleased) + 1 && totalAcquired == old(totalAcquired) + 1
        && promoted == old(promoted) + 1
      ensures queue == old(queue)[1..] && timers == old(timers) - {old(queue)[0]}
        && settled == old(settled)[old(queue)[0] := Granted]
      ensures peakConcurrent == if max - available > old(peakConcurrent) then max - available else old(peakConcurrent)
    {
      var entry := queue[0];
      totalReleased := totalReleased + 1;
      queue := queue[1..];
      timers := timers - {entry};
      totalAcquired := totalAcquired + 1;
      var current := max - available;
      if current > peakConcurrent { peakConcurrent := current; }
      settled := settled[entry := Granted];
      promoted := promoted + 1;
    }

    /** A queue timer fires; the timers of promoted requests have been cleared. */
    method Timeout(id: Id)
      requires Valid()
      modifies this
      ensures Valid() && spec == Step(old(spec), FifoSemaphore.Timeout(id))
    {
      TimeoutKeepsSafe(spec, id);
      spec := Step(spec, FifoSemaphore.Timeout(id));
      if id in timers {
        timers := timers - {id};
        queue := Remove(queue, id);
        totalTimedOut := totalTimedOut + 1;
        settled := settled[id := TimedOut];
      }
    }
  }
}

/** `createConcurrencyLimiter`: a count of active requests, a queue of callbacks guarded by settled flags. */
module CallbackLimiter {
  import opened FifoSemaphore

  class EndpointState {
    const maxConcurrent: nat
    const maxQueue: nat
    var active: int
    var queue: seq<Id>
    /** Flags in the callbacks of waiting requests, and in the completion callbacks of admitted ones. */
    var settledFlag: set<Id>
    var releasedFlag: set<Id>
    /** What each request got: handed to the next handler, or a 503 of either kind. */
    var responses: map<Id, Outcome>
    var totalProcessed: nat
    var totalQueued: nat
    var totalRejected: nat
    var totalTimedOut: nat
    /** The abstract semaphore this endpoint stands for. */
    ghost var spec: State
    ghost var promoted: nat

    ghost predicate Valid()
      reads this
    {
      && Safe(spec)
      && spec.limit == maxConcurrent && spec.queueMax == maxQueue && spec.queue == queue
      && spec.outcomes == responses
      && active == |spec.running|
      && (forall id :: id in settledFlag <==> id in spec.arrivals && id in responses)
      && (forall id :: id in releasedFlag <==> Finished(spec, id))
      && totalQueued == |spec.arrivals| == |queue| + totalTimedOut + promoted
      && totalProcessed == |releasedFlag|
    }

    constructor (maxConcurrent: nat, maxQueue: nat)
      ensures Valid() && spec == Init(maxConcurrent, maxQueue)
    {
      this.maxConcurrent, this.maxQueue := maxConcurrent, maxQueue;
      active, queue, settledFlag, releasedFlag, responses := 0, [], {}, {}, map[];
      totalProcessed, totalQueued, totalRejected, totalTimedOut := 0, 0, 0, 0;
      spec, promoted := Init(maxConcurrent, maxQueue), 0;
    }

    /** The middleware's admission decision for a new request. */
    method Request(id: Id)
      requires Valid() && !Known(spec, id)
      modifies this
      ensures Valid() && spec == Step(old(spec), Acquire(id))
    {
      if active < maxConcurrent {
        Start(id);
      } else {
        QueueOrRefuse(id);
      }
    }

    method Start(id: Id)
      requires Valid() && !Known(spec, id) && active < maxConcurrent
      modifies this
      ensures Valid() && spec == Step(old(spec), Acquire(id))
    {
      AcquireKeepsSafe(spec, id);
      spec := Step(spec, Acquire(id));
      active := active + 1;
      responses := responses[id := Granted];
    }

    method QueueOrRefuse(id: Id)
      requires Valid() && !Known(spec, id) && active >= maxConcurrent
      modifies this
      ensures Valid() && spec == Step(old(spec), Acquire(id))
    {
      AcquireKeepsSafe(spec, id);
      spec := Step(spec, Acquire(id));
      if |queue| >= maxQueue {
        totalRejected := totalRejected + 1;
        responses := responses[id := QueueFull];
      } else {
        totalQueued := totalQueued + 1;
        queue := queue + [id];
      }
    }

    /** 'finish' or 'close' of an admitted request; only the first of them releases the slot. */
    method Done(id: Id)
      requires Valid() && id in spec.outcomes && spec.outcomes[id] == Granted
      modifies this
      ensures Valid()
      ensures spec == if id in old(spec.running) then Step(old(spec), Release(id)) else old(spec)
    {
      if id !in releasedFlag {
        releasedFlag := releasedFlag + {id};
        ghost var t := ReleaseFacts(spec, id, releasedFlag, settledFlag);
        ReleaseSlot();
        spec := t;
      }
    }

    /** `release`: the head of the queue, if any, is called back at once. */
    method ReleaseSlot()
      modifies this`active, this`totalProcessed, this`queue, this`settledFlag, this`responses, this`promoted
      ensures totalProcessed == old(totalProcessed) + 1
      ensures old(queue) == [] ==>
        && active == old(active) - 1 && queue == [] && settledFlag == old(settledFlag)
        && responses == old(responses) && promoted == old(promoted)
      ensures old(queue) != [] ==> active == old(active) && queue == old(queue)[1..]
      ensures old(queue) != [] && old(queue)[0] !in old(settledFlag) ==>
        && settledFlag == old(settledFlag) + {old(queue)[0]}
        && responses == old(responses)[old(queue)[0] := Granted] && promoted == old(promoted) + 1
    {
      active := active - 1;
      totalProcessed := totalProcessed + 1;
      if |queue| > 0 {
        var next := queue[0];
        queue := queue[1..];
        active := active + 1;
        Admit(next);
      }
    }

    /** The callback of a waiting request: hands it to the next handler unless it is settled. */
    method Admit(id: Id)
      modifies this`settledFlag, this`responses, this`promoted
      ensures id in old(settledFlag) ==>
        settledFlag == old(settledFlag) && responses == old(responses) && promoted == old(promoted)
      ensures id !in old(settledFlag) ==>
        settledFlag == old(settledFlag) + {id} && responses == old(responses)[id := Granted]
          && promoted == old(promoted) + 1
    {
      if id !in settledFlag {
        settledFlag := settledFlag + {id};
        responses := responses[id := Granted];
        promoted := promoted + 1;
      }
    }

    /** A queue timer fires; it does nothing for a request that is settled. */
    method TimerFires(id: Id)
      requires Valid() && id in spec.arrivals
      modifies this
      ensures Valid() && spec == Step(old(spec), Timeout(id))
    {
      TimeoutKeepsSafe(spec, id);
      spec := Step(spec, Timeout(id));
      if id !in settledFlag {
        settledFlag := settledFlag + {id};
        queue := Remove(queue, id);
        totalTimedOut := totalTimedOut + 1;
        responses := responses[id := TimedOut];
      }
    }
  }

  /** Admitted and no longer running. */
  predicate Finished(s: State, id: Id) {
    id in s.outcomes && s.outcomes[id] == Granted && id !in s.running
  }

  /** The state after a release, seen from the fields. */
  lemma ReleaseFacts(s: State, id: Id, released: set<Id>, settled: set<Id>) returns (t: State)
    requires Safe(s) && id in s.running
    requires forall x :: x in released <==> Finished(s, x) || x == id
    requires forall x :: x in settled <==> x in s.arrivals && x in s.outcomes
    ensures t == Step(s, Release(id)) && Safe(t)
    ensures t.limit == s.limit && t.queueMax == s.queueMax && t.arrivals == s.arrivals
    ensures forall x :: x in released <==> Finished(t, x)
    ensures s.queue == [] ==> t.queue == [] && t.outcomes == s.outcomes && |t.running| == |s.running| - 1
    ensures s.queue != [] ==>
      && t.queue == s.queue[1..] && t.outcomes == s.outcomes[s.queue[0] := Granted] && |t.running| == |s.running|
      && s.queue[0] !in settled
      && forall x :: x in settled + {s.queue[0]} <==> x in t.arrivals && x in t.outcomes
  {
    t := Step(s, Release(id));
    ReleaseKeepsSafe(s, id);
  }
}

/** The two implementations side by side. */
module LimitersAgree {
  import opened FifoSemaphore
  import P = PromiseSemaphore
  import C = CallbackLimiter

  type Outcomes = map<Id, Outcome>

  /**
   Under equal limits both implementations give every request the same outcome, hold the same
   number of slots and the same waiting list, whatever the order of requests, completions
   and timeouts.
   */
  method RunBoth(limit: nat, queueMax: nat, events: seq<Event>)
    returns (settled: Outcomes, responses: Outcomes, held: int, active: int, waiting: seq<Id>, queue: seq<Id>)
    requires RunEnabled(Init(limit, queueMax), events)
    ensures settled == responses == Run(Init(limit, queueMax), events).outcomes
    ensures waiting == queue == Run(Init(limit, queueMax), events).queue
    ensures held == active == |Run(Init(limit, queueMax), events).running| <= limit
    ensures queue != [] ==> active == limit
  {
    ghost var init := Init(limit, queueMax);
    var a := new P.Semaphore(limit, queueMax);
    var b := new C.EndpointState(limit, queueMax);
    for i := 0 to |events|
      invariant a.Valid() && b.Valid() && fresh(a) && fresh(b)
      invariant a.max == limit && b.maxConcurrent == limit
      invariant a.spec == b.spec == Run(init, events[..i])
    {
      assert Enabled(Run(init, events[..i]), events[i]);
      assert events[..i + 1][..i] == events[..i];
      UnsettledMembers(b.spec.arrivals, b.spec.outcomes);
      match events[i] {
        case Acquire(id) =>
          var r := a.Acquire(id);
          b.Request(id);
        case Release(id) =>
          a.Release(id);
          b.Done(id);
        case Timeout(id) =>
          a.Timeout(id);
          // A request that never waited has no timer.
          if id in b.settledFlag || id in b.queue { b.TimerFires(id); }
      }
    }
    assert events[..|events|] == events;
    settled, held, waiting := a.settled, a.max - a.available, a.queue;
    responses, active, queue := b.responses, b.active, b.queue;
  }
}
