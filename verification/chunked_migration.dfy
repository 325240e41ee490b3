/**
 The chunked on-chain migration of credential metadata, and the off-chain orchestrator that
 drives it through crashes, lost replies and concurrent activity.
 */
module ChunkedMigration {
  import opened JsText
  import RealFacts

  type Data = string

  /** A stored credential: its schema marker (0 when none is stored), and its metadata if any. */
  datatype Item = Item(schema: nat, metadata: Option<Data>)

  /** `u(v, d)` is the transform of metadata from version v to v + 1. */
  type Upgrade = (nat, Data) -> Data

  const MAX_CHUNK_SIZE: nat := 200
  const MAX_METADATA_BYTES_SIZE: nat := 1024

  datatype Job = Job(
    cursor: nat, total: nat, migrated: nat, skipped: nat, completed: bool,
    startedAt: nat, updatedAt: nat, completedAt: Option<nat>)

  /** Where stored metadata comes from: as last written, and the transforms applied to it since. */
  datatype Origin = Origin(version: nat, data: Data, applied: seq<nat>)

  /**
   Contract storage. Jobs are keyed by their target version. `origins` and `examined`, the ids
   each job has looked at, are bookkeeping for the statements below.
   */
  datatype Ledger = Ledger(
    items: map<nat, Item>, count: nat, active: nat, registered: set<nat>, jobs: map<nat, Job>,
    origins: map<nat, Origin>, examined: map<nat, seq<nat>>)

  /** Calls to the contract. A sweep is the single-transaction migration of a range of ids. */
  datatype Event =
    | Start(version: nat, now: nat)
    | Chunk(version: nat, size: nat, now: nat)
    | Sweep(version: nat, lo: nat, hi: nat)
    | IssueDirect
    | IssueInBatch
    | Write(id: nat, data: Data)
    | Relabel(id: nat)
    | Register(version: nat)
    | Activate(version: nat)
    | Restore(count: nat)

  // ---- transforms ----

  function Range(from: nat, upTo: nat): seq<nat> {
    if upTo <= from then [] else Range(from, upTo - 1) + [upTo - 1]
  }

  /** Apply the transforms v -> v + 1 for every version in between. */
  function Apply(u: Upgrade, from: nat, upTo: nat, d: Data): Data
    decreases upTo
  {
    if upTo <= from then d else u(upTo - 1, Apply(u, from, upTo - 1, d))
  }

  /** Apply a list of transforms, first one first. */
  function Replay(u: Upgrade, d: Data, applied: seq<nat>): Data {
    if applied == [] then d else u(applied[|applied| - 1], Replay(u, d, applied[..|applied| - 1]))
  }

  lemma {:induction false} RangeJoin(a: nat, b: nat, c: nat)
    requires a <= b <= c
    ensures Range(a, b) + Range(b, c) == Range(a, c)
  {
    if b < c {
      RangeJoin(a, b, c - 1);
      assert Range(a, b) + (Range(b, c - 1) + [c - 1]) == Range(a, b) + Range(b, c - 1) + [c - 1];
    }
  }

  lemma {:induction false} RangeLength(from: nat, upTo: nat)
    ensures |Range(from, upTo)| == if upTo <= from then 0 else upTo - from
    decreases upTo
  {
    if from < upTo { RangeLength(from, upTo - 1); }
  }

  lemma {:induction false} ApplyInStages(u: Upgrade, from: nat, mid: nat, upTo: nat, d: Data)
    requires from <= mid <= upTo
    ensures Apply(u, mid, upTo, Apply(u, from, mid, d)) == Apply(u, from, upTo, d)
  {
    if mid < upTo { ApplyInStages(u, from, mid, upTo - 1, d); }
  }

  lemma {:induction false} ReplayRange(u: Upgrade, d: Data, applied: seq<nat>, from: nat, upTo: nat)
    ensures Replay(u, d, applied + Range(from, upTo)) == Apply(u, from, upTo, Replay(u, d, applied))
    decreases upTo
  {
    if upTo <= from {
      assert applied + Range(from, upTo) == applied;
    } else {
      ReplayRange(u, d, applied, from, upTo - 1);
      var all := applied + Range(from, upTo);
      assert all[..|all| - 1] == applied + Range(from, upTo - 1) && all[|all| - 1] == upTo - 1;
    }
  }

  // ---- migrating one item ----

  predicate Migrates(t: nat, x: Item) { x.schema < t && x.metadata.Some? }

  /** What a chunk does to an existing item: transform, or only bump the version marker. */
  function MigrateItem(u: Upgrade, t: nat, x: Item): Item {
    if x.schema >= t then x
    else match x.metadata
      case Some(d) => Item(t, Some(Apply(u, x.schema, t, d)))
      case None => Item(t, None)
  }

  /** What a sweep does: items without metadata stay as they are. */
  function SweepItem(u: Upgrade, t: nat, x: Item): Item {
    if Migrates(t, x) then MigrateItem(u, t, x) else x
  }

  /** Migrating to one version and later to a higher one is migrating straight to the higher one. */
  lemma MigrateInStages(u: Upgrade, low: nat, high: nat, x: Item)
    requires low <= high
    ensures MigrateItem(u, high, MigrateItem(u, low, x)) == MigrateItem(u, high, x)
  {
    if x.schema < low && x.metadata.Some? {
      ApplyInStages(u, x.schema, low, high, x.metadata.value);
    }
  }

  /**
   The two entry points can be mixed in any order: each leaves what the other has done, and
   they differ exactly on items below the target version that have no metadata.
   */
  lemma EntryPointsCompatible(u: Upgrade, t: nat, x: Item)
    ensures MigrateItem(u, t, SweepItem(u, t, x)) == MigrateItem(u, t, x)
    ensures SweepItem(u, t, MigrateItem(u, t, x)) == MigrateItem(u, t, x)
    ensures MigrateItem(u, t, MigrateItem(u, t, x)) == MigrateItem(u, t, x)
    ensures SweepItem(u, t, SweepItem(u, t, x)) == SweepItem(u, t, x)
    ensures SweepItem(u, t, x) == MigrateItem(u, t, x) <==> !(x.schema < t && x.metadata.None?)
  {
  }

  // ---- spans of items ----

  function MigrateSpan(u: Upgrade, t: nat, items: map<nat, Item>, lo: nat, n: nat): map<nat, Item> {
    if n == 0 then items
    else
      var id, front := lo + n - 1, MigrateSpan(u, t, items, lo, n - 1);
      if id in front then front[id := MigrateItem(u, t, front[id])] else front
  }

  function CountMigrated(t: nat, items: map<nat, Item>, lo: nat, n: nat): (k: nat)
    ensures k <= n
  {
    if n == 0 then 0
    else
      var id := lo + n - 1;
      CountMigrated(t, items, lo, n - 1) + if id in items && Migrates(t, items[id]) then 1 else 0
  }

  lemma {:induction false} SpanMembers(u: Upgrade, t: nat, items: map<nat, Item>, lo: nat, n: nat)
    ensures MigrateSpan(u, t, items, lo, n).Keys == items.Keys
    ensures forall id :: id in items ==>
      MigrateSpan(u, t, items, lo, n)[id] == if lo <= id < lo + n then MigrateItem(u, t, items[id]) else items[id]
  {
    if n > 0 { SpanMembers(u, t, items, lo, n - 1); }
  }

  function SweepSpan(u: Upgrade, t: nat, items: map<nat, Item>, lo: nat, hi: nat): map<nat, Item> {
    map id | id in items :: if lo <= id <= hi then SweepItem(u, t, items[id]) else items[id]
  }

  /** The transforms of the metadata in ids lo to hi are recorded. */
  function RecordSpan(t: nat, items: map<nat, Item>, origins: map<nat, Origin>, lo: nat, hi: int): map<nat, Origin> {
    map id | id in origins ::
      if lo <= id <= hi && id in items && Migrates(t, items[id])
      then origins[id].(applied := origins[id].applied + Range(items[id].schema, t))
      else origins[id]
  }

  // ---- contract entry points ----

  /** The target version is registered and not beyond the active one. */
  predicate MayMigrate(l: Ledger, t: nat) { t > 0 && t in l.registered && t <= l.active }

  /** Create the job unless it exists. */
  function StartJob(l: Ledger, t: nat, now: nat): Ledger {
    if !MayMigrate(l, t) || t in l.jobs then l
    else
      var done := l.count == 0;
      var job := Job(1, l.count, 0, 0, done, now, now, if done then Some(now) else None);
      l.(jobs := l.jobs[t := job], examined := l.examined[t := []])
  }

  function ClampChunkSize(requested: nat): (size: nat)
    ensures 1 <= size <= MAX_CHUNK_SIZE
  {
    if requested == 0 || requested > MAX_CHUNK_SIZE then MAX_CHUNK_SIZE else requested
  }

  /** How many items the next chunk covers. */
  function ChunkLength(job: Job, size: nat): nat {
    var end := job.cursor + ClampChunkSize(size) - 1;
    var last := if end < job.total then end else job.total;
    if last >= job.cursor then last - job.cursor + 1 else 0
  }

  function Advance(job: Job, examined: nat, migrated: nat, skipped: nat, now: nat): Job {
    var cursor := job.cursor + examined;
    var done := cursor > job.total;
    job.(cursor := cursor, migrated := job.migrated + migrated, skipped := job.skipped + skipped, updatedAt := now,
         completed := job.completed || done, completedAt := if done then Some(now) else job.completedAt)
  }

  function Examined(l: Ledger, t: nat): seq<nat> { if t in l.examined then l.examined[t] else [] }

  /** Process the next chunk from the stored cursor; a completed job is left alone. */
  function NextChunk(u: Upgrade, l: Ledger, t: nat, size: nat, now: nat): Ledger {
    if t !in l.jobs || l.jobs[t].completed then l
    else
      var job := l.jobs[t];
      var n := ChunkLength(job, size);
      var migrated := CountMigrated(t, l.items, job.cursor, n);
      l.(items := MigrateSpan(u, t, l.items, job.cursor, n),
         jobs := l.jobs[t := Advance(job, n, migrated, n - migrated, now)],
         origins := RecordSpan(t, l.items, l.origins, job.cursor, job.cursor + n - 1),
         examined := l.examined[t := Examined(l, t) + Range(job.cursor, job.cursor + n)])
  }

  /** Direct issue stores no schema marker; an id handed out again keeps what is stored under it. */
  function ItemAt(l: Ledger, id: nat): Item { if id in l.items then l.items[id] else Item(0, None) }

  /** Several write paths set the marker to the active version and leave the metadata alone. */
  function Relabelled(l: Ledger, x: Item): Item { if l.active > 0 then x.(schema := l.active) else x }

  predicate MayWrite(l: Ledger, id: nat, data: Data) {
    && id in l.items
    && (l.active > 0 ==> l.active in l.registered && 0 < |data| <= MAX_METADATA_BYTES_SIZE)
  }

  function Step(u: Upgrade, l: Ledger, e: Event): Ledger {
    match e
    case Start(t, now) => StartJob(l, t, now)
    case Chunk(t, size, now) => NextChunk(u, l, t, size, now)
    case Sweep(t, lo, hi) =>
      if MayMigrate(l, t) && lo <= hi
      then l.(items := SweepSpan(u, t, l.items, lo, hi), origins := RecordSpan(t, l.items, l.origins, lo, hi))
      else l
    case IssueDirect =>
      var id := l.count + 1;
      l.(count := id, items := l.items[id := ItemAt(l, id)])
    case IssueInBatch =>
      var id := l.count + 1;
      l.(count := id, items := l.items[id := Relabelled(l, ItemAt(l, id))])
    case Write(id, data) =>
      if !MayWrite(l, id, data) then l
      else
        l.(items := l.items[id := Item(l.active, Some(data))],
           origins := l.origins[id := Origin(l.active, data, [])])
    case Relabel(id) => if id in l.items then l.(items := l.items[id := Relabelled(l, l.items[id])]) else l
    case Register(version) =>
      if version > 0 && version !in l.registered && version == l.active + 1
      then l.(registered := l.registered + {version})
      else l
    case Activate(version) => if version in l.registered then l.(active := version) else l
    case Restore(count) => l.(count := count)
  }

  // ---- what every call keeps ----

  ghost predicate JobConsistent(job: Job, examined: seq<nat>) {
    && 1 <= job.cursor <= job.total + 1
    && (job.completed <==> job.cursor > job.total)
    && (job.completed <==> job.completedAt.Some?)
    && job.migrated + job.skipped == job.cursor - 1
    && examined == Range(1, job.cursor)
  }

  ghost predicate JobInv(l: Ledger, t: nat) {
    t in l.jobs ==> t > 0 && JobConsistent(l.jobs[t], Examined(l, t))
  }

  /** Stored metadata is what was last written, taken through the recorded transforms. */
  ghost predicate Recorded(u: Upgrade, l: Ledger) {
    forall id :: id in l.items && l.items[id].metadata.Some? ==>
      && id in l.origins
      && l.items[id].metadata.value == Replay(u, l.origins[id].data, l.origins[id].applied)
  }

  ghost predicate Inv(u: Upgrade, l: Ledger) {
    Recorded(u, l) && forall t :: JobInv(l, t)
  }

  /** A ledger before any job exists, its metadata taken as written. */
  ghost predicate Fresh(l: Ledger) {
    && l.jobs == map[]
    && (forall id :: id in l.items && l.items[id].metadata.Some? ==>
          id in l.origins && l.origins[id] == Origin(l.items[id].schema, l.items[id].metadata.value, []))
  }

  lemma ChunkKeepsJob(u: Upgrade, l: Ledger, t: nat, size: nat, now: nat)
    requires JobInv(l, t)
    ensures JobInv(NextChunk(u, l, t, size, now), t)
  {
    if t in l.jobs && !l.jobs[t].completed {
      var job := l.jobs[t];
      var n := ChunkLength(job, size);
      assert n >= 1 && job.cursor + n <= job.total + 1;
      RangeJoin(1, job.cursor, job.cursor + n);
    }
  }

  lemma StepKeepsJobs(u: Upgrade, l: Ledger, e: Event)
    requires forall t :: JobInv(l, t)
    ensures forall t :: JobInv(Step(u, l, e), t)
  {
    forall t ensures JobInv(Step(u, l, e), t) {
      assert JobInv(l, t);
      if e.Chunk? && e.version == t { ChunkKeepsJob(u, l, t, e.size, e.now); }
    }
  }

  lemma MigratedIsRecorded(u: Upgrade, t: nat, x: Item, o: Origin)
    requires Migrates(t, x) && x.metadata.value == Replay(u, o.data, o.applied)
    ensures MigrateItem(u, t, x).metadata.value == Replay(u, o.data, o.applied + Range(x.schema, t))
  {
    ReplayRange(u, o.data, o.applied, x.schema, t);
  }

  lemma ChunkKeepsRecord(u: Upgrade, l: Ledger, t: nat, size: nat, now: nat)
    requires Recorded(u, l)
    ensures Recorded(u, NextChunk(u, l, t, size, now))
  {
    if t in l.jobs && !l.jobs[t].completed {
      var lo, n := l.jobs[t].cursor, ChunkLength(l.jobs[t], size);
      SpanMembers(u, t, l.items, lo, n);
      forall id | id in l.items && Migrates(t, l.items[id]) && lo <= id < lo + n
        ensures MigrateItem(u, t, l.items[id]).metadata.value
                == Replay(u, l.origins[id].data, l.origins[id].applied + Range(l.items[id].schema, t))
      {
        MigratedIsRecorded(u, t, l.items[id], l.origins[id]);
      }
    }
  }

  lemma SweepKeepsRecord(u: Upgrade, l: Ledger, t: nat, lo: nat, hi: nat)
    requires Recorded(u, l)
    ensures Recorded(u, Step(u, l, Sweep(t, lo, hi)))
  {
    forall id | id in l.items && Migrates(t, l.items[id])
      ensures MigrateItem(u, t, l.items[id]).metadata.value
              == Replay(u, l.origins[id].data, l.origins[id].applied + Range(l.items[id].schema, t))
    {
      MigratedIsRecorded(u, t, l.items[id], l.origins[id]);
    }
  }

  lemma StepKeepsInv(u: Upgrade, l: Ledger, e: Event)
    requires Inv(u, l)
    ensures Inv(u, Step(u, l, e))
  {
    StepKeepsJobs(u, l, e);
    if e.Chunk? {
      ChunkKeepsRecord(u, l, e.version, e.size, e.now);
    } else if e.Sweep? {
      SweepKeepsRecord(u, l, e.version, e.lo, e.hi);
    }
  }

  // ---- schema versions ----

  /** The registered versions have no gap, and the active one is among them. */
  ghost predicate VersionsInOrder(l: Ledger) {
    && (forall v: nat :: v in l.registered ==> v > 0 && (v == 1 || v - 1 in l.registered))
    && (l.active == 0 || l.active in l.registered)
  }

  lemma StepKeepsVersions(u: Upgrade, l: Ledger, e: Event)
    requires VersionsInOrder(l)
    ensures VersionsInOrder(Step(u, l, e)) && l.registered <= Step(u, l, e).registered
    ensures forall v :: v !in l.registered ==>
      (v in Step(u, l, e).registered <==> e == Register(v) && v == l.active + 1)
    ensures Step(u, l, e).active != l.active ==> e == Activate(Step(u, l, e).active)
    ensures e.Activate? ==> Step(u, l, e).active == if e.version in l.registered then e.version else l.active
  {
  }

  // ---- what the counters count ----

  /** The ids of a span whose metadata is below the target version. */
  ghost function Outdated(t: nat, items: map<nat, Item>, lo: nat, n: nat): set<nat> {
    set id | id in items && lo <= id < lo + n && items[id].schema < t && items[id].metadata.Some?
  }

  lemma {:induction false} CountIsOutdated(t: nat, items: map<nat, Item>, lo: nat, n: nat)
    ensures CountMigrated(t, items, lo, n) == |Outdated(t, items, lo, n)|
  {
    if n == 0 {
      assert Outdated(t, items, lo, n) == {};
    } else {
      var id, front := lo + n - 1, Outdated(t, items, lo, n - 1);
      CountIsOutdated(t, items, lo, n - 1);
      assert Outdated(t, items, lo, n)
        == if id in items && items[id].schema < t && items[id].metadata.Some? then front + {id} else front;
    }
  }

  /** The ids whose metadata was transformed on the way from one ledger to another. */
  ghost function Transformed(l: Ledger, m: Ledger): set<nat> {
    set id | id in l.items && id in l.origins && id in m.origins && |m.origins[id].applied| > |l.origins[id].applied|
  }

  lemma {:induction false} ChunkTransforms(u: Upgrade, l: Ledger, t: nat, size: nat, now: nat)
    requires Recorded(u, l) && t in l.jobs && !l.jobs[t].completed
    ensures Transformed(l, NextChunk(u, l, t, size, now))
            == Outdated(t, l.items, l.jobs[t].cursor, ChunkLength(l.jobs[t], size))
  {
    var m, lo, n := NextChunk(u, l, t, size, now), l.jobs[t].cursor, ChunkLength(l.jobs[t], size);
    forall id | id in l.items && id in l.origins
      ensures |m.origins[id].applied| > |l.origins[id].applied|
        <==> lo <= id < lo + n && Migrates(t, l.items[id])
    {
      RangeLength(l.items[id].schema, t);
    }
  }

  /** A chunk counts as migrated exactly the items it transforms, and the rest of its span as skipped. */
  lemma {:induction false} ChunkCountsTransforms(u: Upgrade, l: Ledger, t: nat, size: nat, now: nat)
    requires Inv(u, l) && t in l.jobs && !l.jobs[t].completed
    ensures var m := NextChunk(u, l, t, size, now);
            var job, before, transformed := m.jobs[t], l.jobs[t], |Transformed(l, m)|;
            && job.migrated == before.migrated + transformed
            && job.skipped == before.skipped + (job.cursor - before.cursor) - transformed
  {
    ChunkTransforms(u, l, t, size, now);
    CountIsOutdated(t, l.items, l.jobs[t].cursor, ChunkLength(l.jobs[t], size));
  }

  // ---- runs ----

  function Run(u: Upgrade, l: Ledger, events: seq<Event>): Ledger {
    if events == [] then l else Step(u, Run(u, l, events[..|events| - 1]), events[|events| - 1])
  }

  lemma {:induction false} RunKeepsInv(u: Upgrade, l: Ledger, events: seq<Event>)
    requires Inv(u, l)
    ensures Inv(u, Run(u, l, events))
  {
    if events != [] {
      RunKeepsInv(u, l, events[..|events| - 1]);
      StepKeepsInv(u, Run(u, l, events[..|events| - 1]), events[|events| - 1]);
    }
  }

  predicate Completed(l: Ledger, t: nat) { t in l.jobs && l.jobs[t].completed }

  /**
   Whatever calls are made in whatever order, a job that reports completion has examined
   every id up to its total exactly once and counted each as migrated or skipped.
   */
  lemma {:induction false} AnyRunExaminesOnce(u: Upgrade, l: Ledger, events: seq<Event>, t: nat)
    requires Fresh(l) && Completed(Run(u, l, events), t)
    ensures var end := Run(u, l, events);
            && Examined(end, t) == Range(1, end.jobs[t].total + 1)
            && end.jobs[t].migrated + end.jobs[t].skipped == end.jobs[t].total
  {
    RunKeepsInv(u, l, events);
    assert JobInv(Run(u, l, events), t);
  }

  /** Whatever calls are made, versions stay registered without a gap and only a registered one is active. */
  lemma {:induction false} RunKeepsVersions(u: Upgrade, l: Ledger, events: seq<Event>)
    requires VersionsInOrder(l)
    ensures VersionsInOrder(Run(u, l, events)) && l.registered <= Run(u, l, events).registered
  {
    if events != [] {
      var n := |events| - 1;
      RunKeepsVersions(u, l, events[..n]);
      StepKeepsVersions(u, Run(u, l, events[..n]), events[n]);
    }
  }

  /** A job comes into being by a start for a registered version up to the active one, and in no other way. */
  lemma NewJobExactly(u: Upgrade, l: Ledger, e: Event, t: nat)
    requires t !in l.jobs
    ensures t in Step(u, l, e).jobs <==> e.Start? && e.version == t && t in l.registered && 0 < t <= l.active
  {
  }

  predicate DatesFit(job: Job, latest: Event, first: bool, t: nat) {
    && (latest.Start? || latest.Chunk?) && latest.version == t && latest.now == job.updatedAt
    && (first <==> latest.Start?)
    && (job.completed ==> job.completedAt == Some(job.updatedAt))
  }

  /** What one call may do to a job and its dates. */
  predicate StepDated(before: Option<Job>, after: Option<Job>, e: Event, t: nat) {
    match (before, after)
    case (None, None) => true
    case (None, Some(job)) => e == Start(t, job.startedAt) && DatesFit(job, e, true, t)
    case (Some(_), None) => false
    case (Some(prior), Some(job)) =>
      job == prior || (e.Chunk? && job.startedAt == prior.startedAt && DatesFit(job, e, false, t))
  }

  /** The dates of the job after n calls are those of calls: created by i, last changed by j, as it is since. */
  ghost predicate Dated(history: seq<Option<Job>>, events: seq<Event>, t: nat, n: nat, i: nat, j: nat) {
    && |history| == |events| + 1 && i <= j < n < |history| && history[n].Some?
    && events[i] == Start(t, history[n].value.startedAt) && history[i].None?
    && DatesFit(history[n].value, events[j], i == j, t)
    && forall k :: j < k <= n ==> history[k] == history[n]
  }

  lemma {:induction false} HistoryIsDated(history: seq<Option<Job>>, events: seq<Event>, t: nat, n: nat)
    returns (i: nat, j: nat)
    requires |history| == |events| + 1 && n < |history| && history[0].None? && history[n].Some?
    requires forall k :: 0 <= k < |events| ==> StepDated(history[k], history[k + 1], events[k], t)
    ensures Dated(history, events, t, n, i, j)
  {
    assert StepDated(history[n - 1], history[n], events[n - 1], t);
    if history[n - 1].None? {
      i, j := n - 1, n - 1;
    } else {
      i, j := HistoryIsDated(history, events, t, n - 1);
      if history[n] != history[n - 1] { j := n - 1; }
    }
  }

  /** The job of a version before each call and after the last. */
  ghost function JobHistory(u: Upgrade, l: Ledger, events: seq<Event>, t: nat): seq<Option<Job>> {
    seq(|events| + 1, k requires 0 <= k <= |events| => JobOf(Run(u, l, events[..k]), t))
  }

  function JobOf(l: Ledger, t: nat): Option<Job> { if t in l.jobs then Some(l.jobs[t]) else None }

  lemma StepIsDated(u: Upgrade, l: Ledger, e: Event, t: nat)
    requires JobInv(l, t)
    ensures StepDated(JobOf(l, t), JobOf(Step(u, l, e), t), e, t)
  {
  }

  /** In every run, the dates of a job tell when it was created, last changed and completed. */
  lemma {:induction false} JobIsDated(u: Upgrade, l: Ledger, events: seq<Event>, t: nat) returns (i: nat, j: nat)
    requires Inv(u, l) && t !in l.jobs && t in Run(u, l, events).jobs
    ensures Dated(JobHistory(u, l, events, t), events, t, |events|, i, j)
  {
    var history := JobHistory(u, l, events, t);
    assert events[..0] == [] && events[..|events|] == events;
    forall k | 0 <= k < |events| ensures StepDated(history[k], history[k + 1], events[k], t) {
      RunKeepsInv(u, l, events[..k]);
      assert JobInv(Run(u, l, events[..k]), t);
      RunSnoc(u, l, events, k);
      StepIsDated(u, Run(u, l, events[..k]), events[k], t);
    }
    i, j := HistoryIsDated(history, events, t, |events|);
  }

  /** A completed job never changes again, not even its timestamps. */
  lemma {:induction false} CompletionIsFinal(u: Upgrade, l: Ledger, events: seq<Event>, t: nat)
    requires Completed(l, t)
    ensures t in Run(u, l, events).jobs && Run(u, l, events).jobs[t] == l.jobs[t]
    ensures Examined(Run(u, l, events), t) == Examined(l, t)
  {
    if events != [] { CompletionIsFinal(u, l, events[..|events| - 1], t); }
  }

  // ---- every transform exactly once ----

  /** Each transform from the version written to the version marked was applied once, in order. */
  ghost predicate InOrder(l: Ledger) {
    forall id :: id in l.items && l.items[id].metadata.Some? ==>
      && id in l.origins
      && l.origins[id].version <= l.items[id].schema
      && l.origins[id].applied == Range(l.origins[id].version, l.items[id].schema)
  }

  predicate Mislabels(l: Ledger, id: nat) {
    l.active > 0 && id in l.items && l.items[id].metadata.Some? && l.items[id].schema != l.active
  }

  /** A call that moves the marker of stored metadata without transforming it. */
  predicate SkipsTransforms(l: Ledger, e: Event) {
    (e.Relabel? && Mislabels(l, e.id)) || (e.IssueInBatch? && Mislabels(l, l.count + 1))
  }

  lemma RelabelOrder(l: Ledger, m: Ledger, id: nat)
    requires InOrder(l) && Mislabels(l, id)
    requires id in m.items && m.items[id] == Relabelled(l, l.items[id]) && m.origins == l.origins
    ensures !InOrder(m)
  {
    var o := l.origins[id];
    RangeLength(o.version, l.items[id].schema);
    RangeLength(o.version, l.active);
    assert m.items[id].metadata.Some?;
    assert o.version > l.active || |o.applied| != |Range(o.version, l.active)|;
  }

  lemma MigrationKeepsOrder(l: Ledger, m: Ledger, t: nat, lo: nat, hi: int, u: Upgrade)
    requires InOrder(l) && m.items.Keys == l.items.Keys && m.origins == RecordSpan(t, l.items, l.origins, lo, hi)
    requires forall id :: id in l.items && l.items[id].metadata.Some? ==>
      m.items[id] == if lo <= id <= hi then MigrateItem(u, t, l.items[id]) else l.items[id]
    requires forall id :: id in l.items && l.items[id].metadata.None? ==> m.items[id].metadata.None?
    ensures InOrder(m)
  {
    forall id | id in m.items && m.items[id].metadata.Some?
      ensures id in m.origins && m.origins[id].version <= m.items[id].schema
      ensures m.origins[id].applied == Range(m.origins[id].version, m.items[id].schema)
    {
      var o := l.origins[id];
      if lo <= id <= hi && Migrates(t, l.items[id]) { RangeJoin(o.version, l.items[id].schema, t); }
    }
  }

  lemma ChunkKeepsOrder(u: Upgrade, l: Ledger, t: nat, size: nat, now: nat)
    requires InOrder(l)
    ensures InOrder(NextChunk(u, l, t, size, now))
  {
    if t in l.jobs && !l.jobs[t].completed {
      var lo, n := l.jobs[t].cursor, ChunkLength(l.jobs[t], size);
      SpanMembers(u, t, l.items, lo, n);
      MigrationKeepsOrder(l, NextChunk(u, l, t, size, now), t, lo, lo + n - 1, u);
    }
  }

  lemma SweepKeepsOrder(u: Upgrade, l: Ledger, t: nat, lo: nat, hi: nat)
    requires InOrder(l)
    ensures InOrder(Step(u, l, Sweep(t, lo, hi)))
  {
    if MayMigrate(l, t) && lo <= hi { MigrationKeepsOrder(l, Step(u, l, Sweep(t, lo, hi)), t, lo, hi, u); }
  }

  lemma IssueKeepsOrderExactly(u: Upgrade, l: Ledger)
    requires InOrder(l)
    ensures InOrder(Step(u, l, IssueInBatch)) <==> !SkipsTransforms(l, IssueInBatch)
  {
    if Mislabels(l, l.count + 1) { RelabelOrder(l, Step(u, l, IssueInBatch), l.count + 1); }
  }

  lemma RelabelKeepsOrderExactly(u: Upgrade, l: Ledger, id: nat)
    requires InOrder(l)
    ensures InOrder(Step(u, l, Relabel(id))) <==> !SkipsTransforms(l, Relabel(id))
  {
    if Mislabels(l, id) { RelabelOrder(l, Step(u, l, Relabel(id)), id); }
  }

  /** A call keeps every transform applied exactly once, unless it relabels outdated metadata. */
  lemma StepKeepsOrderExactly(u: Upgrade, l: Ledger, e: Event)
    requires InOrder(l)
    ensures InOrder(Step(u, l, e)) <==> !SkipsTransforms(l, e)
  {
    match e
    case Chunk(t, size, now) => ChunkKeepsOrder(u, l, t, size, now);
    case Sweep(t, lo, hi) => SweepKeepsOrder(u, l, t, lo, hi);
    case IssueInBatch => IssueKeepsOrderExactly(u, l);
    case Relabel(id) => RelabelKeepsOrderExactly(u, l, id);
    case Start(_, _) =>
    case IssueDirect =>
    case Write(_, _) =>
    case Register(_) =>
    case Activate(_) =>
    case Restore(_) =>
  }

  lemma {:induction false} RunStepOrder(u: Upgrade, l: Ledger, events: seq<Event>, i: nat)
    requires i < |events| && InOrder(Run(u, l, events[..i]))
    ensures InOrder(Run(u, l, events[..i + 1])) <==> !SkipsTransforms(Run(u, l, events[..i]), events[i])
  {
    RunSnoc(u, l, events, i);
    StepKeepsOrderExactly(u, Run(u, l, events[..i]), events[i]);
  }

  /** What holds at first and is broken exactly by certain steps holds throughout exactly without those. */
  lemma {:induction false} HoldsThroughout(holds: seq<bool>, breaks: seq<bool>, a: nat, b: nat)
    requires |holds| == |breaks| + 1 && a <= b <= |breaks| && holds[a]
    requires forall i :: a <= i < b && holds[i] ==> (holds[i + 1] <==> !breaks[i])
    ensures (forall i :: a <= i <= b ==> holds[i]) <==> (forall i :: a <= i < b ==> !breaks[i])
  {
    if a < b {
      var c := b - 1;
      HoldsThroughout(holds, breaks, a, c);
      assert holds[c] ==> (holds[c + 1] <==> !breaks[c]);
    }
  }

  /** Throughout a run every transform is applied exactly once if and only if no call relabels outdated metadata. */
  lemma {:induction false} RunKeepsOrderExactly(u: Upgrade, l: Ledger, events: seq<Event>)
    requires InOrder(l)
    ensures (forall i :: 0 <= i <= |events| ==> InOrder(Run(u, l, events[..i])))
            <==> (forall i :: 0 <= i < |events| ==> !SkipsTransforms(Run(u, l, events[..i]), events[i]))
  {
    var n := |events|;
    var holds := seq(n + 1, i requires 0 <= i <= n => InOrder(Run(u, l, events[..i])));
    var breaks := seq(n, i requires 0 <= i < n => SkipsTransforms(Run(u, l, events[..i]), events[i]));
    forall i | 0 <= i < n && holds[i] ensures holds[i + 1] <==> !breaks[i] { RunStepOrder(u, l, events, i); }
    HoldsThroughout(holds, breaks, 0, n);
    assert forall i :: 0 <= i <= n ==> holds[i] == InOrder(Run(u, l, events[..i]));
    assert forall i :: 0 <= i < n ==> breaks[i] == SkipsTransforms(Run(u, l, events[..i]), events[i]);
  }

  lemma RunSnoc(u: Upgrade, l: Ledger, events: seq<Event>, i: nat)
    requires i < |events|
    ensures Run(u, l, events[..i + 1]) == Step(u, Run(u, l, events[..i]), events[i])
  {
    assert events[..i + 1][..i] == events[..i];
  }

  /** In order, the stored bytes are the written ones taken through all transforms up to the marker. */
  lemma OrderedDataIsMigrated(u: Upgrade, l: Ledger, id: nat)
    requires Recorded(u, l) && InOrder(l) && id in l.items && l.items[id].metadata.Some?
    ensures id in l.origins
    ensures l.items[id].metadata.value == Apply(u, l.origins[id].version, l.items[id].schema, l.origins[id].data)
  {
    var o := l.origins[id];
    ReplayRange(u, o.data, [], o.version, l.items[id].schema);
    assert [] + o.applied == o.applied;
  }

  // ---- every item at the target ----

  predicate Pending(job: Job, id: nat) { job.cursor <= id <= job.total }

  /** Every item the job is not going to examine any more has reached the target. */
  ghost predicate KeepsUp(l: Ledger, t: nat) {
    t in l.jobs ==> forall id :: id in l.items && !Pending(l.jobs[t], id) ==> l.items[id].schema >= t
  }

  ghost predicate AllAtTarget(l: Ledger, t: nat) { forall id :: id in l.items ==> l.items[id].schema >= t }

  /** Setting the marker of id to the active version leaves it behind for good. */
  predicate LeavesBehind(l: Ledger, t: nat, id: nat) { t in l.jobs && !Pending(l.jobs[t], id) && l.active < t }

  /**
   A call that leaves an item behind: a direct issue, a write path while an older version is
   active, or a start while ids beyond the count, left by a restored count, are outdated.
   */
  predicate FallsBehind(l: Ledger, t: nat, e: Event) {
    match e
    case Start(v, _) =>
      v == t && t !in l.jobs && MayMigrate(l, t) && exists id :: id in l.items && OutOfReach(l, t, id)
    case IssueDirect => t in l.jobs && l.count + 1 !in l.items && !Pending(l.jobs[t], l.count + 1)
    case IssueInBatch => LeavesBehind(l, t, l.count + 1) && (l.active > 0 || l.count + 1 !in l.items)
    case Write(id, data) => LeavesBehind(l, t, id) && MayWrite(l, id, data)
    case Relabel(id) => LeavesBehind(l, t, id) && id in l.items && l.active > 0
    case _ => false
  }

  predicate OutOfReach(l: Ledger, t: nat, id: nat)
    requires id in l.items
  {
    !(1 <= id <= l.count) && l.items[id].schema < t
  }

  lemma StartKeepsUpExactly(l: Ledger, t: nat, now: nat)
    requires KeepsUp(l, t)
    ensures KeepsUp(StartJob(l, t, now), t) <==> !FallsBehind(l, t, Start(t, now))
  {
    var m := StartJob(l, t, now);
    if MayMigrate(l, t) && t !in l.jobs {
      assert forall id :: id in l.items ==> (Pending(m.jobs[t], id) <==> 1 <= id <= l.count);
    }
  }

  lemma ChunkKeepsUpExactly(u: Upgrade, l: Ledger, v: nat, t: nat, size: nat, now: nat)
    requires JobInv(l, v)
    ensures v != t && KeepsUp(l, t) ==> KeepsUp(NextChunk(u, l, v, size, now), t)
    ensures KeepsUp(NextChunk(u, l, v, size, now), v) <==> KeepsUp(l, v)
  {
    if v in l.jobs && !l.jobs[v].completed {
      var job, n := l.jobs[v], ChunkLength(l.jobs[v], size);
      assert n >= 1 && job.cursor + n <= job.total + 1;
      SpanMembers(u, v, l.items, job.cursor, n);
      var m := NextChunk(u, l, v, size, now);
      assert forall id: nat :: Pending(m.jobs[v], id) <==> Pending(job, id) && !(job.cursor <= id < job.cursor + n);
    }
  }

  /** A call keeps up with a job if and only if it is none of those that leave an item behind. */
  lemma StepKeepsUpExactly(u: Upgrade, l: Ledger, t: nat, e: Event)
    requires (forall v :: JobInv(l, v)) && KeepsUp(l, t)
    ensures KeepsUp(Step(u, l, e), t) <==> !FallsBehind(l, t, e)
  {
    assert JobInv(l, t);
    match e
    case Start(v, now) => if v == t { StartKeepsUpExactly(l, t, now); }
    case Chunk(v, size, now) =>
      assert JobInv(l, v);
      ChunkKeepsUpExactly(u, l, v, t, size, now);
    case Sweep(_, _, _) =>
    case IssueDirect =>
    case IssueInBatch =>
    case Write(_, _) =>
    case Relabel(_) =>
    case Register(_) =>
    case Activate(_) =>
    case Restore(_) =>
  }

  /** No call from position a up to b leaves an item behind. */
  ghost predicate NobodyLeftBehind(u: Upgrade, l: Ledger, events: seq<Event>, t: nat, a: nat, b: nat)
    requires b <= |events|
  {
    forall k :: a <= k < b ==> !FallsBehind(Run(u, l, events[..k]), t, events[k])
  }

  lemma {:induction false} RunStepKeepsUp(u: Upgrade, l: Ledger, events: seq<Event>, t: nat, i: nat)
    requires Inv(u, l) && i < |events| && KeepsUp(Run(u, l, events[..i]), t)
    ensures KeepsUp(Run(u, l, events[..i + 1]), t) <==> !FallsBehind(Run(u, l, events[..i]), t, events[i])
  {
    RunSnoc(u, l, events, i);
    RunKeepsInv(u, l, events[..i]);
    StepKeepsUpExactly(u, Run(u, l, events[..i]), t, events[i]);
  }

  /** Between two points of a run the job's promise is kept if and only if no call leaves an item behind. */
  lemma {:induction false} RunKeepsUpExactly(u: Upgrade, l: Ledger, events: seq<Event>, t: nat, a: nat, b: nat)
    requires Inv(u, l) && a <= b <= |events| && KeepsUp(Run(u, l, events[..a]), t)
    ensures (forall i :: a <= i <= b ==> KeepsUp(Run(u, l, events[..i]), t))
      <==> NobodyLeftBehind(u, l, events, t, a, b)
  {
    var holds, breaks := MarkBehind(u, l, events, t, a, b);
    HoldsThroughout(holds, breaks, a, b);
  }

  lemma {:induction false} MarkBehind(u: Upgrade, l: Ledger, events: seq<Event>, t: nat, a: nat, b: nat)
    returns (holds: seq<bool>, breaks: seq<bool>)
    requires Inv(u, l) && a <= b <= |events|
    ensures |holds| == |events| + 1 && |breaks| == |events|
    ensures forall i :: 0 <= i <= |events| ==> holds[i] == KeepsUp(Run(u, l, events[..i]), t)
    ensures forall i :: 0 <= i < |events| ==> breaks[i] == FallsBehind(Run(u, l, events[..i]), t, events[i])
    ensures forall i :: a <= i < b && holds[i] ==> (holds[i + 1] <==> !breaks[i])
  {
    var n := |events|;
    holds := seq(n + 1, i requires 0 <= i <= n => KeepsUp(Run(u, l, events[..i]), t));
    breaks := seq(n, i requires 0 <= i < n => FallsBehind(Run(u, l, events[..i]), t, events[i]));
    forall i | a <= i < b && holds[i] ensures holds[i + 1] <==> !breaks[i] { RunStepKeepsUp(u, l, events, t, i); }
  }

  lemma CompletedKeepsUp(l: Ledger, t: nat)
    requires JobInv(l, t) && Completed(l, t)
    ensures KeepsUp(l, t) <==> AllAtTarget(l, t)
  {
  }

  predicate Undisturbed(events: seq<Event>, t: nat) {
    forall i :: 0 <= i < |events| ==> (events[i].Start? || events[i].Chunk?) && events[i].version == t
  }

  lemma {:induction false} UndisturbedKeepsUp(u: Upgrade, l: Ledger, events: seq<Event>, t: nat)
    requires Inv(u, l) && t in l.jobs && Undisturbed(events, t)
    ensures t in Run(u, l, events).jobs
    ensures KeepsUp(Run(u, l, events), t) <==> KeepsUp(l, t)
  {
    if events != [] {
      var n := |events| - 1;
      UndisturbedKeepsUp(u, l, events[..n], t);
      RunKeepsInv(u, l, events[..n]);
      var before := Run(u, l, events[..n]);
      assert JobInv(before, t) && events[n].version == t;
      if events[n].Chunk? { ChunkKeepsUpExactly(u, before, t, t, events[n].size, events[n].now); }
    }
  }

  /**
   From any state on, left alone, the job ends with every item at the target if and only if
   every item it is not going to examine any more is there already.
   */
  lemma {:induction false} CompletionReachesTargetExactly(u: Upgrade, l: Ledger, events: seq<Event>, t: nat)
    requires Inv(u, l) && t in l.jobs && Undisturbed(events, t) && Completed(Run(u, l, events), t)
    ensures AllAtTarget(Run(u, l, events), t) <==> KeepsUp(l, t)
  {
    UndisturbedKeepsUp(u, l, events, t);
    RunKeepsInv(u, l, events);
    assert JobInv(Run(u, l, events), t);
    CompletedKeepsUp(Run(u, l, events), t);
  }

  /** If no call leaves an item behind, completion means every stored item is at the target. */
  lemma {:induction false} AnyRunReachesTarget(u: Upgrade, l: Ledger, events: seq<Event>, t: nat)
    requires Inv(u, l) && KeepsUp(l, t) && Completed(Run(u, l, events), t)
    requires NobodyLeftBehind(u, l, events, t, 0, |events|)
    ensures AllAtTarget(Run(u, l, events), t)
  {
    LogReachesTarget(u, l, [], events, t);
  }

  // ---- runs that fail ----

  /** One outdated credential, version 2 registered and active. */
  function Example(d: Data): Ledger {
    Ledger(map[1 := Item(1, Some(d))], 1, 2, {1, 2}, map[], map[1 := Origin(1, d, [])], map[])
  }

  /** A credential issued directly while the job runs is not at the target when the job is complete. */
  lemma DirectIssueIsLeftBehind(u: Upgrade, d: Data)
    ensures Fresh(Example(d))
    ensures var end := Run(u, Example(d), [Start(2, 0), IssueDirect, Chunk(2, 1, 0)]);
            Completed(end, 2) && 2 in end.items && end.items[2].schema == 0 && !AllAtTarget(end, 2)
  {
    var l := Example(d);
    var a := Step(u, l, Start(2, 0));
    var b := Step(u, a, IssueDirect);
    var c := Step(u, b, Chunk(2, 1, 0));
    RunThree(u, l, Start(2, 0), IssueDirect, Chunk(2, 1, 0));
    assert b.jobs[2].cursor == 1 && b.jobs[2].total == 1 && ChunkLength(b.jobs[2], 1) == 1;
    SpanMembers(u, 2, b.items, 1, 1);
    assert b.items[2] == Item(0, None);
    assert 2 in c.items && c.items[2] == b.items[2];
  }

  /** After the active version was lowered, a write takes a migrated item below the target. */
  lemma LoweredVersionIsLeftBehind(u: Upgrade, d: Data, w: Data)
    requires 0 < |w| <= MAX_METADATA_BYTES_SIZE
    ensures var done := Step(u, Step(u, Example(d), Start(2, 0)), Chunk(2, 1, 0));
            var end := Step(u, Step(u, done, Activate(1)), Write(1, w));
            Completed(done, 2) && AllAtTarget(done, 2) && Completed(end, 2) && !AllAtTarget(end, 2)
  {
    var a := Step(u, Example(d), Start(2, 0));
    assert ChunkLength(a.jobs[2], 1) == 1;
    SpanMembers(u, 2, a.items, 1, 1);
    var done := Step(u, a, Chunk(2, 1, 0));
    var end := Step(u, Step(u, done, Activate(1)), Write(1, w));
    assert 1 in end.items && end.items[1].schema == 1;
  }

  /** A relabelled item keeps its old metadata, and the job then leaves it alone. */
  lemma RelabelSkipsTransform(u: Upgrade, d: Data)
    requires u(1, d) != d
    ensures var end := Run(u, Example(d), [Start(2, 0), Relabel(1), Chunk(2, 1, 0)]);
            && Completed(end, 2) && AllAtTarget(end, 2)
            && 1 in end.items && end.items[1].metadata == Some(d) && d != Apply(u, 1, 2, d)
  {
    var l := Example(d);
    var a := Step(u, l, Start(2, 0));
    var b := Step(u, a, Relabel(1));
    RunThree(u, l, Start(2, 0), Relabel(1), Chunk(2, 1, 0));
    assert ChunkLength(b.jobs[2], 1) == 1;
    SpanMembers(u, 2, b.items, 1, 1);
    assert b.items[1] == Item(2, Some(d));
    assert Apply(u, 1, 2, d) == u(1, Apply(u, 1, 1, d));
  }

  lemma RunThree(u: Upgrade, l: Ledger, a: Event, b: Event, c: Event)
    ensures Run(u, l, [a, b, c]) == Step(u, Step(u, Step(u, l, a), b), c)
  {
    var es := [a, b, c];
    RunSnoc(u, l, es, 0);
    RunSnoc(u, l, es, 1);
    RunSnoc(u, l, es, 2);
    assert es[..0] == [] && es[..3] == es;
  }

  // ---- chunk by chunk or at once ----

  function MigrateBelow(u: Upgrade, t: nat, items: map<nat, Item>, bound: nat): map<nat, Item> {
    map id | id in items :: if 1 <= id < bound then MigrateItem(u, t, items[id]) else items[id]
  }

  lemma ChunkExtendsPrefix(u: Upgrade, t: nat, items: map<nat, Item>, l: Ledger, size: nat, now: nat)
    requires JobInv(l, t) && t in l.jobs && l.items == MigrateBelow(u, t, items, l.jobs[t].cursor)
    ensures var m := NextChunk(u, l, t, size, now);
            m.items == MigrateBelow(u, t, items, m.jobs[t].cursor)
  {
    if !l.jobs[t].completed {
      var job, n, m := l.jobs[t], ChunkLength(l.jobs[t], size), NextChunk(u, l, t, size, now);
      SpanMembers(u, t, l.items, job.cursor, n);
      assert m.jobs[t].cursor == job.cursor + n;
      forall id | id in items ensures m.items[id] == MigrateBelow(u, t, items, job.cursor + n)[id] {
        assert l.items[id] == MigrateBelow(u, t, items, job.cursor)[id];
      }
    }
  }

  lemma {:induction false} UndisturbedMigratesPrefix(u: Upgrade, l: Ledger, events: seq<Event>, t: nat)
    requires Inv(u, l) && t !in l.jobs && Undisturbed(events, t)
    ensures var end := Run(u, l, events);
            if t in end.jobs
            then end.jobs[t].total == l.count && end.items == MigrateBelow(u, t, l.items, end.jobs[t].cursor)
            else end == l
  {
    if events != [] {
      var n := |events| - 1;
      UndisturbedMigratesPrefix(u, l, events[..n], t);
      RunKeepsInv(u, l, events[..n]);
      var before := Run(u, l, events[..n]);
      assert JobInv(before, t) && events[n].version == t;
      if t !in before.jobs {
        assert MigrateBelow(u, t, l.items, 1) == l.items;
      } else if events[n].Chunk? {
        ChunkExtendsPrefix(u, t, l.items, before, events[n].size, events[n].now);
      }
    }
  }

  lemma {:induction false} OutdatedJoin(t: nat, items: map<nat, Item>, lo: nat, n: nat, more: nat)
    ensures |Outdated(t, items, lo, n + more)| == |Outdated(t, items, lo, n)| + |Outdated(t, items, lo + n, more)|
  {
    var a, b := Outdated(t, items, lo, n), Outdated(t, items, lo + n, more);
    assert Outdated(t, items, lo, n + more) == a + b && a * b == {};
  }

  lemma {:induction false} ChunkExtendsCount(
    u: Upgrade, t: nat, items: map<nat, Item>, l: Ledger, size: nat, now: nat)
    requires JobInv(l, t) && t in l.jobs && l.items == MigrateBelow(u, t, items, l.jobs[t].cursor)
    requires l.jobs[t].migrated == |Outdated(t, items, 1, l.jobs[t].cursor - 1)|
    ensures var job := NextChunk(u, l, t, size, now).jobs[t];
            job.cursor >= 1 && job.migrated == |Outdated(t, items, 1, job.cursor - 1)|
  {
    if !l.jobs[t].completed {
      var lo, n := l.jobs[t].cursor, ChunkLength(l.jobs[t], size);
      CountIsOutdated(t, l.items, lo, n);
      assert Outdated(t, l.items, lo, n) == Outdated(t, items, lo, n);
      OutdatedJoin(t, items, 1, lo - 1, n);
    }
  }

  /** So far the job has counted the items that were outdated at first. */
  ghost predicate CountsOutdated(t: nat, items: map<nat, Item>, l: Ledger) {
    t in l.jobs ==>
      l.jobs[t].cursor >= 1 && l.jobs[t].migrated == |Outdated(t, items, 1, l.jobs[t].cursor - 1)|
  }

  lemma {:induction false} StepCountsOutdated(u: Upgrade, t: nat, items: map<nat, Item>, l: Ledger, e: Event)
    requires JobInv(l, t) && CountsOutdated(t, items, l) && (e.Start? || e.Chunk?) && e.version == t
    requires t in l.jobs ==> l.items == MigrateBelow(u, t, items, l.jobs[t].cursor)
    ensures CountsOutdated(t, items, Step(u, l, e))
  {
    assert Outdated(t, items, 1, 0) == {};
    if e.Chunk? && t in l.jobs { ChunkExtendsCount(u, t, items, l, e.size, e.now); }
  }

  lemma {:induction false} UndisturbedCounts(u: Upgrade, l: Ledger, events: seq<Event>, t: nat)
    requires Inv(u, l) && t !in l.jobs && Undisturbed(events, t)
    ensures CountsOutdated(t, l.items, Run(u, l, events))
  {
    if events != [] {
      var n := |events| - 1;
      RunKeepsInv(u, l, events[..n]);
      assert JobInv(Run(u, l, events[..n]), t);
      UndisturbedMigratesPrefix(u, l, events[..n], t);
      UndisturbedCounts(u, l, events[..n], t);
      StepCountsOutdated(u, t, l.items, Run(u, l, events[..n]), events[n]);
    }
  }

  /** With no other callers, a completed job reports as migrated the number of outdated items it found. */
  lemma {:induction false} MigratedIsOutdated(u: Upgrade, l: Ledger, events: seq<Event>, t: nat)
    requires Inv(u, l) && t !in l.jobs && Undisturbed(events, t) && Completed(Run(u, l, events), t)
    ensures var job, outdated := Run(u, l, events).jobs[t],
              |set id | id in l.items && 1 <= id <= l.count && l.items[id].schema < t && l.items[id].metadata.Some?|;
            job.migrated == outdated && job.skipped == l.count - outdated
  {
    UndisturbedCounts(u, l, events, t);
    UndisturbedMigratesPrefix(u, l, events, t);
    RunKeepsInv(u, l, events);
    assert JobInv(Run(u, l, events), t);
    assert Outdated(t, l.items, 1, l.count)
      == set id | id in l.items && 1 <= id <= l.count && l.items[id].schema < t && l.items[id].metadata.Some?;
  }

  /** With no other callers, a completed job has done what one pass over the ids up to the count does. */
  lemma {:induction false} ChunkedEqualsOneShot(u: Upgrade, l: Ledger, events: seq<Event>, t: nat)
    requires Inv(u, l) && t !in l.jobs && Undisturbed(events, t) && Completed(Run(u, l, events), t)
    ensures Run(u, l, events).items == MigrateBelow(u, t, l.items, l.count + 1)
  {
    UndisturbedMigratesPrefix(u, l, events, t);
    RunKeepsInv(u, l, events);
    assert JobInv(Run(u, l, events), t);
  }

  // ---- how many chunks it takes ----

  /** k chunk calls of one size in a row. */
  function Chunks(u: Upgrade, l: Ledger, t: nat, size: nat, now: nat, k: nat): Ledger {
    if k == 0 then l else NextChunk(u, Chunks(u, l, t, size, now, k - 1), t, size, now)
  }

  /** The size a chunk has when enough items are left: as asked for, or the maximum. */
  function FullChunk(size: nat): nat { if 1 <= size <= 200 then size else 200 }

  /** What k chunks of s items cover of a total. */
  function Covered(total: nat, s: nat, k: nat): nat { if k * s <= total then k * s else total }

  lemma CoveredMore(total: nat, s: nat, k: nat)
    ensures Covered(total, s, k + 1) == if Covered(total, s, k) + s <= total then Covered(total, s, k) + s else total
    ensures Covered(total, s, 0) == 0
  {
    assert (k + 1) * s == k * s + s;
  }

  /** The job has examined `done` of its items. */
  ghost predicate HasDone(l: Ledger, t: nat, total: nat, done: nat) {
    t in l.jobs && JobInv(l, t) && l.jobs[t].total == total && l.jobs[t].cursor == 1 + done
  }

  lemma OneChunkMore(u: Upgrade, l: Ledger, t: nat, size: nat, now: nat, total: nat, done: nat)
    requires HasDone(l, t, total, done)
    ensures HasDone(NextChunk(u, l, t, size, now), t, total,
      if done + FullChunk(size) <= total then done + FullChunk(size) else total)
  {
    ChunkKeepsJob(u, l, t, size, now);
  }

  lemma {:induction false} ChunksCover(u: Upgrade, l: Ledger, t: nat, size: nat, now: nat, total: nat, k: nat)
    requires HasDone(l, t, total, 0)
    ensures HasDone(Chunks(u, l, t, size, now, k), t, total, Covered(total, FullChunk(size), k))
  {
    CoveredMore(total, FullChunk(size), if k > 0 then k - 1 else 0);
    if k > 0 {
      ChunksCover(u, l, t, size, now, total, k - 1);
      OneChunkMore(u, Chunks(u, l, t, size, now, k - 1), t, size, now, total, Covered(total, FullChunk(size), k - 1));
    }
  }

  /**
   Left alone, a new job has examined k * s items after k chunks of s, and is complete if and only
   if that covers its total.
   */
  lemma {:induction false} ChunksNeeded(u: Upgrade, l: Ledger, t: nat, size: nat, now: nat, k: nat)
    requires t in l.jobs && HasDone(l, t, l.jobs[t].total, 0)
    ensures HasDone(Chunks(u, l, t, size, now, k), t, l.jobs[t].total, Covered(l.jobs[t].total, FullChunk(size), k))
    ensures Completed(Chunks(u, l, t, size, now, k), t) <==> k * FullChunk(size) >= l.jobs[t].total
  {
    ChunksCover(u, l, t, size, now, l.jobs[t].total, k);
  }

  // ---- progress as shown to operators ----

  function ProgressRatio(job: Job): real {
    if job.total == 0 then 1.0
    else (if job.cursor - 1 < job.total then job.cursor - 1 else job.total) as real / job.total as real
  }

  /** The progress ratio of a reachable job lies in [0, 1] and is 1 exactly when the job is complete. */
  lemma ProgressTellsCompletion(job: Job, examined: seq<nat>)
    requires JobConsistent(job, examined)
    ensures 0.0 <= ProgressRatio(job) <= 1.0
    ensures ProgressRatio(job) == 1.0 <==> job.completed
    ensures ProgressRatio(job) * job.total as real == |examined| as real
  {
    RangeLength(1, job.cursor);
    if job.total > 0 {
      var done := if job.cursor - 1 < job.total then job.cursor - 1 else job.total;
      RealFacts.RatioFacts(done as real, job.total as real);
    }
  }

  // ---- the contract object ----

  /** The migration entry points of the contract, over its storage. */
  class Contract {
    const u: Upgrade
    var items: map<nat, Item>
    var count: nat
    var active: nat
    var registered: set<nat>
    var jobs: map<nat, Job>
    ghost var origins: map<nat, Origin>
    ghost var examined: map<nat, seq<nat>>

    ghost function View(): Ledger
      reads this
    {
      Ledger(items, count, active, registered, jobs, origins, examined)
    }

    constructor (u: Upgrade, items: map<nat, Item>, count: nat, active: nat, registered: set<nat>)
      ensures this.u == u && Fresh(View())
      ensures this.items == items && this.count == count && this.active == active && this.registered == registered
    {
      this.u, this.items, this.count, this.active, this.registered := u, items, count, active, registered;
      jobs, examined := map[], map[];
      origins := map id | id in items && items[id].metadata.Some? ::
        Origin(items[id].schema, items[id].metadata.value, []);
    }

    /** Fails when the version may not be migrated to; otherwise returns the one job there is. */
    method StartMigration(t: nat, now: nat) returns (r: Option<Job>)
      modifies this
      ensures View() == Step(u, old(View()), Start(t, now))
      ensures r == if MayMigrate(old(View()), t) then Some(jobs[t]) else None
    {
      if t == 0 || t !in registered || t > active { return None; }
      if t !in jobs {
        jobs := jobs[t := Job(1, count, 0, 0, count == 0, now, now, if count == 0 then Some(now) else None)];
        examined := examined[t := []];
      }
      return Some(jobs[t]);
    }

    /** Fails when there is no job; a completed job is returned untouched. */
    method MigrateNextChunk(t: nat, size: nat, now: nat) returns (r: Option<Job>)
      modifies this
      ensures View() == Step(u, old(View()), Chunk(t, size, now))
      ensures r == if t in jobs then Some(jobs[t]) else None
    {
      if t !in jobs { return None; }
      if jobs[t].completed { return Some(jobs[t]); }
      var updated := ProcessChunk(t, size, now);
      return Some(updated);
    }

    method ProcessChunk(t: nat, size: nat, now: nat) returns (updated: Job)
      requires t in jobs && !jobs[t].completed
      modifies this
      ensures View() == NextChunk(u, old(View()), t, size, now)
      ensures t in jobs && updated == jobs[t]
    {
      ghost var before := items;
      var n := ExaminedCount(jobs[t], size);
      var migrated, skipped := MigrateRange(t, jobs[t].cursor, n);
      updated := StoreProgress(before, t, n, migrated, skipped, now);
    }

    static method ExaminedCount(job: Job, size: nat) returns (n: nat)
      ensures n == ChunkLength(job, size)
    {
      var startId := job.cursor;
      var end := startId + ClampChunkSize(size) - 1;
      var endId := if end < job.total then end else job.total;
      n := if endId >= startId then endId - startId + 1 else 0;
    }

    method StoreProgress(ghost before: map<nat, Item>, t: nat, n: nat, migrated: nat, skipped: nat, now: nat)
      returns (updated: Job)
      requires t in jobs
      modifies `jobs, `origins, `examined
      ensures updated == Advance(old(jobs)[t], n, migrated, skipped, now) && jobs == old(jobs)[t := updated]
      ensures var lo := old(jobs)[t].cursor;
              && origins == RecordSpan(t, before, old(origins), lo, lo + n - 1)
              && examined == old(examined)[t := Examined(old(View()), t) + Range(lo, lo + n)]
    {
      var job := jobs[t];
      updated := Advance(job, n, migrated, skipped, now);
      examined := examined[t := Examined(View(), t) + Range(job.cursor, job.cursor + n)];
      origins := RecordSpan(t, before, origins, job.cursor, job.cursor + n - 1);
      jobs := jobs[t := updated];
    }

    method MigrateRange(t: nat, startId: nat, n: nat) returns (migrated: nat, skipped: nat)
      modifies this`items
      ensures items == MigrateSpan(u, t, old(items), startId, n)
      ensures migrated == CountMigrated(t, old(items), startId, n) && skipped == n - migrated
    {
      migrated, skipped := 0, 0;
      for k := 0 to n
        invariant items == MigrateSpan(u, t, old(items), startId, k)
        invariant migrated == CountMigrated(t, old(items), startId, k) && skipped == k - migrated
      {
        var id := startId + k;
        SpanMembers(u, t, old(items), startId, k);
        if id !in items || items[id].schema >= t {
          skipped := skipped + 1;
          assert id in items ==> items[id := items[id]] == items;
        } else if items[id].metadata.Some? {
          var transformed := Apply(u, items[id].schema, t, items[id].metadata.value);
          items := items[id := Item(t, Some(transformed))];
          migrated := migrated + 1;
        } else {
          items := items[id := Item(t, None)];
          skipped := skipped + 1;
        }
      }
    }

    /** What other parties do to the contract. */
    method Disturb(e: Event)
      modifies this
      ensures View() == Step(u, old(View()), e)
    {
      match e {
        case Start(t, now) => var r := StartMigration(t, now);
        case Chunk(t, size, now) => var r := MigrateNextChunk(t, size, now);
        case Sweep(t, lo, hi) =>
          if t > 0 && t in registered && t <= active && lo <= hi {
            origins := RecordSpan(t, items, origins, lo, hi);
            items := SweepSpan(u, t, items, lo, hi);
          }
        case IssueDirect =>
          count := count + 1;
          if count !in items { items := items[count := Item(0, None)]; }
          assert items == old(items)[count := ItemAt(old(View()), count)];
        case IssueInBatch =>
          count := count + 1;
          var x := if count in items then items[count] else Item(0, None);
          items := items[count := if active > 0 then x.(schema := active) else x];
        case Write(id, data) =>
          if id in items && (active > 0 ==> active in registered && 0 < |data| <= MAX_METADATA_BYTES_SIZE) {
            items := items[id := Item(active, Some(data))];
            origins := origins[id := Origin(active, data, [])];
          }
        case Relabel(id) =>
          if id in items { items := items[id := if active > 0 then items[id].(schema := active) else items[id]]; }
        case Register(version) =>
          if version > 0 && version !in registered && version == active + 1 { registered := registered + {version}; }
        case Activate(version) => if version in registered { active := version; }
        case Restore(n) => count := n;
      }
    }
  }

  // ---- the orchestrator ----

  /** The fate of one attempt: its reply arrives, is lost before or after it took effect, or the process dies. */
  datatype Fate = Delivered | LostBefore | LostAfter | Killed

  /** What the world does: the fate of each attempt, and what others do just before it. */
  datatype World = World(fate: nat -> Fate, others: nat -> seq<Event>)

  datatype Call = StartCall | ChunkCall(size: nat)

  datatype CallResult = Reply(job: Job) | Exhausted | Died

  ghost predicate JobGrows(l: Ledger, m: Ledger, t: nat) {
    t in l.jobs ==> t in m.jobs && m.jobs[t].total == l.jobs[t].total && m.jobs[t].cursor >= l.jobs[t].cursor
  }

  lemma StepGrows(u: Upgrade, l: Ledger, e: Event, t: nat)
    requires Inv(u, l)
    ensures JobGrows(l, Step(u, l, e), t)
    ensures e.Chunk? && e.version == t && t in l.jobs && !l.jobs[t].completed ==>
      Step(u, l, e).jobs[t].cursor > l.jobs[t].cursor
  {
    assert JobInv(l, t);
  }

  function AtLeastOne(n: nat): nat { if n < 1 then 1 else n }

  /** `n` attempts in a row without a reply. */
  predicate AllLost(world: World, first: nat, n: nat) {
    forall i: nat :: first <= i < first + n ==> world.fate(i) == LostBefore || world.fate(i) == LostAfter
  }

  /** At some point of the log from `since` on, the chain would refuse to start the job. */
  ghost predicate Refused(u: Upgrade, l: Ledger, log: seq<Event>, since: nat, t: nat) {
    exists i :: since <= i <= |log| && !MayMigrate(Run(u, l, log[..i]), t)
  }

  lemma RefusedGrows(u: Upgrade, l: Ledger, log: seq<Event>, longer: seq<Event>, since: nat, earlier: nat, t: nat)
    requires log <= longer && earlier <= since && Refused(u, l, log, since, t)
    ensures Refused(u, l, longer, earlier, t)
  {
    var i :| since <= i <= |log| && !MayMigrate(Run(u, l, log[..i]), t);
    assert longer[..i] == log[..i];
  }

  lemma RefusedNow(u: Upgrade, l: Ledger, log: seq<Event>, e: Event, t: nat)
    requires !MayMigrate(Run(u, l, log), t)
    ensures Refused(u, l, log + [e], |log|, t)
  {
    assert (log + [e])[..|log|] == log;
  }

  /** The same for the part of a log from an earlier state on. */
  lemma {:induction false} LogReachesTarget(u: Upgrade, l: Ledger, before: seq<Event>, log: seq<Event>, t: nat)
    requires Inv(u, l) && before <= log && Completed(Run(u, l, log), t)
    ensures KeepsUp(Run(u, l, before), t) && NobodyLeftBehind(u, l, log, t, |before|, |log|) ==>
      AllAtTarget(Run(u, l, log), t)
  {
    assert log[..|before|] == before && log[..|log|] == log;
    RunKeepsInv(u, l, log);
    assert JobInv(Run(u, l, log), t);
    CompletedKeepsUp(Run(u, l, log), t);
    if KeepsUp(Run(u, l, before), t) && NobodyLeftBehind(u, l, log, t, |before|, |log|) {
      RunKeepsUpExactly(u, l, log, t, |before|, |log|);
      assert KeepsUp(Run(u, l, log[..|log|]), t);
    }
  }

  lemma RunOneMore(u: Upgrade, l: Ledger, log: seq<Event>, e: Event)
    ensures Run(u, l, log + [e]) == Step(u, Run(u, l, log), e)
  {
    assert (log + [e])[..|log|] == log;
  }

  /** Everything done to the chain is logged: the state is a run from the one first seen. */
  class Orchestrator {
    const chain: Contract
    const world: World
    const target: nat
    var attempts: nat
    ghost const first: Ledger
    ghost var log: seq<Event>

    ghost predicate Valid()
      reads this, chain
    {
      chain.View() == Run(chain.u, first, log) && Inv(chain.u, chain.View()) && Inv(chain.u, first)
    }

    constructor (chain: Contract, world: World, target: nat)
      requires Inv(chain.u, chain.View())
      ensures Valid() && this.chain == chain && this.world == world && this.target == target
      ensures first == chain.View() && log == [] && attempts == 0
    {
      this.chain, this.world, this.target, attempts := chain, world, target, 0;
      first, log := chain.View(), [];
    }

    method LetOneAct(e: Event)
      requires Valid()
      modifies chain, `log
      ensures Valid() && log == old(log) + [e] && JobGrows(old(chain.View()), chain.View(), target)
    {
      StepKeepsInv(chain.u, chain.View(), e);
      StepGrows(chain.u, chain.View(), e, target);
      RunOneMore(chain.u, first, log, e);
      chain.Disturb(e);
      log := log + [e];
    }

    /** Other parties act on the chain before the next attempt. */
    method LetOthersAct(events: seq<Event>)
      requires Valid()
      modifies chain, `log
      ensures Valid() && log == old(log) + events && JobGrows(old(chain.View()), chain.View(), target)
    {
      for i := 0 to |events|
        invariant Valid() && log == old(log) + events[..i] && JobGrows(old(chain.View()), chain.View(), target)
      {
        LetOneAct(events[i]);
        assert events[..i + 1] == events[..i] + [events[i]];
      }
      assert events[..|events|] == events;
    }

    function EventOf(call: Call, now: nat): Event {
      if call.StartCall? then Start(target, now) else Chunk(target, call.size, now)
    }

    /** Whether the chain accepts a call: the target may be migrated to, or the job exists. */
    ghost predicate Accepted(call: Call)
      reads chain
    {
      if call.StartCall? then MayMigrate(chain.View(), target) else target in chain.jobs
    }

    /** One submission that reaches the chain; the chain may refuse it. */
    method Submit(call: Call, now: nat) returns (r: Option<Job>)
      requires Valid()
      modifies chain, `log
      ensures Valid() && log == old(log) + [EventOf(call, now)]
      ensures JobGrows(old(chain.View()), chain.View(), target)
      ensures r.Some? <==> old(Accepted(call))
      ensures r.None? && call.StartCall? ==> Refused(chain.u, first, log, |old(log)|, target)
      ensures r.Some? ==> target in chain.jobs && r.value == chain.jobs[target]
      ensures r.Some? && call.ChunkCall? ==>
        r.value.completed || r.value.cursor > old(chain.jobs)[target].cursor
    {
      var e := EventOf(call, now);
      StepKeepsInv(chain.u, chain.View(), e);
      StepGrows(chain.u, chain.View(), e, target);
      RunOneMore(chain.u, first, log, e);
      match call {
        case StartCall => r := chain.StartMigration(target, now);
        case ChunkCall(size) => r := chain.MigrateNextChunk(target, size, now);
      }
      if r.None? && call.StartCall? { RefusedNow(chain.u, first, log, e, target); }
      log := log + [e];
    }

    /** One attempt, after others have acted: a reply, death, or a failure that may be retried. */
    method Attempt(call: Call) returns (r: Option<CallResult>)
      requires Valid() && (call.ChunkCall? ==> target in chain.jobs)
      modifies this, chain
      ensures Valid() && old(log) <= log && attempts == old(attempts) + 1
      ensures JobGrows(old(chain.View()), chain.View(), target)
      ensures r.None? ==>
        || AllLost(world, old(attempts), 1)
        || (call.StartCall? && Refused(chain.u, first, log, |old(log)|, target))
      ensures r.Some? && r.value.Died? ==> world.fate(old(attempts)) == Killed
      ensures r.Some? ==> !r.value.Exhausted?
      ensures r.Some? && r.value.Reply? ==> target in chain.jobs && chain.jobs[target] == r.value.job
      ensures r.Some? && r.value.Reply? && call.ChunkCall? ==>
        r.value.job.completed || r.value.job.cursor > old(chain.jobs)[target].cursor
    {
      var fate := world.fate(attempts);
      LetOthersAct(world.others(attempts));
      attempts := attempts + 1;
      if fate == Killed { return Some(Died); }
      if fate == LostBefore { return None; }
      ghost var sent := |log|;
      var reply := Submit(call, attempts);
      if reply.None? {
        RefusedGrows(chain.u, first, log, log, sent, |old(log)|, target);
        return None;
      }
      if fate == LostAfter { return None; }
      return Some(Reply(reply.value));
    }

    /**
     Retry a call until a reply arrives, at most `maxAttempts` times; an ambiguous failure is
     simply retried. Giving up means that just those attempts were lost, or a start was refused;
     dying means that the last one was killed.
     */
    method WithRetry(call: Call, maxAttempts: nat) returns (r: CallResult)
      requires Valid() && (call.ChunkCall? ==> target in chain.jobs)
      modifies this, chain
      ensures Valid() && old(log) <= log && JobGrows(old(chain.View()), chain.View(), target)
      ensures r.Reply? ==> target in chain.jobs && chain.jobs[target] == r.job
      ensures r.Reply? && call.ChunkCall? ==> r.job.completed || r.job.cursor > old(chain.jobs)[target].cursor
      ensures old(attempts) < attempts <= old(attempts) + AtLeastOne(maxAttempts)
      ensures r.Exhausted? ==> attempts == old(attempts) + AtLeastOne(maxAttempts)
      ensures r.Exhausted? ==>
        || AllLost(world, old(attempts), AtLeastOne(maxAttempts))
        || (call.StartCall? && Refused(chain.u, first, log, |old(log)|, target))
      ensures r.Died? ==> world.fate(attempts - 1) == Killed
    {
      var attempt := 0;
      ghost var begin := attempts;
      while true
        invariant Valid() && old(log) <= log && JobGrows(old(chain.View()), chain.View(), target)
        invariant attempts == begin + attempt && (attempt == 0 || attempt < maxAttempts)
        invariant AllLost(world, begin, attempt) ||
                  (call.StartCall? && Refused(chain.u, first, log, |old(log)|, target))
        decreases maxAttempts + 1 - attempt
      {
        ghost var before := log;
        var outcome := Attempt(call);
        if outcome.Some? { return outcome.value; }
        KeepRefused(before, |old(log)|);
        attempt := attempt + 1;
        if attempt >= maxAttempts {
          assert attempt == AtLeastOne(maxAttempts);
          assert AllLost(world, begin, attempt) ||
                 (call.StartCall? && Refused(chain.u, first, log, |old(log)|, target));
          return Exhausted;
        }
      }
    }

    /** A refusal seen before, or since, counts from an earlier point on. */
    lemma KeepRefused(before: seq<Event>, since: nat)
      requires since <= |before| && before <= log
      ensures Refused(chain.u, first, before, since, target) || Refused(chain.u, first, log, |before|, target) ==>
        Refused(chain.u, first, log, since, target)
    {
      if Refused(chain.u, first, before, since, target) {
        RefusedGrows(chain.u, first, before, log, since, since, target);
      } else if Refused(chain.u, first, log, |before|, target) {
        RefusedGrows(chain.u, first, log, log, |before|, since, target);
      }
    }

    /** The latest n attempts, all made since the given one, were lost. */
    ghost predicate LastLost(n: nat, since: nat)
      reads this
    {
      since + n <= attempts && AllLost(world, attempts - n, n)
    }

    /**
     Drive the migration to completion. Whatever the outcome, the chain is in a state that a
     run of calls explains and from which another run carries on. A normal return means the job
     is complete, with every id up to its total examined exactly once; if no call meanwhile left
     an item behind, every stored item is at the target. It gives up only when the chain refuses
     to start the job or when its last `maxAttempts` attempts were all lost, and dies only when
     the last attempt was killed.
     */
    method RunToCompletion(chunkSize: nat, maxAttempts: nat) returns (r: CallResult)
      requires Valid()
      modifies this, chain
      ensures Valid() && old(log) <= log && JobGrows(old(chain.View()), chain.View(), target)
      ensures r.Reply? ==>
        && Completed(chain.View(), target) && chain.jobs[target] == r.job
        && Examined(chain.View(), target) == Range(1, r.job.total + 1)
        && r.job.migrated + r.job.skipped == r.job.total
      ensures r.Reply? && KeepsUp(old(chain.View()), target)
              && NobodyLeftBehind(chain.u, first, log, target, |old(log)|, |log|) ==>
        AllAtTarget(chain.View(), target)
      ensures old(attempts) < attempts
      ensures r.Exhausted? ==>
        || LastLost(AtLeastOne(maxAttempts), old(attempts))
        || Refused(chain.u, first, log, |old(log)|, target)
      ensures r.Died? ==> world.fate(attempts - 1) == Killed
    {
      r := WithRetry(StartCall, maxAttempts);
      while r.Reply? && !r.job.completed
        invariant Valid() && old(log) <= log && JobGrows(old(chain.View()), chain.View(), target)
        invariant r.Reply? ==> target in chain.jobs && chain.jobs[target] == r.job
        invariant old(attempts) < attempts
        invariant r.Exhausted? ==>
          || LastLost(AtLeastOne(maxAttempts), old(attempts))
          || Refused(chain.u, first, log, |old(log)|, target)
        invariant r.Died? ==> world.fate(attempts - 1) == Killed
        decreases if !r.Reply? then 0 else if r.job.completed then 1 else 3 + r.job.total - r.job.cursor
      {
        assert JobInv(chain.View(), target);
        r := WithRetry(ChunkCall(chunkSize), maxAttempts);
        assert JobInv(chain.View(), target);
      }
      if r.Reply? {
        assert JobInv(chain.View(), target);
        LogReachesTarget(chain.u, first, old(log), log, target);
      }
    }
  }
}
