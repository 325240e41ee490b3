/** The database migration runner: a ledger of applied scripts, one transaction per script, and rollback. */
module SchemaMigrations {
  import opened JsText

  /** A script pair on disk; the checksum identifies the contents of the up script. */
  datatype Migration = Migration(filename: string, checksum: string)

  datatype Row = Row(filename: string, checksum: string, appliedAt: int)

  /** What the scripts do to a schema (None: the script fails), and the time of the n-th commit. */
  datatype World<!S> = World(up: (string, S) -> Option<S>, down: (string, S) -> Option<S>, stamp: nat -> int)

  /** Rows in commit order. */
  datatype Db<S> = Db(schema: S, ledger: seq<Row>, commits: nat)

  datatype Error = Modified(filename: string) | Failed(filename: string) | Gone(filename: string)

  datatype Outcome<S> = Outcome(db: Db<S>, done: seq<string>, error: Option<Error>)

  predicate HasRow(ledger: seq<Row>, filename: string) {
    exists i :: 0 <= i < |ledger| && ledger[i].filename == filename
  }

  function Recorded(ledger: seq<Row>): map<string, string> {
    if ledger == [] then map[]
    else Recorded(ledger[..|ledger| - 1])[ledger[|ledger| - 1].filename := ledger[|ledger| - 1].checksum]
  }

  // ---- applying ----

  /** BEGIN, up script, INSERT, COMMIT; any failure rolls the transaction back. */
  function ApplyOne<S>(w: World<S>, db: Db<S>, m: Migration): Option<Db<S>> {
    match w.up(m.checksum, db.schema)
    case None => None
    case Some(schema) =>
      if HasRow(db.ledger, m.filename) then None
      else Some(Db(schema, db.ledger + [Row(m.filename, m.checksum, w.stamp(db.commits))], db.commits + 1))
  }

  /** Pending scripts in order, stopping at the first failure; `already` is read once at the start. */
  function RunFrom<S>(w: World<S>, db: Db<S>, already: map<string, string>, ms: seq<Migration>): Outcome<S>
    decreases |ms|
  {
    if ms == [] then Outcome(db, [], None)
    else
      var m := ms[0];
      if m.filename in already then
        if already[m.filename] != m.checksum then Outcome(db, [], Some(Modified(m.filename)))
        else RunFrom(w, db, already, ms[1..])
      else match ApplyOne(w, db, m)
        case None => Outcome(db, [], Some(Failed(m.filename)))
        case Some(db') =>
          var rest := RunFrom(w, db', already, ms[1..]);
          Outcome(rest.db, [m.filename] + rest.done, rest.error)
  }

  function RunMigrations<S>(w: World<S>, db: Db<S>, ms: seq<Migration>): Outcome<S> {
    RunFrom(w, db, Recorded(db.ledger), ms)
  }

  // ---- rolling back ----

  function DeleteRow(ledger: seq<Row>, filename: string): seq<Row> {
    if ledger == [] then []
    else if ledger[0].filename == filename then DeleteRow(ledger[1..], filename)
    else [ledger[0]] + DeleteRow(ledger[1..], filename)
  }

  predicate OnDisk(ms: seq<Migration>, filename: string) {
    exists i :: 0 <= i < |ms| && ms[i].filename == filename
  }

  function RollFrom<S>(w: World<S>, db: Db<S>, ms: seq<Migration>, filenames: seq<string>): Outcome<S>
    decreases |filenames|
  {
    if filenames == [] then Outcome(db, [], None)
    else
      var f := filenames[0];
      if !OnDisk(ms, f) then Outcome(db, [], Some(Gone(f)))
      else match w.down(f, db.schema)
        case None => Outcome(db, [], Some(Failed(f)))
        case Some(schema) =>
          var rest := RollFrom(w, db.(schema := schema, ledger := DeleteRow(db.ledger, f)), ms, filenames[1..]);
          Outcome(rest.db, [f] + rest.done, rest.error)
  }

  // ---- ORDER BY applied_at DESC LIMIT steps ----

  function Names(rows: seq<Row>): seq<string> {
    seq(|rows|, i requires 0 <= i < |rows| => rows[i].filename)
  }

  /** Which rows the query may return: the latest ones, newest first; ties in any order. */
  ghost predicate NewestFirst(ledger: seq<Row>, steps: nat, picks: seq<nat>) {
    && |picks| == (if steps <= |ledger| then steps else |ledger|)
    && (forall i :: 0 <= i < |picks| ==> picks[i] < |ledger|)
    && (forall i, j :: 0 <= i < j < |picks| ==>
          picks[i] != picks[j] && ledger[picks[i]].appliedAt >= ledger[picks[j]].appliedAt)
    && (forall i, u :: 0 <= i < |picks| && 0 <= u < |ledger| && u !in picks ==>
          ledger[picks[i]].appliedAt >= ledger[u].appliedAt)
  }

  function PickedNames(ledger: seq<Row>, picks: seq<nat>): seq<string>
    requires forall i :: 0 <= i < |picks| ==> picks[i] < |ledger|
  {
    seq(|picks|, i requires 0 <= i < |picks| => ledger[picks[i]].filename)
  }

  predicate StrictlyTimed(ledger: seq<Row>) {
    forall i, j :: 0 <= i < j < |ledger| ==> ledger[i].appliedAt < ledger[j].appliedAt
  }

  /** Each of the latest rows is strictly newer than every row before it. */
  predicate LatestStrict(ledger: seq<Row>, steps: nat) {
    forall i, j :: 0 <= i < j < |ledger| && |ledger| - steps <= j ==> ledger[i].appliedAt < ledger[j].appliedAt
  }

  predicate Backwards(ledger: seq<Row>, picks: seq<nat>) {
    forall i :: 0 <= i < |picks| ==> picks[i] == |ledger| - 1 - i
  }

  lemma {:induction false} NoneOfThese(picks: seq<nat>, n: nat, v: nat, i: nat)
    requires i <= |picks| && v < n && forall j :: 0 <= j < i ==> picks[j] == n - 1 - j && picks[j] != v
    ensures v <= n - 1 - i
  {
    if i > 0 {
      NoneOfThese(picks, n, v, i - 1);
      assert picks[i - 1] == n - i;
    }
  }

  lemma {:induction false} QueryReadsBackwards(ledger: seq<Row>, steps: nat, picks: seq<nat>, i: nat)
    requires LatestStrict(ledger, steps) && NewestFirst(ledger, steps, picks) && i < |picks|
    ensures picks[i] == |ledger| - 1 - i
  {
    var u := |ledger| - 1 - i;
    forall j | 0 <= j < i ensures picks[j] == |ledger| - 1 - j { QueryReadsBackwards(ledger, steps, picks, j); }
    NoneOfThese(picks, |ledger|, picks[i], i);
    if u in picks {
      var j :| 0 <= j < |picks| && picks[j] == u;
      assert j >= i;
    } else {
      assert ledger[picks[i]].appliedAt >= ledger[u].appliedAt;
    }
  }

  /** Rows by commit time, newest first. */
  function Place(ledger: seq<Row>, x: nat, s: seq<nat>): seq<nat>
    requires x < |ledger| && forall i :: 0 <= i < |s| ==> s[i] < |ledger|
  {
    if s == [] || ledger[x].appliedAt >= ledger[s[0]].appliedAt then [x] + s else [s[0]] + Place(ledger, x, s[1..])
  }

  ghost predicate Ranked(ledger: seq<Row>, s: seq<nat>) {
    && (forall i :: 0 <= i < |s| ==> s[i] < |ledger|)
    && (forall i, j :: 0 <= i < j < |s| ==> s[i] != s[j] && ledger[s[i]].appliedAt >= ledger[s[j]].appliedAt)
  }

  lemma {:induction false} PlaceMembers(ledger: seq<Row>, x: nat, s: seq<nat>)
    requires x < |ledger| && forall i :: 0 <= i < |s| ==> s[i] < |ledger|
    ensures |Place(ledger, x, s)| == |s| + 1
    ensures forall y :: y in Place(ledger, x, s) <==> y == x || y in s
  {
    if s != [] {
      assert s == [s[0]] + s[1..];
      PlaceMembers(ledger, x, s[1..]);
    }
  }

  lemma {:induction false} ConsRanks(ledger: seq<Row>, x: nat, s: seq<nat>)
    requires x < |ledger| && Ranked(ledger, s)
    requires forall y :: y in s ==> y != x && ledger[x].appliedAt >= ledger[y].appliedAt
    ensures Ranked(ledger, [x] + s)
  {
  }

  lemma {:induction false} PlaceRanks(ledger: seq<Row>, x: nat, s: seq<nat>)
    requires x < |ledger| && Ranked(ledger, s) && x !in s
    ensures Ranked(ledger, Place(ledger, x, s))
  {
    if s == [] || ledger[x].appliedAt >= ledger[s[0]].appliedAt {
      ConsRanks(ledger, x, s);
    } else {
      PlaceRanks(ledger, x, s[1..]);
      PlaceMembers(ledger, x, s[1..]);
      ConsRanks(ledger, s[0], Place(ledger, x, s[1..]));
    }
  }

  lemma {:induction false} RankAll(ledger: seq<Row>, n: nat) returns (s: seq<nat>)
    requires n <= |ledger|
    ensures Ranked(ledger, s) && |s| == n && forall y: nat :: y in s <==> y < n
  {
    if n == 0 {
      s := [];
    } else {
      var front := RankAll(ledger, n - 1);
      PlaceRanks(ledger, n - 1, front);
      PlaceMembers(ledger, n - 1, front);
      s := Place(ledger, n - 1, front);
    }
  }

  /** The query always has an answer. */
  lemma {:induction false} QueryAnswers(ledger: seq<Row>, steps: nat) returns (picks: seq<nat>)
    ensures NewestFirst(ledger, steps, picks)
  {
    var all := RankAll(ledger, |ledger|);
    var n := if steps <= |ledger| then steps else |ledger|;
    picks := all[..n];
    forall i, u: nat | 0 <= i < n && u < |ledger| && u !in picks
      ensures ledger[picks[i]].appliedAt >= ledger[u].appliedAt
    {
      RestIsOlder(ledger, all, n, i, u);
    }
  }

  lemma {:induction false} RestIsOlder(ledger: seq<Row>, all: seq<nat>, n: nat, i: nat, u: nat)
    requires Ranked(ledger, all) && i < n <= |all| && u in all && u !in all[..n]
    ensures ledger[all[i]].appliedAt >= ledger[u].appliedAt
  {
    var rest := all[n..];
    assert all == all[..n] + rest;
    var k :| 0 <= k < |rest| && rest[k] == u;
    assert all[n + k] == u;
  }

  function Swap(i: nat, j: nat, x: nat): nat { if x == i then j else if x == j then i else x }

  /** Rows i and j trade places in an answer. */
  function Trade(picks: seq<nat>, i: nat, j: nat): seq<nat> {
    seq(|picks|, k requires 0 <= k < |picks| => Swap(i, j, picks[k]))
  }

  lemma {:induction false} TradeKeepsOrder(ledger: seq<Row>, picks: seq<nat>, i: nat, j: nat)
    requires Ranked(ledger, picks) && i < j < |ledger| && ledger[i].appliedAt == ledger[j].appliedAt
    ensures Ranked(ledger, Trade(picks, i, j))
  {
    forall k | 0 <= k < |picks|
      ensures picks[k] < |ledger| && Trade(picks, i, j)[k] == Swap(i, j, picks[k]) < |ledger|
      ensures ledger[Trade(picks, i, j)[k]].appliedAt == ledger[picks[k]].appliedAt
      ensures Swap(i, j, Trade(picks, i, j)[k]) == picks[k]
    {
    }
  }

  lemma {:induction false} TradeMembers(picks: seq<nat>, i: nat, j: nat, u: nat)
    requires u !in Trade(picks, i, j)
    ensures Swap(i, j, u) !in picks
  {
    forall x | x in picks ensures Swap(i, j, x) in Trade(picks, i, j) {
      var m :| 0 <= m < |picks| && picks[m] == x;
      assert Trade(picks, i, j)[m] == Swap(i, j, x);
    }
  }

  lemma {:induction false} TradeIsAnswer(ledger: seq<Row>, steps: nat, picks: seq<nat>, i: nat, j: nat)
    requires NewestFirst(ledger, steps, picks) && i < j < |ledger| && ledger[i].appliedAt == ledger[j].appliedAt
    ensures NewestFirst(ledger, steps, Trade(picks, i, j))
  {
    var other := Trade(picks, i, j);
    TradeKeepsOrder(ledger, picks, i, j);
    forall k, u: nat | 0 <= k < |other| && u < |ledger| && u !in other
      ensures ledger[other[k]].appliedAt >= ledger[u].appliedAt
    {
      TradeMembers(picks, i, j, u);
      assert ledger[picks[k]].appliedAt >= ledger[Swap(i, j, u)].appliedAt;
    }
  }

  /**
   The query for a number of steps has one answer, the ledger read backwards, if and only if
   each of the rows it reads is strictly newer than every row before it.
   */
  lemma {:induction false} QueryIsBackwardsExactly(ledger: seq<Row>, steps: nat)
    ensures (forall picks :: NewestFirst(ledger, steps, picks) ==> Backwards(ledger, picks))
            <==> LatestStrict(ledger, steps)
  {
    if LatestStrict(ledger, steps) {
      forall picks | NewestFirst(ledger, steps, picks) ensures Backwards(ledger, picks) {
        forall i | 0 <= i < |picks| ensures picks[i] == |ledger| - 1 - i {
          QueryReadsBackwards(ledger, steps, picks, i);
        }
      }
    }
    if forall picks :: NewestFirst(ledger, steps, picks) ==> Backwards(ledger, picks) {
      forall i: nat, j: nat | i < j < |ledger| && |ledger| - steps <= j
        ensures ledger[i].appliedAt < ledger[j].appliedAt
      {
        OnlyBackwardsIsStrict(ledger, steps, i, j);
      }
    }
  }

  lemma {:induction false} OnlyBackwardsIsStrict(ledger: seq<Row>, steps: nat, i: nat, j: nat)
    requires forall picks :: NewestFirst(ledger, steps, picks) ==> Backwards(ledger, picks)
    requires i < j < |ledger| && |ledger| - steps <= j
    ensures ledger[i].appliedAt < ledger[j].appliedAt
  {
    var picks := QueryAnswers(ledger, steps);
    var k := |ledger| - 1 - j;
    assert picks[k] == j;
    var other := Trade(picks, i, j);
    assert other[k] == i;
    assert !Backwards(ledger, other);
    if i in picks {
      var m :| 0 <= m < |picks| && picks[m] == i;
      assert m > k;
    }
    assert ledger[i].appliedAt <= ledger[j].appliedAt;
    if ledger[i].appliedAt == ledger[j].appliedAt { TradeIsAnswer(ledger, steps, picks, i, j); }
  }

  /** For every number of steps the answer is unique if and only if the commit times strictly increase. */
  lemma {:induction false} EveryQueryIsBackwardsExactly(ledger: seq<Row>)
    ensures (forall steps: nat, picks :: NewestFirst(ledger, steps, picks) ==> Backwards(ledger, picks))
            <==> StrictlyTimed(ledger)
  {
    if StrictlyTimed(ledger) {
      forall steps: nat, picks | NewestFirst(ledger, steps, picks) ensures Backwards(ledger, picks) {
        QueryIsBackwardsExactly(ledger, steps);
      }
    }
    if forall steps: nat, picks :: NewestFirst(ledger, steps, picks) ==> Backwards(ledger, picks) {
      QueryIsBackwardsExactly(ledger, |ledger|);
    }
  }

  /** If the two latest commits share a time, the query may pick either as the one to roll back. */
  lemma TiesAreAmbiguous(ledger: seq<Row>)
    requires |ledger| >= 2 && ledger[|ledger| - 1].appliedAt == ledger[|ledger| - 2].appliedAt
    requires forall i :: 0 <= i < |ledger| ==> ledger[i].appliedAt <= ledger[|ledger| - 1].appliedAt
    ensures NewestFirst(ledger, 1, [|ledger| - 1]) && NewestFirst(ledger, 1, [|ledger| - 2])
  {
  }

  // ---- the schema is the replay of the ledger ----

  /** The schema obtained from `base` by the up scripts of the rows, in order. */
  function Replay<S>(w: World<S>, base: S, ledger: seq<Row>): Option<S> {
    if ledger == [] then Some(base)
    else match Replay(w, base, ledger[..|ledger| - 1])
      case None => None
      case Some(before) => w.up(ledger[|ledger| - 1].checksum, before)
  }

  ghost predicate Replays<S>(w: World<S>, base: S, ledger: seq<Row>, schema: S) {
    Replay(w, base, ledger) == Some(schema)
  }

  ghost predicate Timely<S>(w: World<S>, db: Db<S>) {
    && (forall i, j :: 0 <= i < j ==> w.stamp(i) < w.stamp(j))
    && StrictlyTimed(db.ledger)
    && (forall i :: 0 <= i < |db.ledger| ==> db.ledger[i].appliedAt < w.stamp(db.commits))
    && DistinctRows(db.ledger)
  }

  lemma {:induction false} ApplyKeepsReplay<S>(w: World<S>, base: S, db: Db<S>, m: Migration)
    requires Replays(w, base, db.ledger, db.schema) && ApplyOne(w, db, m).Some?
    ensures Replays(w, base, ApplyOne(w, db, m).value.ledger, ApplyOne(w, db, m).value.schema)
  {
    assert ApplyOne(w, db, m).value.ledger[..|db.ledger|] == db.ledger;
  }

  lemma {:induction false} ApplyKeepsTimely<S>(w: World<S>, db: Db<S>, m: Migration)
    requires Timely(w, db) && ApplyOne(w, db, m).Some?
    ensures Timely(w, ApplyOne(w, db, m).value)
  {
    assert w.stamp(db.commits) < w.stamp(db.commits + 1);
  }

  /** A run only appends to the ledger, and appends exactly what it reports. */
  lemma {:induction false} RunAppends<S>(w: World<S>, db: Db<S>, already: map<string, string>, ms: seq<Migration>)
    ensures var r := RunFrom(w, db, already, ms);
            db.ledger <= r.db.ledger && Names(r.db.ledger[|db.ledger|..]) == r.done
    decreases |ms|
  {
    if ms == [] {
      assert db.ledger[|db.ledger|..] == [];
    } else if ms[0].filename in already {
      RunAppends(w, db, already, ms[1..]);
    } else if ApplyOne(w, db, ms[0]).Some? {
      var db' := ApplyOne(w, db, ms[0]).value;
      RunAppends(w, db', already, ms[1..]);
      var r := RunFrom(w, db', already, ms[1..]);
      assert db'.ledger[|db.ledger|].filename == ms[0].filename;
      NamesFrom(r.db.ledger, |db.ledger|);
    }
  }

  lemma NamesFrom(ledger: seq<Row>, k: nat)
    requires k < |ledger|
    ensures Names(ledger[k..]) == [ledger[k].filename] + Names(ledger[k + 1..])
  {
  }

  /** A run, finished or failed, leaves the schema equal to the replay of the ledger, whatever the clock does. */
  lemma {:induction false} RunKeepsReplay<S>(
    w: World<S>, base: S, db: Db<S>, already: map<string, string>, ms: seq<Migration>)
    requires Replays(w, base, db.ledger, db.schema)
    ensures var r := RunFrom(w, db, already, ms);
            Replays(w, base, r.db.ledger, r.db.schema)
    decreases |ms|
  {
    if ms == [] {
    } else if ms[0].filename in already {
      RunKeepsReplay(w, base, db, already, ms[1..]);
    } else if ApplyOne(w, db, ms[0]).Some? {
      ApplyKeepsReplay(w, base, db, ms[0]);
      RunKeepsReplay(w, base, ApplyOne(w, db, ms[0]).value, already, ms[1..]);
    }
  }

  /** With a clock that advances, every row of a run is newer than all before it. */
  lemma {:induction false} RunKeepsTimely<S>(
    w: World<S>, db: Db<S>, already: map<string, string>, ms: seq<Migration>)
    requires Timely(w, db)
    ensures Timely(w, RunFrom(w, db, already, ms).db)
    decreases |ms|
  {
    if ms == [] {
    } else if ms[0].filename in already {
      RunKeepsTimely(w, db, already, ms[1..]);
    } else if ApplyOne(w, db, ms[0]).Some? {
      ApplyKeepsTimely(w, db, ms[0]);
      RunKeepsTimely(w, ApplyOne(w, db, ms[0]).value, already, ms[1..]);
    }
  }

  // ---- a second run does nothing ----

  predicate DistinctFiles(ms: seq<Migration>) {
    forall i, j :: 0 <= i < j < |ms| ==> ms[i].filename != ms[j].filename
  }

  /** Every file of the list is in the ledger with its checksum. */
  predicate AllRecorded(ledger: seq<Row>, ms: seq<Migration>) {
    forall i :: 0 <= i < |ms| ==>
      ms[i].filename in Recorded(ledger) && Recorded(ledger)[ms[i].filename] == ms[i].checksum
  }

  lemma {:induction false} SuccessRecordsAll<S>(
    w: World<S>, db: Db<S>, already: map<string, string>, ms: seq<Migration>)
    requires DistinctFiles(ms)
    requires forall f :: f in already ==> f in Recorded(db.ledger) && Recorded(db.ledger)[f] == already[f]
    requires RunFrom(w, db, already, ms).error.None?
    ensures AllRecorded(RunFrom(w, db, already, ms).db.ledger, ms)
    ensures forall f :: f in already ==>
      f in Recorded(RunFrom(w, db, already, ms).db.ledger)
        && Recorded(RunFrom(w, db, already, ms).db.ledger)[f] == already[f]
    decreases |ms|
  {
    if ms != [] {
      var m, rest := ms[0], ms[1..];
      var end := RunFrom(w, db, already, ms).db.ledger;
      if m.filename in already {
        SuccessRecordsAll(w, db, already, rest);
      } else {
        var db' := ApplyOne(w, db, m).value;
        var already' := already[m.filename := m.checksum];
        assert db'.ledger[..|db.ledger|] == db.ledger;
        RunIgnoresOthers(w, db', already, m, rest);
        SuccessRecordsAll(w, db', already', rest);
        assert m.filename in already';
      }
      forall i | 0 <= i < |ms|
        ensures ms[i].filename in Recorded(end) && Recorded(end)[ms[i].filename] == ms[i].checksum {
        if i > 0 { assert ms[i] == rest[i - 1]; }
      }
    }
  }

  /** Knowing one more file that does not occur in the list makes no difference. */
  lemma {:induction false} RunIgnoresOthers<S>(
    w: World<S>, db: Db<S>, already: map<string, string>, m: Migration, ms: seq<Migration>)
    requires forall i :: 0 <= i < |ms| ==> ms[i].filename != m.filename
    ensures RunFrom(w, db, already[m.filename := m.checksum], ms) == RunFrom(w, db, already, ms)
    decreases |ms|
  {
    if ms != [] {
      assert ms[0].filename != m.filename;
      if ms[0].filename in already {
        RunIgnoresOthers(w, db, already, m, ms[1..]);
      } else if ApplyOne(w, db, ms[0]).Some? {
        RunIgnoresOthers(w, ApplyOne(w, db, ms[0]).value, already, m, ms[1..]);
      }
    }
  }

  lemma {:induction false} NothingPending<S>(w: World<S>, db: Db<S>, ms: seq<Migration>)
    requires AllRecorded(db.ledger, ms)
    ensures RunMigrations(w, db, ms) == Outcome(db, [], None)
  {
    if ms != [] {
      assert ms[0].filename in Recorded(db.ledger);
      forall i | 0 <= i < |ms[1..]|
        ensures ms[1..][i].filename in Recorded(db.ledger)
          && Recorded(db.ledger)[ms[1..][i].filename] == ms[1..][i].checksum
      {
        assert ms[1..][i] == ms[i + 1];
      }
      NothingPending(w, db, ms[1..]);
    }
  }

  /** Running again right after a successful run applies nothing and changes nothing. */
  lemma SecondRunAppliesNothing<S>(w: World<S>, db: Db<S>, ms: seq<Migration>)
    requires DistinctFiles(ms) && RunMigrations(w, db, ms).error.None?
    ensures var after := RunMigrations(w, db, ms).db;
            RunMigrations(w, after, ms) == Outcome(after, [], None)
  {
    SuccessRecordsAll(w, db, Recorded(db.ledger), ms);
    NothingPending(w, RunMigrations(w, db, ms).db, ms);
  }

  // ---- rolling back undoes a run ----

  /** Each down script undoes its up script. */
  ghost predicate Undoes<S(!new)>(w: World<S>, ms: seq<Migration>) {
    forall i, s :: 0 <= i < |ms| && w.up(ms[i].checksum, s).Some? ==>
      w.down(ms[i].filename, w.up(ms[i].checksum, s).value) == Some(s)
  }

  lemma {:induction false} DeleteLast(ledger: seq<Row>, row: Row)
    requires !HasRow(ledger, row.filename)
    ensures DeleteRow(ledger + [row], row.filename) == ledger
  {
    if ledger == [] {
      assert (ledger + [row])[1..] == [];
    } else {
      assert ledger[0].filename != row.filename;
      forall i | 0 <= i < |ledger[1..]|
        ensures ledger[1..][i].filename != row.filename { assert ledger[1..][i] == ledger[i + 1]; }
      DeleteLast(ledger[1..], row);
      assert (ledger + [row])[1..] == ledger[1..] + [row];
    }
  }

  lemma {:induction false} RollJoin<S>(w: World<S>, db: Db<S>, ms: seq<Migration>, a: seq<string>, b: seq<string>)
    requires RollFrom(w, db, ms, a).error.None?
    ensures var first := RollFrom(w, db, ms, a);
            RollFrom(w, db, ms, a + b) == Then(first.done, RollFrom(w, first.db, ms, b))
    decreases |a|
  {
    if a == [] {
      assert a + b == b;
    } else {
      var f, next := a[0], w.down(a[0], db.schema).value;
      var db' := db.(schema := next, ledger := DeleteRow(db.ledger, f));
      assert [f] + a[1..] == a;
      RollJoin(w, db', ms, a[1..], b);
      assert [f] + (a[1..] + b) == a + b;
      var first := RollFrom(w, db', ms, a[1..]);
      ThenThen([f], first.done, RollFrom(w, first.db, ms, b));
    }
  }

  function Reverse(names: seq<string>): seq<string> {
    if names == [] then [] else Reverse(names[1..]) + [names[0]]
  }

  /** Rolling back what a run applied, newest first, restores schema and ledger. */
  lemma {:induction false} RollbackUndoesRun<S(!new)>(w: World<S>, db: Db<S>, already: map<string, string>,
    disk: seq<Migration>, ms: seq<Migration>)
    requires Undoes(w, disk) && forall i :: 0 <= i < |ms| ==> ms[i] in disk
    ensures var run := RunFrom(w, db, already, ms);
            var back := RollFrom(w, run.db, disk, Reverse(run.done));
            back.db.schema == db.schema && back.db.ledger == db.ledger && back.error.None?
              && back.done == Reverse(run.done)
    decreases |ms|
  {
    if ms != [] {
      var m, rest := ms[0], ms[1..];
      forall i | 0 <= i < |rest| ensures rest[i] in disk { assert rest[i] == ms[i + 1]; }
      if m.filename in already {
        if already[m.filename] == m.checksum { RollbackUndoesRun(w, db, already, disk, rest); }
      } else if ApplyOne(w, db, m).Some? {
        var db' := ApplyOne(w, db, m).value;
        RollbackUndoesRun(w, db', already, disk, rest);
        var run' := RunFrom(w, db', already, rest);
        var back' := RollFrom(w, run'.db, disk, Reverse(run'.done));
        RollJoin(w, run'.db, disk, Reverse(run'.done), [m.filename]);
        RollOne(w, back'.db, db, disk, m);
        assert ([m.filename] + run'.done)[1..] == run'.done;
      }
    }
  }

  lemma {:induction false} RollOne<S(!new)>(w: World<S>, after: Db<S>, db: Db<S>, disk: seq<Migration>, m: Migration)
    requires Undoes(w, disk) && m in disk && ApplyOne(w, db, m).Some?
    requires after.schema == ApplyOne(w, db, m).value.schema && after.ledger == ApplyOne(w, db, m).value.ledger
    ensures var back := RollFrom(w, after, disk, [m.filename]);
            back.db.schema == db.schema && back.db.ledger == db.ledger && back.error.None? && back.done == [m.filename]
  {
    var k :| 0 <= k < |disk| && disk[k] == m;
    assert disk[k].filename == m.filename;
    assert w.up(disk[k].checksum, db.schema).Some?;
    DeleteLast(db.ledger, Row(m.filename, m.checksum, w.stamp(db.commits)));
    assert OnDisk(disk, m.filename);
    assert w.down(m.filename, after.schema) == Some(db.schema);
    var undone := after.(schema := db.schema, ledger := DeleteRow(after.ledger, m.filename));
    assert [m.filename][1..] == [];
    assert RollFrom(w, undone, disk, [m.filename][1..]) == Outcome(undone, [], None);
    assert [m.filename] + [] == [m.filename];
  }

  lemma {:induction false} ReverseAt(names: seq<string>, i: nat)
    requires i < |names|
    ensures |Reverse(names)| == |names| && Reverse(names)[i] == names[|names| - 1 - i]
  {
    if |names| > 1 { ReverseAt(names[1..], if i < |names| - 1 then i else 0); }
  }

  lemma {:induction false} PicksAreReverse(ledger: seq<Row>, front: nat, steps: nat, picks: seq<nat>)
    requires LatestStrict(ledger, steps) && NewestFirst(ledger, steps, picks)
    requires front == if steps <= |ledger| then |ledger| - steps else 0
    ensures PickedNames(ledger, picks) == Reverse(Names(ledger[front..]))
  {
    LatestLength(ledger, front);
    forall i | 0 <= i < |picks| ensures PickedNames(ledger, picks)[i] == Reverse(Names(ledger[front..]))[i] {
      QueryReadsBackwards(ledger, steps, picks, i);
      LatestAt(ledger, front, i);
    }
  }

  lemma {:induction false} LatestLength(ledger: seq<Row>, front: nat)
    requires front <= |ledger|
    ensures |Reverse(Names(ledger[front..]))| == |ledger| - front
  {
    if front < |ledger| { ReverseAt(Names(ledger[front..]), 0); }
  }

  lemma {:induction false} LatestAt(ledger: seq<Row>, front: nat, i: nat)
    requires front + i < |ledger|
    ensures |Reverse(Names(ledger[front..]))| == |ledger| - front
    ensures Reverse(Names(ledger[front..]))[i] == ledger[|ledger| - 1 - i].filename
  {
    ReverseAt(Names(ledger[front..]), i);
  }

  /** The names of the latest rows, newest first. */
  function LatestNames(ledger: seq<Row>, steps: nat): seq<string> {
    Reverse(Names(ledger[if steps <= |ledger| then |ledger| - steps else 0..]))
  }

  lemma {:induction false} LatestNamesArePicked(ledger: seq<Row>, steps: nat, picks: seq<nat>)
    requires NewestFirst(ledger, steps, picks)
    ensures LatestStrict(ledger, steps) ==> PickedNames(ledger, picks) == LatestNames(ledger, steps)
  {
    if LatestStrict(ledger, steps) {
      PicksAreReverse(ledger, if steps <= |ledger| then |ledger| - steps else 0, steps, picks);
    }
  }

  /** Every row was written by a script pair that is still on disk unchanged. */
  predicate RowsOnDisk(ledger: seq<Row>, disk: seq<Migration>) {
    forall i :: 0 <= i < |ledger| ==> Migration(ledger[i].filename, ledger[i].checksum) in disk
  }

  predicate DistinctRows(ledger: seq<Row>) {
    forall i, j :: 0 <= i < j < |ledger| ==> ledger[i].filename != ledger[j].filename
  }

  lemma {:induction false} ReverseSnoc(names: seq<string>, x: string)
    ensures Reverse(names + [x]) == [x] + Reverse(names)
  {
    if names != [] {
      ReverseSnoc(names[1..], x);
      assert (names + [x])[1..] == names[1..] + [x];
    }
  }

  /** Undoing the latest row leaves the replay of the remaining ledger. */
  lemma {:induction false} RollLatest<S(!new)>(w: World<S>, base: S, db: Db<S>, disk: seq<Migration>)
    returns (back: Db<S>)
    requires Replays(w, base, db.ledger, db.schema) && DistinctRows(db.ledger) && db.ledger != []
    requires Undoes(w, disk) && RowsOnDisk(db.ledger, disk)
    ensures RollFrom(w, db, disk, [db.ledger[|db.ledger| - 1].filename])
            == Outcome(back, [db.ledger[|db.ledger| - 1].filename], None)
    ensures back.ledger == db.ledger[..|db.ledger| - 1] && back.commits == db.commits
    ensures Replays(w, base, back.ledger, back.schema)
  {
    var n := |db.ledger| - 1;
    var row, front := db.ledger[n], db.ledger[..n];
    var before := Replay(w, base, front).value;
    var k :| 0 <= k < |disk| && disk[k] == Migration(row.filename, row.checksum);
    assert disk[k].filename == row.filename;
    assert w.up(disk[k].checksum, before) == Some(db.schema);
    assert w.down(row.filename, db.schema) == Some(before);
    DeleteLast(front, row);
    assert db.ledger == front + [row];
    back := db.(schema := before, ledger := front);
    assert [row.filename][1..] == [];
    assert RollFrom(w, back, disk, [row.filename][1..]) == Outcome(back, [], None);
    assert [row.filename] + [] == [row.filename];
  }

  /** Rolling back any number of steps succeeds and leaves the replay of the shortened ledger. */
  lemma {:induction false} RollbackKeepsReplay<S(!new)>(w: World<S>, base: S, db: Db<S>, disk: seq<Migration>,
    keep: nat)
    returns (back: Outcome<S>)
    requires Replays(w, base, db.ledger, db.schema) && DistinctRows(db.ledger)
    requires Undoes(w, disk) && RowsOnDisk(db.ledger, disk) && keep <= |db.ledger|
    ensures RolledTo(w, db, disk, keep, back) && Replays(w, base, back.db.ledger, back.db.schema)
    decreases |db.ledger|
  {
    if keep == |db.ledger| {
      back := RollNothing(w, db, disk);
    } else {
      var before := RollLatest(w, base, db, disk);
      var later := RollbackKeepsReplay(w, base, before, disk, keep);
      back := RollOneMore(w, db, before, disk, keep, later);
    }
  }

  /** Rolling back all rows but the first `keep`, newest first, gives this outcome, without an error. */
  ghost predicate RolledTo<S>(w: World<S>, db: Db<S>, disk: seq<Migration>, keep: nat, back: Outcome<S>) {
    && keep <= |db.ledger| && back == RollFrom(w, db, disk, Reverse(Names(db.ledger[keep..])))
    && back.error.None? && back.db.ledger == db.ledger[..keep]
  }

  lemma {:induction false} RollNothing<S>(w: World<S>, db: Db<S>, disk: seq<Migration>) returns (back: Outcome<S>)
    ensures RolledTo(w, db, disk, |db.ledger|, back) && back.db == db
  {
    assert db.ledger[|db.ledger|..] == [] && db.ledger[..|db.ledger|] == db.ledger;
    back := Outcome(db, [], None);
  }

  lemma {:induction false} RollOneMore<S>(
    w: World<S>, db: Db<S>, before: Db<S>, disk: seq<Migration>, keep: nat, later: Outcome<S>)
    returns (back: Outcome<S>)
    requires keep < |db.ledger| && before.ledger == db.ledger[..|db.ledger| - 1]
    requires RollFrom(w, db, disk, [db.ledger[|db.ledger| - 1].filename])
             == Outcome(before, [db.ledger[|db.ledger| - 1].filename], None)
    requires RolledTo(w, before, disk, keep, later)
    ensures RolledTo(w, db, disk, keep, back) && back.db == later.db
  {
    var last, rest := LatestFirst(db.ledger, keep);
    RollJoin(w, db, disk, [last], rest);
    back := RollFrom(w, db, disk, [last] + rest);
    assert before.ledger[..keep] == db.ledger[..keep];
  }

  /** The names to roll back are the latest one and then those of the shortened ledger. */
  lemma {:induction false} LatestFirst(ledger: seq<Row>, keep: nat) returns (last: string, rest: seq<string>)
    requires keep < |ledger|
    ensures last == ledger[|ledger| - 1].filename && rest == Reverse(Names(ledger[..|ledger| - 1][keep..]))
    ensures Reverse(Names(ledger[keep..])) == [last] + rest
  {
    var n := |ledger| - 1;
    last := ledger[n].filename;
    var names := Names(ledger[..n][keep..]);
    rest := Reverse(names);
    assert Names(ledger[keep..]) == names + [last];
    ReverseSnoc(names, last);
  }

  /**
   Run the pending migrations, then roll back as many steps as were applied: whatever rows the
   query returns, schema and ledger are back where they were, also when the run stopped halfway.
   */
  lemma RunThenRollback<S(!new)>(w: World<S>, base: S, db: Db<S>, ms: seq<Migration>, picks: seq<nat>)
    requires Replays(w, base, db.ledger, db.schema) && Timely(w, db) && Undoes(w, ms)
    requires var run := RunMigrations(w, db, ms); NewestFirst(run.db.ledger, |run.done|, picks)
    ensures var run := RunMigrations(w, db, ms);
            var back := RollFrom(w, run.db, ms, PickedNames(run.db.ledger, picks));
            back.db.schema == db.schema && back.db.ledger == db.ledger && back.error.None?
  {
    var already := Recorded(db.ledger);
    var run := RunMigrations(w, db, ms);
    RunKeepsReplay(w, base, db, already, ms);
    RunKeepsTimely(w, db, already, ms);
    RunAppends(w, db, already, ms);
    assert |run.done| == |run.db.ledger| - |db.ledger|;
    PicksAreReverse(run.db.ledger, |db.ledger|, |run.done|, picks);
    RollbackUndoesRun(w, db, already, ms, ms);
  }

  // ---- what a rollback leaves, finished or failed ----

  /** The rows whose scripts are not named, in their order. */
  function Remaining(ledger: seq<Row>, names: seq<string>): seq<Row> {
    if ledger == [] then []
    else
      var n := |ledger| - 1;
      Remaining(ledger[..n], names) + if ledger[n].filename in names then [] else [ledger[n]]
  }

  lemma {:induction false} RemainingMembers(ledger: seq<Row>, names: seq<string>, r: Row)
    ensures r in Remaining(ledger, names) <==> r in ledger && r.filename !in names
  {
    if ledger != [] {
      var n := |ledger| - 1;
      RemainingMembers(ledger[..n], names, r);
      assert ledger == ledger[..n] + [ledger[n]];
    }
  }

  lemma {:induction false} RemainingJoin(a: seq<Row>, b: seq<Row>, names: seq<string>)
    ensures Remaining(a + b, names) == Remaining(a, names) + Remaining(b, names)
  {
    if b == [] {
      assert a + b == a;
    } else {
      var n := |b| - 1;
      RemainingJoin(a, b[..n], names);
      assert (a + b)[..|a + b| - 1] == a + b[..n];
    }
  }

  lemma {:induction false} DeleteIsRemaining(ledger: seq<Row>, filename: string)
    ensures DeleteRow(ledger, filename) == Remaining(ledger, [filename])
  {
    if ledger != [] {
      DeleteIsRemaining(ledger[1..], filename);
      assert ledger == [ledger[0]] + ledger[1..];
      RemainingJoin([ledger[0]], ledger[1..], [filename]);
      assert [ledger[0]][..0] == [];
    }
  }

  lemma {:induction false} RemainingTwice(ledger: seq<Row>, a: seq<string>, b: seq<string>)
    ensures Remaining(Remaining(ledger, a), b) == Remaining(ledger, a + b)
  {
    if ledger != [] {
      var n := |ledger| - 1;
      RemainingTwice(ledger[..n], a, b);
      var last := if ledger[n].filename in a then [] else [ledger[n]];
      RemainingJoin(Remaining(ledger[..n], a), last, b);
      if last != [] { assert last[..0] == []; }
    }
  }

  /** The schema after the down scripts of the names, one after the other. */
  function DownAll<S>(w: World<S>, schema: S, names: seq<string>): Option<S> {
    if names == [] then Some(schema)
    else match w.down(names[0], schema)
      case None => None
      case Some(next) => DownAll(w, next, names[1..])
  }

  /** Why a rollback stopped: the first name not done has no script pair any more, or its down script fails. */
  ghost predicate StopsAt<S>(w: World<S>, ms: seq<Migration>, names: seq<string>, back: Outcome<S>) {
    match back.error
    case None => back.done == names
    case Some(error) =>
      && back.done < names
      && var f := names[|back.done|];
         if OnDisk(ms, f) then error == Failed(f) && w.down(f, back.db.schema).None? else error == Gone(f)
  }

  /** What a rollback from one database leaves in another, of the rows and of the schema. */
  ghost predicate Leaves<S>(w: World<S>, db: Db<S>, back: Outcome<S>) {
    && back.db.ledger == Remaining(db.ledger, back.done)
    && DownAll(w, db.schema, back.done) == Some(back.db.schema)
    && back.db.commits == db.commits
  }

  lemma {:induction false} LeavesOneMore<S>(w: World<S>, db: Db<S>, f: string, next: S, rest: Outcome<S>)
    requires w.down(f, db.schema) == Some(next)
    requires Leaves(w, db.(schema := next, ledger := DeleteRow(db.ledger, f)), rest)
    ensures Leaves(w, db, Then([f], rest))
  {
    DeleteIsRemaining(db.ledger, f);
    RemainingTwice(db.ledger, [f], rest.done);
    assert ([f] + rest.done)[1..] == rest.done;
  }

  lemma {:induction false} StopsOneMore<S>(
    w: World<S>, ms: seq<Migration>, f: string, names: seq<string>, rest: Outcome<S>)
    requires StopsAt(w, ms, names, rest)
    ensures StopsAt(w, ms, [f] + names, Then([f], rest))
  {
  }

  /**
   Whatever the scripts do, a rollback, finished or failed, leaves the rows of exactly the scripts it
   did not undo, and the schema taken through the down scripts of those it did; it undoes the names in
   order up to the first that cannot be undone.
   */
  lemma {:induction false} RollbackLeaves<S>(w: World<S>, db: Db<S>, ms: seq<Migration>, names: seq<string>)
    ensures Leaves(w, db, RollFrom(w, db, ms, names))
    ensures StopsAt(w, ms, names, RollFrom(w, db, ms, names))
    decreases |names|
  {
    RemainingAll(db.ledger);
    if names != [] && OnDisk(ms, names[0]) && w.down(names[0], db.schema).Some? {
      var f, next := names[0], w.down(names[0], db.schema).value;
      var db' := db.(schema := next, ledger := DeleteRow(db.ledger, f));
      RollbackLeaves(w, db', ms, names[1..]);
      LeavesOneMore(w, db, f, next, RollFrom(w, db', ms, names[1..]));
      StopsOneMore(w, ms, f, names[1..], RollFrom(w, db', ms, names[1..]));
      assert names == [f] + names[1..];
    }
  }

  lemma {:induction false} RemainingAll(ledger: seq<Row>)
    ensures Remaining(ledger, []) == ledger
  {
    if ledger != [] {
      var n := |ledger| - 1;
      RemainingAll(ledger[..n]);
      assert ledger == ledger[..n] + [ledger[n]];
    }
  }

  /** A row is still in the ledger if and only if its script is not among those undone. */
  lemma RollbackKeepsRow<S>(w: World<S>, db: Db<S>, ms: seq<Migration>, names: seq<string>, r: Row)
    ensures var back := RollFrom(w, db, ms, names);
            r in back.db.ledger <==> r in db.ledger && r.filename !in back.done
  {
    RollbackLeaves(w, db, ms, names);
    RemainingMembers(db.ledger, RollFrom(w, db, ms, names).done, r);
  }

  /** A down script that succeeds right after its up script undoes it; it may also fail. */
  ghost predicate UndoesOrFails<S(!new)>(w: World<S>, ledger: seq<Row>) {
    forall i, s :: 0 <= i < |ledger| && w.up(ledger[i].checksum, s).Some? ==>
      w.down(ledger[i].filename, w.up(ledger[i].checksum, s).value) in {None, Some(s)}
  }

  /** The latest row's down script succeeds: it leads back to the replay of the rows before. */
  lemma {:induction false} UndoLatest<S(!new)>(w: World<S>, base: S, db: Db<S>) returns (before: Db<S>)
    requires Replays(w, base, db.ledger, db.schema) && DistinctRows(db.ledger) && db.ledger != []
    requires UndoesOrFails(w, db.ledger) && w.down(db.ledger[|db.ledger| - 1].filename, db.schema).Some?
    ensures var f := db.ledger[|db.ledger| - 1].filename;
            before == db.(schema := w.down(f, db.schema).value, ledger := DeleteRow(db.ledger, f))
    ensures before.ledger == db.ledger[..|db.ledger| - 1]
    ensures Replays(w, base, before.ledger, before.schema)
    ensures DistinctRows(before.ledger) && UndoesOrFails(w, before.ledger)
  {
    var n := |db.ledger| - 1;
    var row, front := db.ledger[n], db.ledger[..n];
    var schema := Replay(w, base, front).value;
    assert w.up(db.ledger[n].checksum, schema) == Some(db.schema);
    assert w.down(row.filename, db.schema) == Some(schema);
    DeleteLast(front, row);
    assert db.ledger == front + [row];
    before := db.(schema := schema, ledger := front);
    forall i, s | 0 <= i < n && w.up(front[i].checksum, s).Some?
      ensures w.down(front[i].filename, w.up(front[i].checksum, s).value) in {None, Some(s)}
    {
      assert front[i] == db.ledger[i];
    }
  }

  /** As many of the latest rows are gone as were undone, and the schema is the replay of the rest. */
  ghost predicate RolledBack<S>(w: World<S>, base: S, db: Db<S>, keep: nat, back: Outcome<S>) {
    && keep + |back.done| <= |db.ledger|
    && back.db.ledger == db.ledger[..|db.ledger| - |back.done|]
    && Replays(w, base, back.db.ledger, back.db.schema)
  }

  lemma {:induction false} RolledBackMore<S>(
    w: World<S>, base: S, db: Db<S>, before: Db<S>, keep: nat, f: string, back: Outcome<S>)
    requires db.ledger != [] && before.ledger == db.ledger[..|db.ledger| - 1] && RolledBack(w, base, before, keep, back)
    ensures RolledBack(w, base, db, keep, Outcome(back.db, [f] + back.done, back.error))
  {
    var n := |db.ledger| - 1 - |back.done|;
    assert before.ledger[..n] == db.ledger[..n];
  }

  /**
   Rolling back the latest rows keeps the schema equal to the replay of the ledger, also when it
   stops halfway because a script pair is gone or a down script fails.
   */
  lemma {:induction false} FailedRollbackKeepsReplay<S(!new)>(
    w: World<S>, base: S, db: Db<S>, ms: seq<Migration>, keep: nat)
    requires Replays(w, base, db.ledger, db.schema) && DistinctRows(db.ledger) && UndoesOrFails(w, db.ledger)
    requires keep <= |db.ledger|
    ensures RolledBack(w, base, db, keep, RollFrom(w, db, ms, Reverse(Names(db.ledger[keep..]))))
    decreases |db.ledger|
  {
    assert db.ledger[..|db.ledger|] == db.ledger;
    if keep == |db.ledger| {
      assert db.ledger[keep..] == [];
    } else {
      var last, rest := LatestFirst(db.ledger, keep);
      assert ([last] + rest)[1..] == rest;
      if OnDisk(ms, last) && w.down(last, db.schema).Some? {
        var before := UndoLatest(w, base, db);
        FailedRollbackKeepsReplay(w, base, before, ms, keep);
        RolledBackMore(w, base, db, before, keep, last, RollFrom(w, before, ms, rest));
      }
    }
  }

  // ---- why a run stops ----

  /**
   A run goes through the list up to the first script that was changed since it was applied, or
   whose application fails, and says which; nothing after it is touched.
   */
  ghost predicate RunStopsAt<S>(
    w: World<S>, already: map<string, string>, ms: seq<Migration>, run: Outcome<S>, k: nat)
  {
    match run.error
    case None => k == |ms|
    case Some(error) =>
      && k < |ms|
      && var m := ms[k];
         if m.filename in already then error == Modified(m.filename) && already[m.filename] != m.checksum
         else error == Failed(m.filename) && ApplyOne(w, run.db, m).None?
  }

  /** The scripts that a run has to apply among the first k, in order. */
  function Unapplied(already: map<string, string>, ms: seq<Migration>, k: nat): seq<string>
    requires k <= |ms|
  {
    if k == 0 then []
    else Unapplied(already, ms, k - 1) + if ms[k - 1].filename in already then [] else [ms[k - 1].filename]
  }

  lemma {:induction false} UnappliedTail(already: map<string, string>, ms: seq<Migration>, k: nat)
    requires 0 < k <= |ms|
    ensures Unapplied(already, ms, k)
            == (if ms[0].filename in already then [] else [ms[0].filename]) + Unapplied(already, ms[1..], k - 1)
  {
    if k > 1 {
      UnappliedTail(already, ms, k - 1);
      assert ms[1..][k - 2] == ms[k - 1];
    }
  }

  lemma {:induction false} RunStops<S>(w: World<S>, db: Db<S>, already: map<string, string>, ms: seq<Migration>)
    returns (k: nat)
    ensures k <= |ms| && RunStopsAt(w, already, ms, RunFrom(w, db, already, ms), k)
    ensures RunFrom(w, db, already, ms).done == Unapplied(already, ms, k)
    decreases |ms|
  {
    k := 0;
    if ms != [] {
      var m, rest := ms[0], ms[1..];
      if m.filename in already && already[m.filename] == m.checksum {
        k := RunStops(w, db, already, rest);
        k := k + 1;
        UnappliedTail(already, ms, k);
      } else if m.filename !in already && ApplyOne(w, db, m).Some? {
        k := RunStops(w, ApplyOne(w, db, m).value, already, rest);
        k := k + 1;
        UnappliedTail(already, ms, k);
      }
    }
  }

  // ---- the runner ----

  class Runner<S> {
    const w: World<S>
    var schema: S
    var ledger: seq<Row>
    var commits: nat

    ghost function View(): Db<S>
      reads this
    {
      Db(schema, ledger, commits)
    }

    constructor (w: World<S>, schema: S)
      ensures this.w == w && View() == Db(schema, [], 0)
    {
      this.w, this.schema, ledger, commits := w, schema, [], 0;
    }

    /** Apply every pending migration, each in its own transaction; stop at the first failure. */
    method RunPending(ms: seq<Migration>) returns (applied: seq<string>, error: Option<Error>)
      modifies this
      ensures RunMigrations(w, old(View()), ms) == Outcome(View(), applied, error)
    {
      var already := Recorded(ledger);
      applied, error := [], None;
      for i := 0 to |ms|
        invariant RunMigrations(w, old(View()), ms) == Then(applied, RunFrom(w, View(), already, ms[i..]))
      {
        var m := ms[i];
        assert ms[i..][1..] == ms[i + 1..];
        if m.filename in already {
          if already[m.filename] != m.checksum {
            return applied, Some(Modified(m.filename));
          }
        } else {
          var next := w.up(m.checksum, schema);
          if next.None? || HasRow(ledger, m.filename) {
            return applied, Some(Failed(m.filename));
          }
          schema := next.value;
          ledger := ledger + [Row(m.filename, m.checksum, w.stamp(commits))];
          commits := commits + 1;
          ThenThen(applied, [m.filename], RunFrom(w, View(), already, ms[i + 1..]));
          applied := applied + [m.filename];
        }
      }
    }

    /**
     Roll back the latest `steps` migrations. `picks` are the rows the database returned, which
     may be any answer to the query.
     */
    method RollBackLatest(ms: seq<Migration>, steps: nat, picks: seq<nat>)
      returns (rolledBack: seq<string>, error: Option<Error>)
      requires NewestFirst(ledger, steps, picks)
      modifies this
      ensures RollFrom(w, old(View()), ms, PickedNames(old(ledger), picks)) == Outcome(View(), rolledBack, error)
      ensures LatestStrict(old(ledger), steps) ==>
        RollFrom(w, old(View()), ms, LatestNames(old(ledger), steps)) == Outcome(View(), rolledBack, error)
    {
      LatestNamesArePicked(ledger, steps, picks);
      rolledBack, error := RollBack(ms, PickedNames(ledger, picks));
    }

    /** Undo the given applied scripts in order, each in its own transaction; stop at the first failure. */
    method RollBack(ms: seq<Migration>, filenames: seq<string>) returns (rolledBack: seq<string>, error: Option<Error>)
      modifies this
      ensures RollFrom(w, old(View()), ms, filenames) == Outcome(View(), rolledBack, error)
    {
      rolledBack, error := [], None;
      assert filenames[0..] == filenames;
      for i := 0 to |filenames|
        invariant RollFrom(w, old(View()), ms, filenames) == Then(rolledBack, RollFrom(w, View(), ms, filenames[i..]))
      {
        var f := filenames[i];
        assert filenames[i..][1..] == filenames[i + 1..];
        if !OnDisk(ms, f) {
          return rolledBack, Some(Gone(f));
        }
        var next := w.down(f, schema);
        if next.None? {
          return rolledBack, Some(Failed(f));
        }
        schema, ledger := next.value, DeleteRow(ledger, f);
        ThenThen(rolledBack, [f], RollFrom(w, View(), ms, filenames[i + 1..]));
        rolledBack := rolledBack + [f];
      }
    }
  }

  /** An outcome with earlier work put in front. */
  function Then<S>(done: seq<string>, rest: Outcome<S>): Outcome<S> {
    rest.(done := done + rest.done)
  }

  lemma ThenThen<S>(a: seq<string>, b: seq<string>, rest: Outcome<S>)
    ensures Then(a, Then(b, rest)) == Then(a + b, rest)
  {
    assert a + (b + rest.done) == a + b + rest.done;
  }
}
