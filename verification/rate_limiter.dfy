/** The per-key rate limiter: counting windows, exponential backoff, permanent block. */
module RateLimiter {
  import opened JsText
  import opened RealFacts

  datatype Config = Config(windowMs: real, max: int, backoffMultiplier: real, maxViolations: int)

  datatype Entry = Entry(
    count: int, windowReset: real, violations: int, backoffEnd: Option<real>, blocked: bool)

  datatype Answer = Answer(allowed: bool, remaining: int, resetTime: real, retryAfter: Option<int>)

  function Pow(base: real, n: int): real {
    if n <= 0 then 1.0 else base * Pow(base, n - 1)
  }

  function Ceil(x: real): int { -((-x).Floor) }

  function Denied(resetTime: real, retryAfter: int): Answer {
    Answer(false, 0, resetTime, Some(retryAfter))
  }

  function FreshEntry(c: Config, now: real): Entry {
    Entry(1, now + c.windowMs, 0, None, false)
  }

  /** How long the given number of violations shuts a key out. */
  function BackoffMs(c: Config, violations: int): real {
    c.windowMs * Pow(c.backoffMultiplier, violations - 1)
  }

  /** What a request past the window's allowance does to the entry, and its answer. */
  function Violation(c: Config, e: Entry, now: real): (Entry, Answer) {
    var v := e.violations + 1;
    if v >= c.maxViolations then
      (e.(violations := v, blocked := true), Denied(now + 3600000.0, 3600))
    else
      var backoffMs := BackoffMs(c, v);
      (e.(violations := v, backoffEnd := Some(now + backoffMs)), Denied(now + backoffMs, Ceil(backoffMs / 1000.0)))
  }

  predicate InBackoff(e: Entry, now: real) { e.backoffEnd.Some? && now < e.backoffEnd.value }

  /** The entry once the request is counted, in a new window if the old one has passed. */
  function Counted(c: Config, e: Entry, now: real): Entry {
    if now >= e.windowReset then e.(count := 1, windowReset := now + c.windowMs, backoffEnd := None)
    else e.(count := e.count + 1)
  }

  /** One request of one key. */
  function Step(c: Config, known: Option<Entry>, now: real): (Entry, Answer) {
    match known
    case None => (FreshEntry(c, now), Answer(true, c.max - 1, now + c.windowMs, None))
    case Some(e) =>
      if e.blocked then (e, Denied(now + 3600000.0, 3600))
      else if InBackoff(e, now) then (e, Denied(e.backoffEnd.value, Ceil((e.backoffEnd.value - now) / 1000.0)))
      else
        var counted := Counted(c, e, now);
        if counted.count > c.max then Violation(c, counted, now)
        else (counted, Answer(true, c.max - counted.count, counted.windowReset, None))
  }

  function EntryOf(store: map<string, Entry>, key: string): Option<Entry> {
    if key in store then Some(store[key]) else None
  }

  class Limiter {
    const config: Config
    var store: map<string, Entry>

    constructor (config: Config)
      ensures this.config == config && store == map[]
    {
      this.config := config;
      store := map[];
    }

    /** Admit or refuse a request of `key` at time `now`; other keys are untouched. */
    method Check(key: string, now: real) returns (answer: Answer)
      modifies this`store
      ensures answer == Step(config, EntryOf(old(store), key), now).1
      ensures store == old(store)[key := Step(config, EntryOf(old(store), key), now).0]
    {
      if key !in store {
        store := store[key := FreshEntry(config, now)];
        return Answer(true, config.max - 1, store[key].windowReset, None);
      }
      var entry := store[key];
      assert store == store[key := entry];
      if entry.blocked {
        return Denied(now + 3600000.0, 3600);
      }
      if entry.backoffEnd.Some? && now < entry.backoffEnd.value {
        return Denied(entry.backoffEnd.value, Ceil((entry.backoffEnd.value - now) / 1000.0));
      }
      if now >= entry.windowReset {
        entry := entry.(count := 0, windowReset := now + config.windowMs, backoffEnd := None);
      }
      entry := entry.(count := entry.count + 1);
      if entry.count > config.max {
        entry := entry.(violations := entry.violations + 1);
        if entry.violations >= config.maxViolations {
          entry := entry.(blocked := true);
          store := store[key := entry];
          return Denied(now + 3600000.0, 3600);
        }
        var backoffMs := BackoffMs(config, entry.violations);
        entry := entry.(backoffEnd := Some(now + backoffMs));
        store := store[key := entry];
        return Denied(now + backoffMs, Ceil(backoffMs / 1000.0));
      }
      store := store[key := entry];
      return Answer(true, config.max - entry.count, entry.windowReset, None);
    }
  }

  // ---- runs of one key ----

  predicate Monotone(times: seq<real>) {
    forall i, j :: 0 <= i < j < |times| ==> times[i] <= times[j]
  }

  /** The entry after a sequence of requests. */
  function Run(c: Config, times: seq<real>): Option<Entry> {
    if times == [] then None
    else Some(Step(c, Run(c, times[..|times| - 1]), times[|times| - 1]).0)
  }

  /** The answer to request i. */
  function AnswerAt(c: Config, times: seq<real>, i: nat): Answer
    requires i < |times|
  {
    Step(c, Run(c, times[..i]), times[i]).1
  }

  /** Requests admitted in the half-open interval [from, to). */
  function AllowedIn(c: Config, times: seq<real>, from: real, to: real): nat {
    if times == [] then 0
    else
      var n := |times| - 1;
      AllowedIn(c, times[..n], from, to)
      + if from <= times[n] < to && Step(c, Run(c, times[..n]), times[n]).1.allowed then 1 else 0
  }

  function Min(a: int, b: int): int { if a < b then a else b }

  /**
   Admissions in [from, from + window) by where the current counting window started: before
   the interval, inside it, or after it.
   */
  ghost predicate AdmissionsBounded(c: Config, e: Entry, last: real, from: real, admitted: nat) {
    var start := e.windowReset - c.windowMs;
    && e.count >= 1
    && start <= last
    && (last < from ==> admitted == 0)
    && (start < from ==> admitted <= Min(e.count, c.max) - 1)
    && (from <= start < from + c.windowMs ==> admitted <= c.max - 1 + Min(e.count, c.max))
    && admitted <= 2 * c.max - 1
  }

  lemma StepKeepsBound(c: Config, e: Entry, last: real, now: real, from: real, admitted: nat)
    requires c.max >= 1 && last <= now
    requires AdmissionsBounded(c, e, last, from, admitted)
    ensures var (e', a) := Step(c, Some(e), now);
            AdmissionsBounded(c, e', now, from,
              admitted + if from <= now < from + c.windowMs && a.allowed then 1 else 0)
  {
  }

  lemma {:induction false} RunKeepsBound(c: Config, times: seq<real>, from: real)
    requires c.max >= 1 && Monotone(times) && times != []
    ensures AdmissionsBounded(c, Run(c, times).value, times[|times| - 1], from,
      AllowedIn(c, times, from, from + c.windowMs))
  {
    var n := |times| - 1;
    if n == 0 {
      assert times[..0] == [];
    } else {
      RunKeepsBound(c, times[..n], from);
      StepKeepsBound(c, Run(c, times[..n]).value, times[n - 1], times[n], from,
        AllowedIn(c, times[..n], from, from + c.windowMs));
    }
  }

  /** Any interval of one window length admits at most 2 * max - 1 requests of a key. */
  lemma AtMostTwiceMaxMinusOne(c: Config, times: seq<real>, from: real)
    requires c.max >= 1 && Monotone(times)
    ensures AllowedIn(c, times, from, from + c.windowMs) <= 2 * c.max - 1
  {
    if times != [] { RunKeepsBound(c, times, from); }
  }

  /** A limiter configured with max <= 0 admits the very first request and nothing else, ever. */
  lemma {:induction false} NothingAllowedAdmitsOnce(c: Config, times: seq<real>, from: real, to: real)
    requires c.max <= 0
    ensures times != [] ==> Run(c, times).value.count >= 1 && AnswerAt(c, times, 0).allowed
    ensures AllowedIn(c, times, from, to) <= 1
    ensures forall i :: 0 < i < |times| ==> !AnswerAt(c, times, i).allowed
  {
    if times != [] {
      var n := |times| - 1;
      assert times[..0] == [];
      NothingAllowedAdmitsOnce(c, times[..n], from, to);
      forall i | 0 < i < |times| ensures !AnswerAt(c, times, i).allowed {
        if i < n {
          assert times[..n][..i] == times[..i];
          assert !AnswerAt(c, times[..n], i).allowed;
        }
      }
      if n == 0 { assert times[..n] == []; } else { assert !AnswerAt(c, times, n).allowed; }
    }
  }

  // ---- the bound is reached ----

  lemma {:induction false} OneMore(c: Config, times: seq<real>, t: real, from: real, to: real) returns (all: seq<real>)
    requires Monotone(times) && forall x :: x in times ==> x <= t
    ensures all != [] && Monotone(all) && forall x :: x in all ==> x <= t
    ensures Run(c, all) == Some(Step(c, Run(c, times), t).0)
    ensures AllowedIn(c, all, from, to)
            == AllowedIn(c, times, from, to) + if from <= t < to && Step(c, Run(c, times), t).1.allowed then 1 else 0
  {
    all := times + [t];
    assert all[..|times|] == times;
    assert forall i :: 0 <= i < |times| ==> times[i] in times;
  }

  /** n admitted requests at one instant inside a window with room for them. */
  lemma {:induction false} BurstAdmitted(
    c: Config, times: seq<real>, t: real, n: nat, from: real, to: real)
    returns (all: seq<real>)
    requires times != [] && Monotone(times) && forall x :: x in times ==> x <= t
    requires from <= t < to
    requires var e := Run(c, times).value;
             !e.blocked && e.backoffEnd.None? && t < e.windowReset && e.count + n <= c.max
    ensures all != [] && Monotone(all) && forall x :: x in all ==> x <= t
    ensures Run(c, all) == Some(Run(c, times).value.(count := Run(c, times).value.count + n))
    ensures AllowedIn(c, all, from, to) == AllowedIn(c, times, from, to) + n
  {
    if n == 0 {
      all := times;
    } else {
      all := BurstAdmitted(c, times, t, n - 1, from, to);
      all := OneMore(c, all, t, from, to);
    }
  }

  /** Nothing yet, or a window that has passed. */
  predicate ReadyForWindow(known: Option<Entry>, t: real) {
    known.Some? ==> !known.value.blocked && !InBackoff(known.value, t) && known.value.windowReset <= t
  }

  function Violations(known: Option<Entry>): int { if known.Some? then known.value.violations else 0 }

  /** A window opened at t by a first request and then filled to the limit at one later instant. */
  lemma {:induction false} WindowFilled(
    c: Config, times: seq<real>, t: real, u: real, from: real, to: real)
    returns (all: seq<real>)
    requires c.max >= 1 && t <= u < t + c.windowMs && from <= u < to
    requires Monotone(times) && (forall x :: x in times ==> x <= t) && ReadyForWindow(Run(c, times), t)
    ensures all != [] && Monotone(all) && forall x :: x in all ==> x <= u
    ensures Run(c, all) == Some(Entry(c.max, t + c.windowMs, Violations(Run(c, times)), None, false))
    ensures AllowedIn(c, all, from, to)
            == AllowedIn(c, times, from, to) + (if from <= t < to then c.max else c.max - 1)
  {
    var next := OneMore(c, times, t, from, to);
    all := BurstAdmitted(c, next, u, c.max - 1, from, to);
  }

  /** For every max >= 1 some trace gets exactly 2 * max - 1 requests admitted within one window length. */
  lemma {:induction false} BoundIsReached(c: Config)
    requires c.max >= 1 && c.windowMs > 0.0
    ensures exists times ::
      Monotone(times) && AllowedIn(c, times, c.windowMs / 2.0, c.windowMs / 2.0 + c.windowMs) == 2 * c.max - 1
  {
    var w := c.windowMs;
    var from := w / 2.0;
    var early := WindowFilled(c, [], 0.0, from, from, from + w);
    var both := WindowFilled(c, early, w, w, from, from + w);
    assert Monotone(both) && AllowedIn(c, both, from, from + c.windowMs) == 2 * c.max - 1;
  }

  // ---- at most max per window ----

  ghost predicate WithinMax(c: Config, times: seq<real>, from: real) {
    AllowedIn(c, times, from, from + c.windowMs) <= c.max
  }

  /** What the limiter is configured for: no interval of one window length admits more than max. */
  ghost predicate EveryIntervalWithinMax(c: Config) {
    forall times, from :: Monotone(times) ==> WithinMax(c, times, from)
  }

  lemma {:induction false} NoneInEmptyInterval(c: Config, times: seq<real>, from: real, to: real)
    requires to <= from
    ensures AllowedIn(c, times, from, to) == 0
  {
    if times != [] { NoneInEmptyInterval(c, times[..|times| - 1], from, to); }
  }

  lemma {:induction false} FirstIsAdmitted(c: Config)
    requires c.windowMs > 0.0
    ensures Monotone([0.0]) && AllowedIn(c, [0.0], 0.0, 0.0 + c.windowMs) == 1
  {
    assert [0.0][..0] == [];
  }

  /** That holds for a limit of one and for no other, unless windows have no length. */
  lemma {:induction false} EveryIntervalWithinMaxExactly(c: Config)
    ensures EveryIntervalWithinMax(c) <==> if c.windowMs > 0.0 then c.max == 1 else c.max >= 0
  {
    if c.windowMs <= 0.0 {
      forall times, from ensures WithinMax(c, times, from) <==> c.max >= 0 {
        NoneInEmptyInterval(c, times, from, from + c.windowMs);
      }
      assert Monotone([]) && (WithinMax(c, [], 0.0) <==> c.max >= 0);
    } else if c.max == 1 {
      forall times, from | Monotone(times) ensures WithinMax(c, times, from) {
        AtMostTwiceMaxMinusOne(c, times, from);
      }
    } else if c.max < 1 {
      FirstIsAdmitted(c);
      assert !WithinMax(c, [0.0], 0.0);
    } else {
      BoundIsReached(c);
      var times :| Monotone(times)
        && AllowedIn(c, times, c.windowMs / 2.0, c.windowMs / 2.0 + c.windowMs) == 2 * c.max - 1;
      assert !WithinMax(c, times, c.windowMs / 2.0);
    }
  }

  /** Request k opens a counting window. */
  predicate OpensWindow(c: Config, times: seq<real>, k: nat)
    requires k < |times|
  {
    k == 0 || (AnswerAt(c, times, k).allowed && times[k] >= Run(c, times[..k]).value.windowReset)
  }

  /** Whoever was admitted, the window it was counted in had not passed. */
  lemma {:induction false} AdmittedBeforeReset(c: Config, times: seq<real>, from: real, to: real)
    requires c.windowMs > 0.0 && Monotone(times) && times != []
    ensures AllowedIn(c, times, from, to) > 0 ==> from < Run(c, times).value.windowReset
  {
    var n := |times| - 1;
    var front := times[..n];
    if n == 0 {
      assert front == [] && AllowedIn(c, front, from, to) == 0;
    } else {
      AdmittedBeforeReset(c, front, from, to);
    }
  }

  /** Admissions since the counting window that started at `from`, in that window or behind it. */
  ghost predicate AlignedBounded(c: Config, e: Entry, last: real, from: real, admitted: nat) {
    && from <= last && e.windowReset <= last + c.windowMs
    && admitted <= c.max
    && (e.windowReset >= from + c.windowMs + c.windowMs
        || (e.windowReset == from + c.windowMs && admitted <= e.count))
  }

  lemma StepKeepsAligned(c: Config, e: Entry, last: real, now: real, from: real, admitted: nat)
    requires c.windowMs > 0.0 && last <= now && AlignedBounded(c, e, last, from, admitted)
    ensures var (e', a) := Step(c, Some(e), now);
            AlignedBounded(c, e', now, from,
              admitted + if from <= now < from + c.windowMs && a.allowed then 1 else 0)
  {
  }

  lemma {:induction false} OpensInFront(c: Config, times: seq<real>, k: nat)
    requires k < |times| - 1
    ensures OpensWindow(c, times[..|times| - 1], k) <==> OpensWindow(c, times, k)
  {
    assert times[..|times| - 1][..k] == times[..k];
  }

  lemma {:induction false} RunKeepsAligned(c: Config, times: seq<real>, k: nat)
    requires c.windowMs > 0.0 && c.max >= 1 && Monotone(times) && k < |times| && OpensWindow(c, times, k)
    ensures AlignedBounded(c, Run(c, times).value, times[|times| - 1], times[k],
      AllowedIn(c, times, times[k], times[k] + c.windowMs))
  {
    var n := |times| - 1;
    var front := times[..n];
    if k < n {
      OpensInFront(c, times, k);
      RunKeepsAligned(c, front, k);
      StepKeepsAligned(c, Run(c, front).value, times[n - 1], times[n], times[k],
        AllowedIn(c, front, times[k], times[k] + c.windowMs));
    } else {
      OpeningIsAligned(c, times);
    }
  }

  /** Nobody was admitted at that instant before the request that opens the window. */
  lemma {:induction false} OpeningIsAligned(c: Config, times: seq<real>)
    requires c.windowMs > 0.0 && c.max >= 1 && Monotone(times) && times != [] && OpensWindow(c, times, |times| - 1)
    ensures var from := times[|times| - 1];
            AlignedBounded(c, Run(c, times).value, from, from, AllowedIn(c, times, from, from + c.windowMs))
  {
    var n := |times| - 1;
    var front := times[..n];
    if n == 0 {
      assert front == [] && AllowedIn(c, front, times[n], times[n] + c.windowMs) == 0;
    } else {
      AdmittedBeforeReset(c, front, times[n], times[n] + c.windowMs);
    }
  }

  /** For every max >= 1, an interval that starts where a counting window starts admits at most max requests. */
  lemma AlignedIntervalWithinMax(c: Config, times: seq<real>, k: nat)
    requires c.windowMs > 0.0 && c.max >= 1 && Monotone(times) && k < |times| && OpensWindow(c, times, k)
    ensures WithinMax(c, times, times[k])
  {
    RunKeepsAligned(c, times, k);
  }

  /**
   What an admitted request is told: as many more are admitted at that instant as remain, and at
   the reset time the whole limit is there again.
   */
  lemma RemainingIsExact(c: Config, known: Option<Entry>, now: real)
    requires c.windowMs > 0.0 && Step(c, known, now).1.allowed
    ensures var (e, a) := Step(c, known, now);
            var again, later := Step(c, Some(e), now).1, Step(c, Some(e), a.resetTime).1;
            && (again.allowed <==> a.remaining > 0)
            && (again.allowed ==> again.remaining == a.remaining - 1 && again.resetTime == a.resetTime)
            && (c.max >= 1 ==> later.allowed && later.remaining == c.max - 1)
  {
  }

  // ---- backoff and permanent block ----

  lemma {:induction false} PowAtLeastOne(base: real, n: int)
    requires base >= 1.0
    ensures Pow(base, n) >= 1.0
  {
    if n > 0 {
      PowAtLeastOne(base, n - 1);
      assert base * Pow(base, n - 1) >= 1.0 * Pow(base, n - 1);
    }
  }

  /** The laws of powers: one factor for each unit of the exponent. */
  lemma {:induction false} PowAdds(base: real, m: nat, n: nat)
    ensures Pow(base, 1) == base
    ensures Pow(base, m + n) == Times(Pow(base, m), Pow(base, n))
  {
    PowStep(base, 1);
    if n > 0 {
      PowAdds(base, m, n - 1);
      PowStep(base, m + n);
      PowStep(base, n);
      Associate(base, Pow(base, m), Pow(base, n - 1));
    }
  }

  lemma PowStep(base: real, n: nat)
    requires n > 0
    ensures Pow(base, n) == Times(base, Pow(base, n - 1))
  {
  }

  lemma Associate(x: real, y: real, z: real)
    ensures Times(x, Times(y, z)) == Times(y, Times(x, z))
  {
    assert x * (y * z) == (x * y) * z;
  }

  /** The violations counted before request i. */
  function CountAt(c: Config, times: seq<real>, i: nat): int
    requires i <= |times|
  {
    Violations(Run(c, times[..i]))
  }

  /** Request i is one too many: it adds a violation. */
  predicate ViolatesAt(c: Config, times: seq<real>, i: nat)
    requires i < |times|
  {
    CountAt(c, times, i + 1) > CountAt(c, times, i)
  }

  predicate BlocksAt(c: Config, times: seq<real>, i: nat)
    requires i < |times|
  {
    Run(c, times[..i + 1]).value.blocked
  }

  /** How long the answer to request i shuts the key out. */
  function ShutOut(c: Config, times: seq<real>, i: nat): real
    requires i < |times|
  {
    AnswerAt(c, times, i).resetTime - times[i]
  }

  /** A step adds at most one violation; one that does not block shuts the key out for its backoff. */
  lemma StepViolates(c: Config, known: Option<Entry>, now: real)
    ensures var (e, a) := Step(c, known, now);
            var v := Violations(known);
            && (e.violations == v || e.violations == v + 1)
            && (e.violations == v + 1 && !e.blocked ==>
                  !a.allowed && e.backoffEnd == Some(a.resetTime) && a.resetTime - now == BackoffMs(c, v + 1))
  {
  }

  lemma {:induction false} ViolationShutsOut(c: Config, times: seq<real>, i: nat)
    requires i < |times|
    ensures CountAt(c, times, i + 1) == CountAt(c, times, i) + if ViolatesAt(c, times, i) then 1 else 0
    ensures ViolatesAt(c, times, i) && !BlocksAt(c, times, i) ==>
      !AnswerAt(c, times, i).allowed && ShutOut(c, times, i) == BackoffMs(c, CountAt(c, times, i) + 1)
  {
    assert times[..i + 1][..i] == times[..i];
    assert Run(c, times[..i + 1]) == Some(Step(c, Run(c, times[..i]), times[i]).0);
    StepViolates(c, Run(c, times[..i]), times[i]);
  }

  lemma {:induction false} NothingBetween(c: Config, times: seq<real>, i: nat, j: nat)
    requires i <= j <= |times| && forall k :: i <= k < j ==> !ViolatesAt(c, times, k)
    ensures CountAt(c, times, j) == CountAt(c, times, i)
  {
    if i < j {
      NothingBetween(c, times, i, j - 1);
      ViolationShutsOut(c, times, j - 1);
    }
  }

  lemma {:induction false} CountNonNegative(c: Config, times: seq<real>, i: nat)
    requires i <= |times|
    ensures CountAt(c, times, i) >= 0
  {
    if i > 0 {
      CountNonNegative(c, times, i - 1);
      ViolationShutsOut(c, times, i - 1);
    }
  }

  /** The first violation of a key shuts it out for one window. */
  lemma {:induction false} FirstBackoffIsWindow(c: Config, times: seq<real>, i: nat)
    requires i < |times| && ViolatesAt(c, times, i) && !BlocksAt(c, times, i)
    requires forall k :: 0 <= k < i ==> !ViolatesAt(c, times, k)
    ensures !AnswerAt(c, times, i).allowed && ShutOut(c, times, i) == c.windowMs
  {
    NothingBetween(c, times, 0, i);
    assert times[..0] == [];
    ViolationShutsOut(c, times, i);
    NextBackoff(c, 1);
  }

  /**
   Exponential backoff over any trace of a key: of two violations in a row, neither of which blocks
   it, the later one shuts it out for exactly backoffMultiplier times as long as the earlier one.
   */
  lemma {:induction false} BackoffGrows(c: Config, times: seq<real>, i: nat, j: nat)
    requires i < j < |times| && ViolatesAt(c, times, i) && ViolatesAt(c, times, j)
    requires forall k :: i < k < j ==> !ViolatesAt(c, times, k)
    requires !BlocksAt(c, times, i) && !BlocksAt(c, times, j)
    ensures !AnswerAt(c, times, i).allowed && !AnswerAt(c, times, j).allowed
    ensures ShutOut(c, times, j) == Longer(c, ShutOut(c, times, i))
  {
    NothingBetween(c, times, i + 1, j);
    CountNonNegative(c, times, i);
    ViolationShutsOut(c, times, i);
    ViolationShutsOut(c, times, j);
    NextBackoff(c, CountAt(c, times, i) + 1);
  }

  function Longer(c: Config, ms: real): real { c.backoffMultiplier * ms }

  lemma NextBackoff(c: Config, v: int)
    requires v >= 1
    ensures BackoffMs(c, v + 1) == Longer(c, BackoffMs(c, v))
    ensures BackoffMs(c, 1) == c.windowMs
  {
    Associate(c.backoffMultiplier, c.windowMs, Pow(c.backoffMultiplier, v - 1));
  }

  /** Whoever is refused and waits the seconds it is told has waited long enough, and one second less is not enough. */
  lemma RetryAfterIsExact(c: Config, known: Option<Entry>, now: real)
    ensures var a := Step(c, known, now).1;
            a.allowed == a.retryAfter.None?
            && (!a.allowed ==> EnoughSeconds(a, now))
  {
    match known
    case None =>
    case Some(e) =>
      if !e.blocked && InBackoff(e, now) {
        CeilIsExact((e.backoffEnd.value - now) / 1000.0);
      } else if !e.blocked {
        CeilIsExact(BackoffMs(c, Counted(c, e, now).violations + 1) / 1000.0);
      }
  }

  predicate EnoughSeconds(a: Answer, now: real) {
    && a.retryAfter.Some?
    && now + a.retryAfter.value as real * 1000.0 >= a.resetTime
    && now + (a.retryAfter.value - 1) as real * 1000.0 < a.resetTime
  }

  lemma CeilIsExact(x: real)
    ensures (Ceil(x) - 1) as real < x <= Ceil(x) as real
  {
  }

  /** Every backoff outlasts the window it was earned in. */
  predicate LongBackoffs(c: Config) { c.backoffMultiplier >= 1.0 || c.maxViolations <= 2 }

  ghost predicate EntryInvariant(c: Config, e: Entry, last: real) {
    && e.count >= 1 && e.violations >= 0
    && e.windowReset <= last + c.windowMs
    && (e.blocked ==> e.violations >= c.maxViolations)
    && (c.maxViolations >= 1 && e.violations >= c.maxViolations ==> e.blocked)
    && (e.backoffEnd.Some? ==> e.count > c.max && 1 <= e.violations)
    && (e.backoffEnd.Some? && !e.blocked ==> e.violations < c.maxViolations)
    && (LongBackoffs(c) ==> CoversWindow(e))
  }

  lemma BackoffAtLeastWindow(c: Config, violations: int)
    requires LongBackoffs(c) && c.windowMs >= 0.0 && 1 <= violations < c.maxViolations
    ensures BackoffMs(c, violations) >= c.windowMs
  {
    if c.backoffMultiplier >= 1.0 {
      PowAtLeastOne(c.backoffMultiplier, violations - 1);
      assert c.windowMs * Pow(c.backoffMultiplier, violations - 1) >= c.windowMs * 1.0;
    }
  }

  lemma StepKeepsInvariant(c: Config, known: Option<Entry>, last: real, now: real)
    requires c.windowMs >= 0.0
    requires known.Some? ==> last <= now && EntryInvariant(c, known.value, last)
    ensures EntryInvariant(c, Step(c, known, now).0, now)
  {
    if known.Some? && !known.value.blocked && !InBackoff(known.value, now) {
      var v := Counted(c, known.value, now).violations + 1;
      if LongBackoffs(c) && v < c.maxViolations { BackoffAtLeastWindow(c, v); }
    }
  }

  /** What holds of the entry of a key after any sequence of requests. */
  lemma {:induction false} ReachableEntries(c: Config, times: seq<real>)
    requires c.windowMs >= 0.0 && Monotone(times) && times != []
    ensures EntryInvariant(c, Run(c, times).value, times[|times| - 1])
  {
    var n := |times| - 1;
    if n == 0 {
      assert times[..0] == [];
      StepKeepsInvariant(c, None, times[0], times[0]);
    } else {
      ReachableEntries(c, times[..n]);
      StepKeepsInvariant(c, Run(c, times[..n]), times[n - 1], times[n]);
    }
  }

  /**
   A key in backoff: requests during it are refused and change nothing; a request at or after
   its end is admitted exactly when the counting window has passed too.
   */
  lemma AfterBackoff(c: Config, times: seq<real>, now: real)
    requires c.windowMs >= 0.0 && c.max >= 1 && Monotone(times) && times != [] && times[|times| - 1] <= now
    requires var e := Run(c, times).value; e.backoffEnd.Some? && !e.blocked
    ensures var e := Run(c, times).value;
            var (e', a) := Step(c, Some(e), now);
            && (now < e.backoffEnd.value ==> e' == e && !a.allowed && a.resetTime == e.backoffEnd.value)
            && (now >= e.backoffEnd.value ==> (a.allowed <==> now >= e.windowReset))
            && (now >= e.backoffEnd.value && LongBackoffs(c) ==> a.allowed && e'.backoffEnd.None?)
  {
    ReachableEntries(c, times);
  }

  lemma StepOverLimit(c: Config, violations: int, t: real)
    requires c.windowMs > 0.0 && violations + 1 < c.maxViolations
    ensures Step(c, Some(Entry(c.max, t + c.windowMs, violations, None, false)), t).0
            == Entry(c.max + 1, t + c.windowMs, violations + 1, Some(t + BackoffMs(c, violations + 1)), false)
  {
  }

  /** One request more than the limit, all at one instant, starts a backoff. */
  lemma {:induction false} BurstEndsInBackoff(c: Config, times: seq<real>, t: real) returns (all: seq<real>)
    requires c.max >= 1 && c.windowMs > 0.0 && Violations(Run(c, times)) + 1 < c.maxViolations
    requires Monotone(times) && (forall x :: x in times ==> x <= t) && ReadyForWindow(Run(c, times), t)
    ensures all != [] && Monotone(all) && forall x :: x in all ==> x <= t
    ensures var v := Violations(Run(c, times)) + 1;
            Run(c, all) == Some(Entry(c.max + 1, t + c.windowMs, v, Some(t + BackoffMs(c, v)), false))
  {
    var full := WindowFilled(c, times, t, t, t, t + c.windowMs);
    all := OneMore(c, full, t, t, t);
    StepOverLimit(c, Violations(Run(c, times)), t);
  }

  lemma {:induction false} BackoffDurations(c: Config)
    ensures BackoffMs(c, 1) == c.windowMs
    ensures BackoffMs(c, 2) == c.windowMs * c.backoffMultiplier
  {
    assert Pow(c.backoffMultiplier, 1) == c.backoffMultiplier * Pow(c.backoffMultiplier, 0);
  }

  lemma Shrinks(w: real, m: real)
    requires w > 0.0 && m < 1.0
    ensures w * m < w
  {
    assert w * m < w * 1.0;
  }

  lemma {:induction false} FirstBurst(c: Config) returns (all: seq<real>)
    requires c.max >= 1 && c.windowMs > 0.0 && c.maxViolations > 2
    ensures Monotone(all) && forall x :: x in all ==> x <= c.windowMs
    ensures Violations(Run(c, all)) == 1 && ReadyForWindow(Run(c, all), c.windowMs)
  {
    BackoffDurations(c);
    all := BurstEndsInBackoff(c, [], 0.0);
  }

  lemma {:induction false} SecondBurst(c: Config, one: seq<real>) returns (all: seq<real>)
    requires c.max >= 1 && c.windowMs > 0.0 && c.maxViolations > 2
    requires Monotone(one) && forall x :: x in one ==> x <= c.windowMs
    requires Violations(Run(c, one)) == 1 && ReadyForWindow(Run(c, one), c.windowMs)
    ensures all != [] && Monotone(all)
    ensures Run(c, all).value.backoffEnd == Some(c.windowMs + BackoffMs(c, 2))
    ensures Run(c, all).value.windowReset == c.windowMs + c.windowMs && !Run(c, all).value.blocked
  {
    all := BurstEndsInBackoff(c, one, c.windowMs);
  }

  lemma ShortSecondBackoff(c: Config)
    requires c.windowMs > 0.0 && c.backoffMultiplier < 1.0
    ensures BackoffMs(c, 2) < c.windowMs
  {
    BackoffDurations(c);
    Shrinks(c.windowMs, c.backoffMultiplier);
  }

  /** Two bursts, the second as soon as the first backoff ends: the second backoff ends early. */
  lemma {:induction false} ShortBackoffsFallShort(c: Config)
    requires c.max >= 1 && c.windowMs > 0.0 && !LongBackoffs(c)
    ensures exists times :: Monotone(times) && times != [] && !CoversWindow(Run(c, times).value)
  {
    var one := FirstBurst(c);
    var two := SecondBurst(c, one);
    ShortSecondBackoff(c);
    assert Monotone(two) && two != [] && !CoversWindow(Run(c, two).value);
  }

  predicate CoversWindow(e: Entry) {
    e.backoffEnd.Some? && !e.blocked ==> e.backoffEnd.value >= e.windowReset
  }

  ghost predicate BackoffsCoverWindow(c: Config) {
    forall times :: Monotone(times) && times != [] ==> CoversWindow(Run(c, times).value)
  }

  /** Backoffs never end before their window exactly when they cannot shrink or never come twice. */
  lemma {:induction false} BackoffsCoverWindowExactly(c: Config)
    requires c.max >= 1 && c.windowMs > 0.0
    ensures BackoffsCoverWindow(c) <==> LongBackoffs(c)
  {
    if LongBackoffs(c) {
      forall times | Monotone(times) && times != []
        ensures CoversWindow(Run(c, times).value)
      {
        ReachableEntries(c, times);
      }
    } else {
      ShortBackoffsFallShort(c);
    }
  }

  lemma {:induction false} StaysBlocked(c: Config, times: seq<real>, b: nat, i: nat)
    requires 0 < b <= i <= |times| && Run(c, times[..b]).value.blocked
    ensures Run(c, times[..i]) == Run(c, times[..b])
  {
    if b < i {
      StaysBlocked(c, times, b, i - 1);
      assert times[..i][..i - 1] == times[..i - 1];
    }
  }

  /** Once blocked, a key is refused for good, each time for an hour, and its entry never changes again. */
  lemma {:induction false} BlockIsForever(c: Config, before: seq<real>, after: seq<real>)
    requires before != [] && Run(c, before).value.blocked
    ensures Run(c, before + after) == Run(c, before)
    ensures forall i :: |before| <= i < |before| + |after| ==>
      AnswerAt(c, before + after, i) == Denied((before + after)[i] + 3600000.0, 3600)
  {
    var all, b := before + after, |before|;
    assert all[..b] == before && all[..|all|] == all;
    forall i | b <= i <= |all| ensures Run(c, all[..i]) == Run(c, before) { StaysBlocked(c, all, b, i); }
  }

  ghost predicate BlockedMeansTooManyViolations(c: Config) {
    forall times :: Monotone(times) && times != [] ==>
      (Run(c, times).value.blocked <==> Run(c, times).value.violations >= c.maxViolations)
  }

  /** The block flag and the violation count agree in every run exactly when maxViolations is positive. */
  lemma {:induction false} BlockedExactly(c: Config)
    requires c.windowMs >= 0.0
    ensures BlockedMeansTooManyViolations(c) <==> c.maxViolations >= 1
  {
    if c.maxViolations >= 1 {
      forall times | Monotone(times) && times != []
        ensures Run(c, times).value.blocked <==> Run(c, times).value.violations >= c.maxViolations
      {
        ReachableEntries(c, times);
      }
    } else {
      var once := [0.0];
      assert once[..0] == [];
      assert Monotone(once) && Run(c, once) == Some(FreshEntry(c, 0.0));
    }
  }

  // ---- several keys ----

  datatype Request = Request(key: string, time: real)

  function RunAll(c: Config, trace: seq<Request>): map<string, Entry> {
    if trace == [] then map[]
    else
      var r, store := trace[|trace| - 1], RunAll(c, trace[..|trace| - 1]);
      store[r.key := Step(c, EntryOf(store, r.key), r.time).0]
  }

  function TimesOf(trace: seq<Request>, key: string): seq<real> {
    if trace == [] then []
    else
      var r, front := trace[|trace| - 1], TimesOf(trace[..|trace| - 1], key);
      if r.key == key then front + [r.time] else front
  }

  /** Keys do not disturb each other: each sees exactly the run of its own requests. */
  lemma {:induction false} KeysAreIndependent(c: Config, trace: seq<Request>, key: string)
    ensures EntryOf(RunAll(c, trace), key) == Run(c, TimesOf(trace, key))
  {
    if trace != [] {
      var n := |trace| - 1;
      KeysAreIndependent(c, trace[..n], key);
      var front := TimesOf(trace[..n], key);
      if trace[n].key == key { assert (front + [trace[n].time])[..|front|] == front; }
    }
  }
}
