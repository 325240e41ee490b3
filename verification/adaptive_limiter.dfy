/** The adaptive rate limiter: the base limiter plus anomaly detection and a temporary blacklist. */
module AdaptiveLimiter {
  import opened JsText
  import R = RateLimiter

  datatype Override = Override(prefix: string, limit: int)

  datatype Config = Config(
    base: R.Config, anomalyThreshold: real, blacklistMs: real, pathOverrides: seq<Override>)

  /** The base entry with the blacklist deadline and the recent request times. */
  datatype Traffic = Traffic(core: R.Entry, blacklistedUntil: Option<real>, history: seq<real>)

  function EffectiveMax(c: Config, overrides: seq<Override>, path: string): int {
    if overrides == [] then c.base.max
    else if overrides[0].prefix <= path then overrides[0].limit
    else EffectiveMax(c, overrides[1..], path)
  }

  /** `history.filter(t => t >= bound)`. */
  function Since(history: seq<real>, bound: real): seq<real> {
    if history == [] then []
    else
      var n := |history| - 1;
      Since(history[..n], bound) + if history[n] >= bound then [history[n]] else []
  }

  /** Requests per second over the last window. */
  function CalculateRate(history: seq<real>, windowMs: real, now: real): real
    requires windowMs > 0.0
  {
    |Since(history, now - windowMs)| as real / (windowMs / 1000.0)
  }

  /** The number of requests per window above which traffic is anomalous. */
  function AnomalyLimit(c: Config): real { c.base.max as real * c.anomalyThreshold }

  /** Enough data, and more requests in the last window than the limit. */
  predicate IsAnomaly(c: Config, history: seq<real>, now: real) {
    |history| >= 5 && |Since(history, now - c.base.windowMs)| as real > AnomalyLimit(c)
  }

  /** The request times kept once a request at `now` is recorded: the last two windows. */
  function Recorded(c: Config, known: Option<Traffic>, now: real): seq<real> {
    if known.None? then [now] else Since(known.value.history + [now], now - c.base.windowMs * 2.0)
  }

  /** One request of one key for a path with the given limit, given what the detector says. */
  function StepWith(
    c: Config, known: Option<Traffic>, limit: int, now: real, history: seq<real>, anomaly: bool): (Traffic, R.Answer)
  {
    match known
    case None =>
      (Traffic(R.FreshEntry(c.base, now), None, history), R.Answer(true, limit - 1, now + c.base.windowMs, None))
    case Some(t) =>
      var recorded := t.(history := history);
      if t.core.blocked then (recorded, R.Denied(now + 3600000.0, 3600))
      else if t.blacklistedUntil.Some? && now < t.blacklistedUntil.value then
        (recorded, R.Denied(t.blacklistedUntil.value, R.Ceil((t.blacklistedUntil.value - now) / 1000.0)))
      else
        var cleared := recorded.(blacklistedUntil := None);
        if R.InBackoff(t.core, now) then
          (cleared, R.Denied(t.core.backoffEnd.value, R.Ceil((t.core.backoffEnd.value - now) / 1000.0)))
        else
          var counted := R.Counted(c.base, t.core, now);
          if anomaly then
            (cleared.(core := counted.(violations := counted.violations + 1),
              blacklistedUntil := Some(now + c.blacklistMs)),
             R.Denied(now + c.blacklistMs, R.Ceil(c.blacklistMs / 1000.0)))
          else if counted.count > limit then
            var (core, answer) := R.Violation(c.base, counted, now);
            (cleared.(core := core), answer)
          else
            (cleared.(core := counted), R.Answer(true, limit - counted.count, counted.windowReset, None))
  }

  /** The reason given with the answer; none for an admitted request. */
  function ReasonWith(c: Config, known: Option<Traffic>, limit: int, now: real, anomaly: bool): Option<string> {
    match known
    case None => None
    case Some(t) =>
      var counted := R.Counted(c.base, t.core, now);
      if t.core.blocked then Some("permanently_blocked")
      else if t.blacklistedUntil.Some? && now < t.blacklistedUntil.value then Some("blacklisted")
      else if R.InBackoff(t.core, now) then Some("backoff")
      else if anomaly then Some("anomaly_detected")
      else if counted.count <= limit then None
      else if counted.violations + 1 >= c.base.maxViolations then Some("permanently_blocked")
      else Some("rate_limited")
  }

  /**
   A reason is given exactly to the refused, and it names the deadline that the reset time is:
   the end of the blacklisting or of the backoff in the new entry. A key is told that it is
   blocked exactly when it is, and of an anomaly or an excess exactly when that is a new violation.
   */
  lemma ReasonFitsEntry(
    c: Config, known: Option<Traffic>, limit: int, now: real, history: seq<real>, anomaly: bool)
    ensures var (t, a) := StepWith(c, known, limit, now, history, anomaly);
            var reason := ReasonWith(c, known, limit, now, anomaly);
            && (reason.None? <==> a.allowed)
            && (reason == Some("permanently_blocked") <==> t.core.blocked)
            && (reason in {Some("blacklisted"), Some("anomaly_detected")} ==> t.blacklistedUntil == Some(a.resetTime))
            && (reason in {Some("backoff"), Some("rate_limited")} ==>
                  t.core.backoffEnd == Some(a.resetTime) && t.blacklistedUntil.None?)
            && (known.Some? && reason in {Some("blacklisted"), Some("backoff")} ==> t.core == known.value.core)
            && (known.Some? && reason in {Some("anomaly_detected"), Some("rate_limited")} ==>
                  t.core.violations == known.value.core.violations + 1)
  {
  }

  /** The waiting time told with a refusal is exact here too. */
  lemma RetryAfterIsExact(
    c: Config, known: Option<Traffic>, limit: int, now: real, history: seq<real>, anomaly: bool)
    ensures var a := StepWith(c, known, limit, now, history, anomaly).1;
            a.allowed == a.retryAfter.None? && (!a.allowed ==> R.EnoughSeconds(a, now))
  {
    match known
    case None =>
    case Some(t) =>
      if t.core.blocked {
      } else if t.blacklistedUntil.Some? && now < t.blacklistedUntil.value {
        R.CeilIsExact((t.blacklistedUntil.value - now) / 1000.0);
      } else if R.InBackoff(t.core, now) {
        R.CeilIsExact((t.core.backoffEnd.value - now) / 1000.0);
      } else if anomaly {
        R.CeilIsExact(c.blacklistMs / 1000.0);
      } else {
        R.CeilIsExact(R.BackoffMs(c.base, R.Counted(c.base, t.core, now).violations + 1) / 1000.0);
      }
  }

  predicate IsFirstMatch(overrides: seq<Override>, path: string, i: nat)
    requires i < |overrides|
  {
    overrides[i].prefix <= path && forall j :: 0 <= j < i ==> !(overrides[j].prefix <= path)
  }

  /** The limit of a path is that of the first override whose prefix it has, and the base limit without one. */
  lemma {:induction false} FirstOverrideWins(c: Config, overrides: seq<Override>, path: string)
    ensures (forall i :: 0 <= i < |overrides| ==> !(overrides[i].prefix <= path)) ==>
      EffectiveMax(c, overrides, path) == c.base.max
    ensures forall i :: 0 <= i < |overrides| && IsFirstMatch(overrides, path, i) ==>
      EffectiveMax(c, overrides, path) == overrides[i].limit
  {
    if overrides != [] && !(overrides[0].prefix <= path) {
      var rest := overrides[1..];
      FirstOverrideWins(c, rest, path);
      forall i | 0 <= i < |overrides| && IsFirstMatch(overrides, path, i)
        ensures EffectiveMax(c, overrides, path) == overrides[i].limit
      {
        assert i > 0 && rest[i - 1] == overrides[i];
        assert IsFirstMatch(rest, path, i - 1);
      }
      assert forall i :: 0 < i < |overrides| ==> overrides[i] == rest[i - 1];
    }
  }

  function Step(c: Config, known: Option<Traffic>, limit: int, now: real): (Traffic, R.Answer) {
    var history := Recorded(c, known, now);
    StepWith(c, known, limit, now, history, IsAnomaly(c, history, now))
  }

  function TrafficOf(store: map<string, Traffic>, key: string): Option<Traffic> {
    if key in store then Some(store[key]) else None
  }

  class Limiter {
    const config: Config
    var store: map<string, Traffic>
    var anomaliesDetected: nat

    constructor (config: Config)
      ensures this.config == config && store == map[] && anomaliesDetected == 0
    {
      this.config := config;
      store := map[];
      anomaliesDetected := 0;
    }

    method Check(key: string, path: string, now: real) returns (answer: R.Answer, reason: Option<string>)
      requires config.base.windowMs > 0.0
      modifies this
      ensures var limit, known := EffectiveMax(config, config.pathOverrides, path), TrafficOf(old(store), key);
              var (entry, a) := Step(config, known, limit, now);
              && answer == a && store == old(store)[key := entry]
              && reason == ReasonWith(config, known, limit, now, IsAnomaly(config, Recorded(config, known, now), now))
      ensures anomaliesDetected == old(anomaliesDetected) + if reason == Some("anomaly_detected") then 1 else 0
    {
      var limit := EffectiveMax(config, config.pathOverrides, path);
      var known := TrafficOf(store, key);
      var history := Recorded(config, known, now);
      var anomaly := DetectAnomaly(history, now);
      answer, reason := Admit(key, limit, now, history, anomaly);
    }

    /** The detector compares rates per second; that is comparing counts. */
    method DetectAnomaly(history: seq<real>, now: real) returns (anomaly: bool)
      requires config.base.windowMs > 0.0
      ensures anomaly == IsAnomaly(config, history, now)
    {
      if |history| < 5 { return false; }
      var rate := CalculateRate(history, config.base.windowMs, now);
      var baseline := config.base.max as real / (config.base.windowMs / 1000.0);
      RateIsCount(|Since(history, now - config.base.windowMs)|, config.base.max, config.anomalyThreshold,
        config.base.windowMs);
      return rate > baseline * config.anomalyThreshold;
    }

    /** The core request check once the request is recorded and the detector consulted. */
    method Admit(key: string, limit: int, now: real, history: seq<real>, anomaly: bool)
      returns (answer: R.Answer, reason: Option<string>)
      modifies this
      ensures var known := TrafficOf(old(store), key);
              var (entry, a) := StepWith(config, known, limit, now, history, anomaly);
              && answer == a && store == old(store)[key := entry]
              && reason == ReasonWith(config, known, limit, now, anomaly)
      ensures anomaliesDetected == old(anomaliesDetected) + if reason == Some("anomaly_detected") then 1 else 0
    {
      var c := config.base;
      if key !in store {
        store := store[key := Traffic(R.FreshEntry(c, now), None, history)];
        return R.Answer(true, limit - 1, now + c.windowMs, None), None;
      }
      var t := store[key];
      t := t.(history := history);
      if t.core.blocked {
        store := store[key := t];
        return R.Denied(now + 3600000.0, 3600), Some("permanently_blocked");
      }
      if t.blacklistedUntil.Some? && now < t.blacklistedUntil.value {
        store := store[key := t];
        var until := t.blacklistedUntil.value;
        return R.Denied(until, R.Ceil((until - now) / 1000.0)), Some("blacklisted");
      }
      if t.blacklistedUntil.Some? { t := t.(blacklistedUntil := None); }
      var e := t.core;
      if e.backoffEnd.Some? && now < e.backoffEnd.value {
        store := store[key := t];
        return R.Denied(e.backoffEnd.value, R.Ceil((e.backoffEnd.value - now) / 1000.0)), Some("backoff");
      }
      if now >= e.windowReset {
        e := e.(count := 0, windowReset := now + c.windowMs, backoffEnd := None);
      }
      e := e.(count := e.count + 1);
      if anomaly {
        anomaliesDetected := anomaliesDetected + 1;
        e := e.(violations := e.violations + 1);
        store := store[key := t.(core := e, blacklistedUntil := Some(now + config.blacklistMs))];
        return R.Denied(now + config.blacklistMs, R.Ceil(config.blacklistMs / 1000.0)), Some("anomaly_detected");
      }
      if e.count > limit {
        e := e.(violations := e.violations + 1);
        if e.violations >= c.maxViolations {
          store := store[key := t.(core := e.(blocked := true))];
          return R.Denied(now + 3600000.0, 3600), Some("permanently_blocked");
        }
        var backoffMs := R.BackoffMs(c, e.violations);
        store := store[key := t.(core := e.(backoffEnd := Some(now + backoffMs)))];
        return R.Denied(now + backoffMs, R.Ceil(backoffMs / 1000.0)), Some("rate_limited");
      }
      store := store[key := t.(core := e)];
      return R.Answer(true, limit - e.count, e.windowReset, None), None;
    }
  }

  // ---- agreement with the base limiter ----

  /** The base limiter with the limit of a path. */
  function Based(c: Config, limit: int): R.Config { c.base.(max := limit) }

  /** A run of requests of one key for paths with one limit. */
  function Run(c: Config, limit: int, times: seq<real>): Option<Traffic> {
    if times == [] then None
    else Some(Step(c, Run(c, limit, times[..|times| - 1]), limit, times[|times| - 1]).0)
  }

  function AnswerAt(c: Config, limit: int, times: seq<real>, i: nat): R.Answer
    requires i < |times|
  {
    Step(c, Run(c, limit, times[..i]), limit, times[i]).1
  }

  lemma {:induction false} SinceJoin(a: seq<real>, b: seq<real>, bound: real)
    ensures Since(a + b, bound) == Since(a, bound) + Since(b, bound)
  {
    if b == [] {
      assert a + b == a;
    } else {
      var n := |b| - 1;
      SinceJoin(a, b[..n], bound);
      assert (a + b)[..|a + b| - 1] == a + b[..n];
    }
  }

  /** Dropping old times first changes nothing for a later bound. */
  lemma {:induction false} SinceTwice(history: seq<real>, early: real, late: real)
    requires early <= late
    ensures Since(Since(history, early), late) == Since(history, late)
  {
    if history != [] {
      var n := |history| - 1;
      SinceTwice(history[..n], early, late);
      var last := if history[n] >= early then [history[n]] else [];
      SinceJoin(Since(history[..n], early), last, late);
      if history[n] >= early { assert last[..0] == []; }
    }
  }

  /** Exactly the times from the bound on are kept, each as often as it occurs. */
  lemma {:induction false} SinceKeeps(history: seq<real>, bound: real, t: real)
    ensures multiset(Since(history, bound))[t] == if t >= bound then multiset(history)[t] else 0
  {
    if history != [] {
      var n := |history| - 1;
      SinceKeeps(history[..n], bound, t);
      OneMoreTime(history[..n], history[n], t);
      OneMoreTime(Since(history[..n], bound), history[n], t);
      assert history == history[..n] + [history[n]];
      assert Since(history, bound) == Since(history[..n], bound) + if history[n] >= bound then [history[n]] else [];
    }
  }

  lemma OneMoreTime(times: seq<real>, last: real, t: real)
    ensures multiset(times + [last])[t] == multiset(times)[t] + if last == t then 1 else 0
  {
  }

  /** The requests of the trace so far that lie within the last window, the current one included. */
  function RecentRequests(c: Config, times: seq<real>, i: nat): nat
    requires i < |times|
  {
    |Since(times[..i + 1], times[i] - c.base.windowMs)|
  }

  /** Read off the trace and the base limiter alone: request i is counted and looks anomalous. */
  predicate AnomalousAt(c: Config, limit: int, times: seq<real>, i: nat)
    requires i < |times|
  {
    && i > 0
    && |Since(times[..i + 1], times[i] - c.base.windowMs * 2.0)| >= 5
    && RecentRequests(c, times, i) as real > AnomalyLimit(c)
    && var e := R.Run(Based(c, limit), times[..i]).value;
       !e.blocked && !R.InBackoff(e, times[i])
  }

  /** Comparing rates per second is comparing counts. */
  lemma RateIsCount(n: nat, max: int, threshold: real, windowMs: real)
    requires windowMs > 0.0
    ensures n as real / (windowMs / 1000.0) > (max as real / (windowMs / 1000.0)) * threshold
            <==> n as real > max as real * threshold
  {
    var s := windowMs / 1000.0;
    assert (max as real / s) * threshold == (max as real * threshold) / s;
  }

  /** An entry that mirrors a base entry, was never blacklisted, and remembers the given times. */
  predicate Mirrors(t: Traffic, base: R.Entry, history: seq<real>) {
    t.core == base && t.blacklistedUntil.None? && t.history == history
  }

  /** Without an anomaly one request keeps the mirror and is answered alike. */
  lemma StepMirrors(c: Config, limit: int, t: Traffic, base: R.Entry, now: real, history: seq<real>)
    requires Mirrors(t, base, t.history)
    ensures var (t', a) := StepWith(c, Some(t), limit, now, history, false);
            var (base', a') := R.Step(Based(c, limit), Some(base), now);
            Mirrors(t', base', history) && a == a'
  {
  }

  /** The request times an unblacklisted key remembers after a run. */
  function Remembered(c: Config, times: seq<real>): seq<real>
    requires times != []
  {
    if |times| == 1 then times else Since(times, times[|times| - 1] - c.base.windowMs * 2.0)
  }

  lemma {:induction false} RecordedIsRemembered(c: Config, times: seq<real>, t: Traffic)
    requires R.Monotone(times) && |times| > 1
    requires t.history == Remembered(c, times[..|times| - 1])
    ensures Recorded(c, Some(t), times[|times| - 1]) == Remembered(c, times)
  {
    var n := |times| - 1;
    var front, now := times[..n], times[n];
    var bound := now - c.base.windowMs * 2.0;
    assert front + [now] == times;
    SinceJoin(t.history, [now], bound);
    SinceJoin(front, [now], bound);
    if n > 1 {
      assert times[n - 1] <= now;
      SinceTwice(front, front[n - 1] - c.base.windowMs * 2.0, bound);
    }
  }

  /** On such a history the detector fires exactly when the trace itself is anomalous. */
  lemma {:induction false} DetectorReadsTrace(c: Config, times: seq<real>)
    requires c.base.windowMs >= 0.0 && |times| > 1
    ensures IsAnomaly(c, Remembered(c, times), times[|times| - 1])
            <==> |Remembered(c, times)| >= 5
                 && RecentRequests(c, times, |times| - 1) as real > AnomalyLimit(c)
  {
    var n := |times| - 1;
    var w := c.base.windowMs;
    SinceTwice(times, times[n] - w * 2.0, times[n] - w);
    assert times[..n + 1] == times;
  }

  /** The last request is a step on the remembered times. */
  lemma {:induction false} LastStep(c: Config, limit: int, times: seq<real>)
    requires R.Monotone(times) && |times| > 1 && MirrorsRun(c, limit, times[..|times| - 1])
    ensures var n := |times| - 1;
            var known, anomaly := Run(c, limit, times[..n]), IsAnomaly(c, Remembered(c, times), times[n]);
            && Some(StepWith(c, known, limit, times[n], Remembered(c, times), anomaly).0) == Run(c, limit, times)
            && StepWith(c, known, limit, times[n], Remembered(c, times), anomaly).1 == AnswerAt(c, limit, times, n)
  {
    RecordedIsRemembered(c, times, Run(c, limit, times[..|times| - 1]).value);
  }

  /** The detector is consulted about it, and fires, exactly when the trace is anomalous there. */
  lemma {:induction false} AnomalyAtLast(c: Config, limit: int, times: seq<real>)
    requires c.base.windowMs >= 0.0 && |times| > 1
    ensures var n := |times| - 1;
            var base := R.Run(Based(c, limit), times[..n]).value;
            AnomalousAt(c, limit, times, n)
            <==> IsAnomaly(c, Remembered(c, times), times[n]) && !base.blocked && !R.InBackoff(base, times[n])
  {
    DetectorReadsTrace(c, times);
    assert times[..|times|] == times;
  }

  ghost predicate MirrorsRun(c: Config, limit: int, times: seq<real>)
    requires times != []
  {
    Mirrors(Run(c, limit, times).value, R.Run(Based(c, limit), times).value, Remembered(c, times))
  }

  lemma {:induction false} FirstRequestAgrees(c: Config, limit: int, times: seq<real>)
    requires |times| == 1
    ensures MirrorsRun(c, limit, times)
    ensures AnswerAt(c, limit, times, 0) == R.AnswerAt(Based(c, limit), times, 0)
  {
    assert times[..0] == [];
    assert times == [times[0]];
  }

  lemma {:induction false} NextRequestAgrees(c: Config, limit: int, times: seq<real>)
    requires c.base.windowMs >= 0.0 && R.Monotone(times) && |times| > 1
    requires MirrorsRun(c, limit, times[..|times| - 1]) && !AnomalousAt(c, limit, times, |times| - 1)
    ensures MirrorsRun(c, limit, times)
    ensures AnswerAt(c, limit, times, |times| - 1) == R.AnswerAt(Based(c, limit), times, |times| - 1)
  {
    var n := |times| - 1;
    var t, base := Run(c, limit, times[..n]).value, R.Run(Based(c, limit), times[..n]).value;
    AnomalyAtLast(c, limit, times);
    LastStep(c, limit, times);
    StepMirrors(c, limit, t, base, times[n], Remembered(c, times));
  }

  lemma {:induction false} AnomalyInPrefix(c: Config, limit: int, times: seq<real>, m: nat, i: nat)
    requires i < m <= |times|
    ensures AnomalousAt(c, limit, times[..m], i) <==> AnomalousAt(c, limit, times, i)
  {
    assert times[..m][..i] == times[..i] && times[..m][..i + 1] == times[..i + 1];
  }

  lemma {:induction false} AnswerInPrefix(c: Config, limit: int, times: seq<real>, m: nat, i: nat)
    requires i < m <= |times|
    ensures AnswerAt(c, limit, times[..m], i) == AnswerAt(c, limit, times, i)
    ensures R.AnswerAt(Based(c, limit), times[..m], i) == R.AnswerAt(Based(c, limit), times, i)
  {
    assert times[..m][..i] == times[..i];
  }

  lemma {:induction false} PrefixStep(c: Config, limit: int, times: seq<real>, m: nat)
    requires c.base.windowMs >= 0.0 && R.Monotone(times) && 1 < m <= |times|
    requires MirrorsRun(c, limit, times[..m - 1]) && !AnomalousAt(c, limit, times, m - 1)
    ensures MirrorsRun(c, limit, times[..m])
    ensures AnswerAt(c, limit, times, m - 1) == R.AnswerAt(Based(c, limit), times, m - 1)
  {
    assert times[..m][..m - 1] == times[..m - 1];
    AnomalyInPrefix(c, limit, times, m, m - 1);
    NextRequestAgrees(c, limit, times[..m]);
    AnswerInPrefix(c, limit, times, m, m - 1);
  }

  /** The mirror after m requests without an anomaly, and the answer to the last of them. */
  lemma {:induction false} PrefixAgrees(c: Config, limit: int, times: seq<real>, m: nat)
    requires c.base.windowMs >= 0.0 && R.Monotone(times) && 0 < m <= |times|
    requires forall i :: 0 <= i < m ==> !AnomalousAt(c, limit, times, i)
    ensures MirrorsRun(c, limit, times[..m])
    ensures AnswerAt(c, limit, times, m - 1) == R.AnswerAt(Based(c, limit), times, m - 1)
  {
    if m == 1 {
      FirstRequestAgrees(c, limit, times[..1]);
      AnswerInPrefix(c, limit, times, 1, 0);
    } else {
      PrefixAgrees(c, limit, times, m - 1);
      PrefixStep(c, limit, times, m);
    }
  }

  /**
   As long as no request is anomalous, every answer of the adaptive limiter on paths with one limit
   - allowed, remaining, reset time, retry delay - is that of the base limiter with that limit.
   */
  lemma {:induction false} AgreesWithBase(c: Config, limit: int, times: seq<real>)
    requires c.base.windowMs >= 0.0 && R.Monotone(times)
    requires forall i :: 0 <= i < |times| ==> !AnomalousAt(c, limit, times, i)
    ensures times != [] ==> MirrorsRun(c, limit, times)
    ensures forall i :: 0 <= i < |times| ==> AnswerAt(c, limit, times, i) == R.AnswerAt(Based(c, limit), times, i)
  {
    forall i | 0 <= i < |times| ensures AnswerAt(c, limit, times, i) == R.AnswerAt(Based(c, limit), times, i) {
      PrefixAgrees(c, limit, times, i + 1);
    }
    if times != [] {
      PrefixAgrees(c, limit, times, |times|);
      assert times[..|times|] == times;
    }
  }

  /** At most max * threshold requests in any closed span of one window that ends with a request. */
  predicate Quiet(c: Config, times: seq<real>) {
    forall i :: 0 <= i < |times| ==> RecentRequests(c, times, i) as real <= AnomalyLimit(c)
  }

  /** Quiet traffic is answered exactly as by the base limiter. */
  lemma QuietTrafficAgrees(c: Config, limit: int, times: seq<real>)
    requires c.base.windowMs >= 0.0 && R.Monotone(times) && Quiet(c, times)
    ensures forall i :: 0 <= i < |times| ==> AnswerAt(c, limit, times, i) == R.AnswerAt(Based(c, limit), times, i)
  {
    forall i | 0 <= i < |times| ensures !AnomalousAt(c, limit, times, i) {
      assert RecentRequests(c, times, i) as real <= AnomalyLimit(c);
    }
    AgreesWithBase(c, limit, times);
  }

  /** A refusal that blacklists the key: the answer, and the entry after it given the base entry before. */
  predicate Blacklists(c: Config, t: Traffic, a: R.Answer, base: R.Entry, now: real) {
    && !a.allowed && a.resetTime == now + c.blacklistMs
    && t.blacklistedUntil == Some(now + c.blacklistMs)
    && t.core == R.Counted(c.base, base, now).(violations := base.violations + 1)
  }

  /** A blacklisted key is refused and keeps its entry until the time it was told; then the blacklist is void. */
  lemma BlacklistLasts(
    c: Config, t: Traffic, limit: int, now: real, history: seq<real>, anomaly: bool)
    requires t.blacklistedUntil.Some? && !t.core.blocked
    ensures var (t', a) := StepWith(c, Some(t), limit, now, history, anomaly);
            && (now < t.blacklistedUntil.value ==>
                  !a.allowed && a.resetTime == t.blacklistedUntil.value && t' == t.(history := history))
            && (now >= t.blacklistedUntil.value ==>
                  (t', a) == StepWith(c, Some(t.(blacklistedUntil := None)), limit, now, history, anomaly))
  {
  }

  lemma StepBlacklists(c: Config, limit: int, t: Traffic, base: R.Entry, now: real, history: seq<real>)
    requires Mirrors(t, base, t.history) && !base.blocked && !R.InBackoff(base, now)
    ensures var (t', a) := StepWith(c, Some(t), limit, now, history, true);
            Blacklists(c, t', a, base, now)
  {
  }

  lemma {:induction false} AnomalyBlacklists(c: Config, limit: int, times: seq<real>)
    requires R.Monotone(times) && |times| > 1 && MirrorsRun(c, limit, times[..|times| - 1])
    requires IsAnomaly(c, Remembered(c, times), times[|times| - 1])
    requires var base := R.Run(Based(c, limit), times[..|times| - 1]).value;
             !base.blocked && !R.InBackoff(base, times[|times| - 1])
    ensures var n := |times| - 1;
            var base := R.Run(Based(c, limit), times[..n]).value;
            Blacklists(c, Run(c, limit, times).value, AnswerAt(c, limit, times, n), base, times[n])
  {
    var n := |times| - 1;
    var t, base := Run(c, limit, times[..n]).value, R.Run(Based(c, limit), times[..n]).value;
    LastStep(c, limit, times);
    StepBlacklists(c, limit, t, base, times[n], Remembered(c, times));
  }

  /**
   The first anomalous request is refused and blacklists the key, whatever the base limiter
   answers; so the two limiters part ways there if the base limiter admits it.
   */
  lemma {:induction false} FirstAnomalyIsRefused(c: Config, limit: int, times: seq<real>)
    requires c.base.windowMs >= 0.0 && R.Monotone(times) && times != []
    requires forall i :: 0 <= i < |times| - 1 ==> !AnomalousAt(c, limit, times, i)
    requires AnomalousAt(c, limit, times, |times| - 1)
    ensures var n := |times| - 1;
            var base := R.Run(Based(c, limit), times[..n]).value;
            Blacklists(c, Run(c, limit, times).value, AnswerAt(c, limit, times, n), base, times[n])
  {
    PrefixAgrees(c, limit, times, |times| - 1);
    AnomalyAtLast(c, limit, times);
    AnomalyBlacklists(c, limit, times);
  }
}
