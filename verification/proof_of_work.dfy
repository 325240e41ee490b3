/** Proof-of-work challenges: counting leading zero bits, and the life of a challenge. */
module ProofOfWork {
  // ---- leading zero bits ----

  function Pow2(k: nat): (p: nat)
    ensures p > 0
  {
    if k == 0 then 1 else 2 * Pow2(k - 1)
  }

  type Byte = b: int | 0 <= b < 256

  function Bit(b: Byte, j: nat): nat { b / Pow2(j) % 2 }

  /** Bit k of a digest, counted from the most significant bit of its first byte. */
  function BitAt(hash: seq<Byte>, k: nat): nat
    requires k < 8 * |hash|
  {
    Bit(hash[k / 8], 7 - k % 8)
  }

  /** The number written by the first k bits. */
  function Leading(hash: seq<Byte>, k: nat): nat
    requires k <= 8 * |hash|
  {
    if k == 0 then 0 else 2 * Leading(hash, k - 1) + BitAt(hash, k - 1)
  }

  /** A digest as one big-endian number. */
  function Number(hash: seq<Byte>): nat {
    if hash == [] then 0 else 256 * Number(hash[..|hash| - 1]) + hash[|hash| - 1]
  }

  /** The digest, read as a number, is below 2 to the power of the bits that may be set. */
  predicate MeetsTarget(hash: seq<Byte>, target: int) {
    target <= 0 || (target <= 8 * |hash| && Number(hash) < Pow2(8 * |hash| - target))
  }

  method HasLeadingZeros(hash: seq<Byte>, targetZeros: int) returns (yes: bool)
    ensures yes <==> MeetsTarget(hash, targetZeros)
  {
    var zeros := 0;
    var i := 0;
    while i < |hash|
      invariant 0 <= i <= |hash|
      invariant zeros == 8 * i && Leading(hash, zeros) == 0
    {
      var j := 7;
      while j >= 0
        invariant -1 <= j <= 7
        invariant zeros == 8 * i + 7 - j && Leading(hash, zeros) == 0
      {
        NextBit(hash, i, j);
        if Bit(hash[i], j) == 0 {
          zeros := zeros + 1;
        } else {
          FirstOne(hash, zeros, targetZeros);
          return zeros >= targetZeros;
        }
        j := j - 1;
      }
      i := i + 1;
    }
    NoOne(hash, targetZeros);
    return zeros >= targetZeros;
  }

  lemma NextBit(hash: seq<Byte>, i: nat, j: nat)
    requires i < |hash| && j < 8
    ensures BitAt(hash, 8 * i + 7 - j) == Bit(hash[i], j)
    ensures Leading(hash, 8 * i + 8 - j) == 2 * Leading(hash, 8 * i + 7 - j) + Bit(hash[i], j)
  {
    var k := 8 * i + 7 - j;
    assert k / 8 == i && k % 8 == 7 - j;
  }

  lemma NoOne(hash: seq<Byte>, target: int)
    requires Leading(hash, 8 * |hash|) == 0
    ensures 8 * |hash| >= target <==> MeetsTarget(hash, target)
  {
    if 0 <= target <= 8 * |hash| {
      LeadingZeroPrefix(hash, target, 8 * |hash|);
      SmallExactly(hash, target);
    }
  }

  /** The first one bit settles every target. */
  lemma FirstOne(hash: seq<Byte>, zeros: nat, target: int)
    requires zeros < 8 * |hash| && Leading(hash, zeros) == 0 && BitAt(hash, zeros) != 0
    ensures zeros >= target <==> MeetsTarget(hash, target)
  {
    if 0 <= target <= 8 * |hash| {
      SmallExactly(hash, target);
      if target <= zeros {
        LeadingZeroPrefix(hash, target, zeros);
      } else {
        LeadingZeroPrefix(hash, zeros + 1, target);
      }
    }
  }

  lemma {:induction false} LeadingZeroPrefix(hash: seq<Byte>, k: nat, n: nat)
    requires k <= n <= 8 * |hash|
    ensures Leading(hash, n) == 0 ==> Leading(hash, k) == 0
  {
    if k < n { LeadingZeroPrefix(hash, k, n - 1); }
  }

  /** The first t bits are zero exactly when the number is below 2 to the power of the rest. */
  lemma {:induction false} SmallExactly(hash: seq<Byte>, t: nat)
    requires t <= 8 * |hash|
    ensures Leading(hash, t) == 0 <==> Number(hash) < Pow2(8 * |hash| - t)
  {
    AllBitsAreNumber(hash);
    LaterBits(hash, t, 8 * |hash|);
  }

  lemma {:induction false} LaterBits(hash: seq<Byte>, t: nat, n: nat)
    requires t <= n <= 8 * |hash|
    ensures Leading(hash, t) == 0 <==> Leading(hash, n) < Pow2(n - t)
  {
    if t < n {
      LaterBits(hash, t, n - 1);
      assert Pow2(n - t) == 2 * Pow2(n - 1 - t);
    }
  }

  lemma {:induction false} AllBitsAreNumber(hash: seq<Byte>)
    ensures Leading(hash, 8 * |hash|) == Number(hash)
  {
    if hash != [] {
      var n := |hash| - 1;
      AllBitsAreNumber(hash[..n]);
      SameBits(hash[..n], hash, 8 * n);
      EightBits(hash, n);
    }
  }

  lemma {:induction false} SameBits(short: seq<Byte>, long: seq<Byte>, k: nat)
    requires short <= long && k <= 8 * |short|
    ensures Leading(short, k) == Leading(long, k)
  {
    if k > 0 { SameBits(short, long, k - 1); }
  }

  /** v shifted left by q bits. */
  function Shift(v: nat, q: nat): nat { if q == 0 then v else 2 * Shift(v, q - 1) }

  /** The first q bits of byte n are its quotient by the power of the rest. */
  lemma {:induction false} TopBits(hash: seq<Byte>, n: nat, q: nat)
    requires n < |hash| && q <= 8
    ensures Leading(hash, 8 * n + q) == Shift(Leading(hash, 8 * n), q) + hash[n] / Pow2(8 - q)
  {
    if q == 0 {
      Powers();
    } else {
      TopBits(hash, n, q - 1);
      NextBit(hash, n, 8 - q);
      HalveAgain(hash[n], 8 - q);
      assert Shift(Leading(hash, 8 * n), q) == 2 * Shift(Leading(hash, 8 * n), q - 1);
    }
  }

  lemma {:induction false} EightBits(hash: seq<Byte>, n: nat)
    requires n < |hash|
    ensures Leading(hash, 8 * n + 8) == 256 * Leading(hash, 8 * n) + hash[n]
  {
    TopBits(hash, n, 8);
    ShiftEight(Leading(hash, 8 * n));
  }

  lemma ShiftEight(v: nat)
    ensures Shift(v, 8) == 256 * v
  {
    assert Shift(v, 1) == 2 * v;
    assert Shift(v, 2) == 4 * v;
    assert Shift(v, 4) == 16 * v by { assert Shift(v, 3) == 8 * v; }
    assert Shift(v, 6) == 64 * v by { assert Shift(v, 5) == 32 * v; }
    assert Shift(v, 7) == 128 * v;
  }

  lemma Powers()
    ensures Pow2(8) == 256
  {
    assert Pow2(2) == 4;
    assert Pow2(4) == 16 by { assert Pow2(3) == 8; }
    assert Pow2(6) == 64 by { assert Pow2(5) == 32; }
    assert Pow2(7) == 128;
  }

  lemma HalveAgain(b: nat, j: nat)
    ensures b / Pow2(j) == 2 * (b / Pow2(j + 1)) + b / Pow2(j) % 2
  {
    var p := Pow2(j);
    DivideTwice(b, p);
    assert Pow2(j + 1) == 2 * p;
  }

  lemma DivideTwice(b: nat, p: nat)
    requires p > 0
    ensures b / (2 * p) == b / p / 2
  {
    var q, r := b / p, b % p;
    var h, u := q / 2, q % 2;
    QuotientAndRest(b, p);
    SplitProduct(p, h, u);
    RestFits(p, u, r);
    DivisionIs(b, 2 * p, h, p * u + r);
  }

  lemma QuotientAndRest(b: nat, p: nat)
    requires p > 0
    ensures b == p * (b / p) + b % p && b % p < p
  {
  }

  lemma SplitProduct(p: nat, h: nat, u: nat)
    ensures p * (2 * h + u) == (2 * p) * h + p * u
  {
  }

  lemma RestFits(p: nat, u: nat, r: nat)
    requires u < 2 && r < p
    ensures p * u + r < 2 * p
  {
    if u == 0 { assert p * u == 0; } else { assert p * u == p; }
  }

  lemma DivisionIs(b: nat, d: nat, q: nat, r: nat)
    requires d > 0 && b == d * q + r && r < d
    ensures b / d == q
  {
    assert b == d * (b / d) + b % d;
    var e := b / d - q;
    assert d * e == d * (b / d) - d * q == r - b % d;
    MultipleBounds(d, e);
  }

  lemma MultipleBounds(d: nat, e: int)
    ensures e >= 1 ==> d * e >= d
    ensures e <= -1 ==> d * e <= -(d as int)
  {
  }

  /** A higher target is harder. */
  lemma {:induction false} HarderTarget(hash: seq<Byte>, low: int, high: int)
    requires low <= high && MeetsTarget(hash, high)
    ensures MeetsTarget(hash, low)
  {
    if 0 < low { PowersGrow(8 * |hash| - high, 8 * |hash| - low); }
  }

  lemma {:induction false} PowersGrow(m: nat, n: nat)
    requires m <= n
    ensures Pow2(m) <= Pow2(n)
  {
    if m < n { PowersGrow(m, n - 1); }
  }

  // ---- challenges ----

  const LIFETIME := 300000

  datatype Config = Config(maxDifficulty: int, minDifficulty: int, adjustmentInterval: int, digest: string -> seq<Byte>)

  datatype Challenge = Challenge(timestamp: int, target: int)

  datatype State = State(difficulty: int, cache: map<string, Challenge>, lastAdjustment: int)

  datatype Event =
    | Generate(nonce: string, now: int)
    | Verify(nonce: string, solution: string, now: int)
    | Adjust(rate: real, goal: real, now: int)
    | Cleanup(now: int)

  predicate Accepts(cfg: Config, s: State, e: Event) {
    && e.Verify? && e.nonce in s.cache
    && e.now - s.cache[e.nonce].timestamp <= LIFETIME
    && MeetsTarget(cfg.digest(e.nonce + e.solution), s.cache[e.nonce].target)
  }

  function Adjusted(cfg: Config, difficulty: int, rate: real, goal: real): int {
    if rate > goal * 1.5 then (if difficulty + 1 < cfg.maxDifficulty then difficulty + 1 else cfg.maxDifficulty)
    else if rate < goal * 0.5 then (if difficulty - 1 > cfg.minDifficulty then difficulty - 1 else cfg.minDifficulty)
    else difficulty
  }

  function Unexpired(cache: map<string, Challenge>, now: int): map<string, Challenge> {
    map n | n in cache && now - cache[n].timestamp <= LIFETIME :: cache[n]
  }

  function Step(cfg: Config, s: State, e: Event): State {
    match e
    case Generate(nonce, now) => s.(cache := s.cache[nonce := Challenge(now, s.difficulty)])
    case Verify(nonce, solution, now) =>
      if Accepts(cfg, s, e) || (nonce in s.cache && now - s.cache[nonce].timestamp > LIFETIME)
      then s.(cache := s.cache - {nonce})
      else s
    case Adjust(rate, goal, now) =>
      if now - s.lastAdjustment < cfg.adjustmentInterval then s
      else s.(lastAdjustment := now, difficulty := Adjusted(cfg, s.difficulty, rate, goal))
    case Cleanup(now) => s.(cache := Unexpired(s.cache, now))
  }

  function StateAt(cfg: Config, s: State, es: seq<Event>, i: nat): State
    requires i <= |es|
  {
    if i == 0 then s else Step(cfg, StateAt(cfg, s, es, i - 1), es[i - 1])
  }

  ghost predicate AcceptedAt(cfg: Config, s: State, es: seq<Event>, i: nat, nonce: string)
    requires i < |es|
  {
    Accepts(cfg, StateAt(cfg, s, es, i), es[i]) && es[i].nonce == nonce
  }

  /** Challenge ch was issued for nonce by event j, and since then neither reissued nor spent. */
  ghost predicate Pending(cfg: Config, s: State, es: seq<Event>, i: nat, j: nat, nonce: string, ch: Challenge)
    requires i <= |es|
  {
    && j < i
    && es[j] == Generate(nonce, ch.timestamp)
    && ch.target == StateAt(cfg, s, es, j).difficulty
    && (forall k :: j < k < i ==> !(es[k].Generate? && es[k].nonce == nonce) && !AcceptedAt(cfg, s, es, k, nonce))
  }

  /** Every stored challenge is pending. */
  lemma {:induction false} StoredIsPending(
    cfg: Config, s: State, es: seq<Event>, i: nat, nonce: string)
    returns (j: nat)
    requires s.cache == map[] && i <= |es| && nonce in StateAt(cfg, s, es, i).cache
    ensures Pending(cfg, s, es, i, j, nonce, StateAt(cfg, s, es, i).cache[nonce])
  {
    var e, before := es[i - 1], StateAt(cfg, s, es, i - 1);
    if e.Generate? && e.nonce == nonce {
      j := i - 1;
    } else {
      assert nonce in before.cache && before.cache[nonce] == StateAt(cfg, s, es, i).cache[nonce];
      j := StoredIsPending(cfg, s, es, i - 1, nonce);
    }
  }

  /**
   Every accepted solution answers a challenge issued earlier in the run, inside its lifetime and
   with the number of zero bits that was the difficulty when it was issued.
   */
  lemma {:induction false} AcceptedIsEarned(cfg: Config, s: State, es: seq<Event>, i: nat) returns (j: nat)
    requires s.cache == map[] && i < |es| && Accepts(cfg, StateAt(cfg, s, es, i), es[i])
    ensures j < i && es[j].Generate? && es[j].nonce == es[i].nonce
    ensures es[i].now - es[j].now <= LIFETIME
    ensures MeetsTarget(cfg.digest(es[i].nonce + es[i].solution), StateAt(cfg, s, es, j).difficulty)
  {
    j := StoredIsPending(cfg, s, es, i, es[i].nonce);
  }

  /** The latest issue of a nonce, not yet spent, and with no event since that came too late for it. */
  ghost predicate Fresh(cfg: Config, s: State, es: seq<Event>, i: nat, j: nat, nonce: string)
    requires i <= |es|
  {
    && j < i && es[j].Generate? && es[j].nonce == nonce
    && forall k :: j < k < i ==>
         && !(es[k].Generate? && es[k].nonce == nonce) && !AcceptedAt(cfg, s, es, k, nonce)
         && es[k].now - es[j].now <= LIFETIME
  }

  lemma {:induction false} FreshIsStored(cfg: Config, s: State, es: seq<Event>, i: nat, j: nat, nonce: string)
    requires i <= |es| && Fresh(cfg, s, es, i, j, nonce)
    ensures nonce in StateAt(cfg, s, es, i).cache
    ensures StateAt(cfg, s, es, i).cache[nonce] == Challenge(es[j].now, StateAt(cfg, s, es, j).difficulty)
  {
    if j < i - 1 {
      FreshIsStored(cfg, s, es, i - 1, j, nonce);
      assert !AcceptedAt(cfg, s, es, i - 1, nonce);
      assert es[i - 1].now - es[j].now <= LIFETIME;
    }
  }

  /**
   A solution in time for a fresh challenge is accepted if and only if the digest has the zero bits
   that were asked for when it was issued.
   */
  lemma {:induction false} EarnedIsAccepted(cfg: Config, s: State, es: seq<Event>, i: nat, j: nat)
    requires i < |es| && es[i].Verify? && Fresh(cfg, s, es, i, j, es[i].nonce)
    requires es[i].now - es[j].now <= LIFETIME
    ensures Accepts(cfg, StateAt(cfg, s, es, i), es[i])
            <==> MeetsTarget(cfg.digest(es[i].nonce + es[i].solution), StateAt(cfg, s, es, j).difficulty)
  {
    FreshIsStored(cfg, s, es, i, j, es[i].nonce);
  }

  /** Two changes of the difficulty are at least one adjustment interval apart. */
  lemma {:induction false} ChangesAreSpaced(cfg: Config, s: State, es: seq<Event>, i: nat, j: nat)
    requires i < j < |es|
    requires ChangesAt(cfg, s, es, i) && ChangesAt(cfg, s, es, j)
    requires forall k :: i < k < j && es[k].Adjust? ==> es[i].now <= es[k].now
    ensures es[j].now - es[i].now >= cfg.adjustmentInterval
  {
    AdjustedSince(cfg, s, es, i, j);
  }

  predicate ChangesAt(cfg: Config, s: State, es: seq<Event>, i: nat)
    requires i < |es|
  {
    StateAt(cfg, s, es, i + 1).difficulty != StateAt(cfg, s, es, i).difficulty
  }

  lemma {:induction false} AdjustedSince(cfg: Config, s: State, es: seq<Event>, i: nat, j: nat)
    requires i < j < |es| && ChangesAt(cfg, s, es, i)
    requires forall k :: i < k < j && es[k].Adjust? ==> es[i].now <= es[k].now
    ensures es[i].Adjust? && StateAt(cfg, s, es, j).lastAdjustment >= es[i].now
  {
    if i < j - 1 { AdjustedSince(cfg, s, es, i, j - 1); }
  }

  /** A challenge is spent by its first accepted solution: a second one needs the nonce to be issued again. */
  lemma {:induction false} NoReplay(cfg: Config, s: State, es: seq<Event>, i: nat, i': nat) returns (j: nat)
    requires s.cache == map[] && i < i' < |es|
    requires Accepts(cfg, StateAt(cfg, s, es, i), es[i]) && AcceptedAt(cfg, s, es, i', es[i].nonce)
    ensures i < j < i' && es[j].Generate? && es[j].nonce == es[i].nonce
  {
    j := StoredIsPending(cfg, s, es, i', es[i].nonce);
    assert AcceptedAt(cfg, s, es, i, es[i].nonce);
  }

  function Issues(es: seq<Event>, nonce: string, i: nat): nat
    requires i <= |es|
  {
    if i == 0 then 0 else Issues(es, nonce, i - 1) + if es[i - 1].Generate? && es[i - 1].nonce == nonce then 1 else 0
  }

  ghost function Acceptances(cfg: Config, s: State, es: seq<Event>, nonce: string, i: nat): nat
    requires i <= |es|
  {
    if i == 0 then 0
    else Acceptances(cfg, s, es, nonce, i - 1) + if AcceptedAt(cfg, s, es, i - 1, nonce) then 1 else 0
  }

  /** Acceptances and stored copies of a nonce never outnumber its issues. */
  lemma {:induction false} AcceptancesAreIssued(cfg: Config, s: State, es: seq<Event>, nonce: string, i: nat)
    requires s.cache == map[] && i <= |es|
    ensures Acceptances(cfg, s, es, nonce, i) + (if nonce in StateAt(cfg, s, es, i).cache then 1 else 0)
            <= Issues(es, nonce, i)
  {
    if i > 0 { AcceptancesAreIssued(cfg, s, es, nonce, i - 1); }
  }

  /**
   Heavy load raises the difficulty by one unless it is at its maximum, light load lowers it by one
   unless it is at its minimum; more load never makes it lower.
   */
  lemma LoadMovesDifficulty(cfg: Config, d: int, rate: real, higher: real, goal: real)
    requires cfg.minDifficulty <= d <= cfg.maxDifficulty && rate <= higher && goal >= 0.0
    ensures var next := Adjusted(cfg, d, rate, goal);
            && (rate > goal * 1.5 ==> next >= d && (next == d <==> d == cfg.maxDifficulty))
            && (rate < goal * 0.5 ==> next <= d && (next == d <==> d == cfg.minDifficulty))
            && (goal * 0.5 <= rate <= goal * 1.5 ==> next == d)
            && d - 1 <= next <= d + 1 && next <= Adjusted(cfg, d, higher, goal)
  {
  }

  /** Difficulty never leaves the configured range, widened only by where it started. */
  lemma {:induction false} DifficultyBounded(cfg: Config, s: State, es: seq<Event>, i: nat)
    requires i <= |es| && cfg.minDifficulty <= cfg.maxDifficulty
    ensures var d := StateAt(cfg, s, es, i).difficulty;
            && (d >= cfg.minDifficulty || d >= s.difficulty)
            && (d <= cfg.maxDifficulty || d <= s.difficulty)
  {
    if i > 0 { DifficultyBounded(cfg, s, es, i - 1); }
  }

  // ---- the manager ----

  class Manager {
    const cfg: Config
    var difficulty: int
    var challengeCache: map<string, Challenge>
    var lastAdjustmentTime: int

    ghost function Now(): State
      reads this
    {
      State(difficulty, challengeCache, lastAdjustmentTime)
    }

    constructor (initialDifficulty: int, cfg: Config, now: int)
      ensures this.cfg == cfg && Now() == State(initialDifficulty, map[], now)
    {
      this.cfg, difficulty, challengeCache, lastAdjustmentTime := cfg, initialDifficulty, map[], now;
    }

    method GenerateChallenge(nonce: string, now: int) returns (target: int, expiresAt: int)
      modifies this
      ensures Now() == Step(cfg, old(Now()), Generate(nonce, now))
      ensures target == Now().cache[nonce].target && expiresAt == now + LIFETIME
    {
      challengeCache := challengeCache[nonce := Challenge(now, difficulty)];
      target, expiresAt := difficulty, now + LIFETIME;
    }

    method VerifySolution(nonce: string, solution: string, now: int) returns (accepted: bool)
      modifies this
      ensures Now() == Step(cfg, old(Now()), Verify(nonce, solution, now))
      ensures accepted <==> Accepts(cfg, old(Now()), Verify(nonce, solution, now))
    {
      if nonce !in challengeCache { return false; }
      var challenge := challengeCache[nonce];
      if now - challenge.timestamp > LIFETIME {
        challengeCache := challengeCache - {nonce};
        return false;
      }
      var enough := HasLeadingZeros(cfg.digest(nonce + solution), challenge.target);
      if !enough { return false; }
      challengeCache := challengeCache - {nonce};
      return true;
    }

    method AdjustDifficulty(rate: real, goal: real, now: int)
      modifies this
      ensures Now() == Step(cfg, old(Now()), Adjust(rate, goal, now))
    {
      if now - lastAdjustmentTime < cfg.adjustmentInterval { return; }
      lastAdjustmentTime := now;
      if rate > goal * 1.5 {
        difficulty := if difficulty + 1 < cfg.maxDifficulty then difficulty + 1 else cfg.maxDifficulty;
      } else if rate < goal * 0.5 {
        difficulty := if difficulty - 1 > cfg.minDifficulty then difficulty - 1 else cfg.minDifficulty;
      }
    }

    method CollectExpired(now: int) returns (expired: seq<string>)
      ensures forall n :: n in expired <==> n in challengeCache && now - challengeCache[n].timestamp > LIFETIME
    {
      expired := [];
      var todo := challengeCache.Keys;
      while todo != {}
        invariant todo <= challengeCache.Keys
        invariant forall n ::
          n in expired <==> n in challengeCache && n !in todo && now - challengeCache[n].timestamp > LIFETIME
        decreases |todo|
      {
        var nonce :| nonce in todo;
        if now - challengeCache[nonce].timestamp > LIFETIME { expired := expired + [nonce]; }
        todo := todo - {nonce};
      }
    }

    /** Collects the expired nonces first, then deletes them. */
    method CleanupChallenges(now: int)
      modifies this
      ensures Now() == Step(cfg, old(Now()), Cleanup(now))
    {
      var expired := CollectExpired(now);
      for i := 0 to |expired|
        invariant difficulty == old(difficulty) && lastAdjustmentTime == old(lastAdjustmentTime)
        invariant forall n :: n in challengeCache <==> n in old(challengeCache) && n !in expired[..i]
        invariant forall n :: n in challengeCache ==> challengeCache[n] == old(challengeCache)[n]
      {
        challengeCache := challengeCache - {expired[i]};
      }
      assert expired[..|expired|] == expired;
      assert challengeCache == Unexpired(old(challengeCache), now);
    }
  }
}
