/** Request deduplication: one handler per fingerprint in flight, waiters, and a short response cache. */
module Coalescing {
  import opened JsText

  type Id = nat

  datatype Captured = Captured(status: int, headers: map<string, string>, body: string)

  /** A cache entry; the cache lists them in insertion order, as a JavaScript Map does. */
  datatype Slot = Slot(key: string, response: Captured, createdAt: int)

  /** A handler at work, with the responses waiting for its result. */
  datatype Flight = Flight(key: string, waiters: seq<Id>)

  datatype Reply = Reply(id: Id, response: Captured)

  datatype Config = Config(ttlMs: int, maxEntries: nat)

  /**
   `last` is the latest finished response per key, `evicted` the keys pushed out by the size
   cap since, `seen` every request so far, `led` those that started a handler: bookkeeping
   for the statements below.
   */
  datatype State = State(
    cache: seq<Slot>, pending: map<string, Id>, flights: map<Id, Flight>, replies: seq<Reply>,
    last: map<string, Slot>, evicted: set<string>, seen: set<Id>, led: set<Id>, clock: int)

  datatype Event =
    | Arrive(id: Id, key: string, now: int)
    | Finalize(leader: Id, response: Captured, now: int)
    | Reset

  const INIT := State([], map[], map[], [], map[], {}, {}, {}, 0)

  // ---- the cache as an ordered map ----

  function Unexpired(cfg: Config, cache: seq<Slot>, now: int): seq<Slot> {
    if cache == [] then []
    else
      var n := |cache| - 1;
      Unexpired(cfg, cache[..n], now) + if now - cache[n].createdAt > cfg.ttlMs then [] else [cache[n]]
  }

  function Find(cache: seq<Slot>, key: string): Option<Slot> {
    if cache == [] then None
    else if cache[0].key == key then Some(cache[0])
    else Find(cache[1..], key)
  }

  /** `Map.set`: an existing key keeps its place. */
  function Put(cache: seq<Slot>, slot: Slot): seq<Slot> {
    if cache == [] then [slot]
    else if cache[0].key == slot.key then [slot] + cache[1..]
    else [cache[0]] + Put(cache[1..], slot)
  }

  /** Drop the first key when the cache is over its size. */
  function Trim(cfg: Config, cache: seq<Slot>): seq<Slot> {
    if |cache| > cfg.maxEntries then cache[1..] else cache
  }

  // ---- steps ----

  datatype Action = Hit(slot: Slot) | Wait(leader: Id) | Lead

  /** What the middleware decides for a request, once expired entries are gone. */
  function Decide(cfg: Config, s: State, key: string, now: int): Action {
    var found := Find(Unexpired(cfg, s.cache, now), key);
    if found.Some? && now - found.value.createdAt < cfg.ttlMs then Hit(found.value)
    else if key in s.pending then Wait(s.pending[key])
    else Lead
  }

  function RepliesTo(waiters: seq<Id>, response: Captured): seq<Reply> {
    seq(|waiters|, i requires 0 <= i < |waiters| => Reply(waiters[i], response))
  }

  /** New requests, a clock that does not run backwards, and no reset while a handler is at work. */
  predicate Enabled(s: State, e: Event) {
    match e
    case Arrive(id, key, now) => id !in s.seen && key != "" && s.clock <= now
    case Finalize(leader, response, now) => s.clock <= now
    case Reset => s.flights == map[]
  }

  /** A second finalisation of the same handler changes nothing. */
  function Step(cfg: Config, s: State, e: Event): State {
    match e
    case Arrive(id, key, now) =>
      var t := s.(cache := Unexpired(cfg, s.cache, now), seen := s.seen + {id}, clock := now);
      (match Decide(cfg, s, key, now)
       case Hit(slot) => t.(replies := s.replies + [Reply(id, slot.response)])
       case Wait(leader) =>
         if leader in s.flights then
           t.(flights := s.flights[leader := s.flights[leader].(waiters := s.flights[leader].waiters + [id])])
         else t
       case Lead =>
         t.(pending := s.pending[key := id], flights := s.flights[id := Flight(key, [])], led := s.led + {id}))
    case Finalize(leader, response, now) =>
      if leader !in s.flights then s.(clock := now)
      else
        var flight := s.flights[leader];
        var slot := Slot(flight.key, response, now);
        var full := Put(s.cache, slot);
        var evicted := s.evicted - {flight.key};
        s.(cache := Trim(cfg, full), pending := s.pending - {flight.key}, flights := s.flights - {leader},
           replies := s.replies + RepliesTo(flight.waiters, response),
           last := s.last[flight.key := slot],
           evicted := if |full| > cfg.maxEntries then evicted + {full[0].key} else evicted,
           clock := now)
    case Reset => s.(cache := [], pending := map[], last := map[], evicted := {})
  }

  // ---- invariant ----

  predicate DistinctKeys(cache: seq<Slot>) {
    forall i, j :: 0 <= i < j < |cache| ==> cache[i].key != cache[j].key
  }

  /** The leaders at work and the keys they are registered under correspond one to one. */
  ghost predicate SingleFlight(s: State) {
    && (forall key :: key in s.pending ==> s.pending[key] in s.flights && s.flights[s.pending[key]].key == key)
    && (forall l :: l in s.flights ==> s.flights[l].key in s.pending && s.pending[s.flights[l].key] == l)
  }

  predicate Waiting(s: State, leader: Id, id: Id) {
    leader in s.flights && id in s.flights[leader].waiters
  }

  predicate Replied(s: State, id: Id) { exists k :: 0 <= k < |s.replies| && s.replies[k].id == id }

  predicate NoRepeats(ids: seq<Id>) { forall i, j :: 0 <= i < j < |ids| ==> ids[i] != ids[j] }

  /** Nobody waits twice, is answered twice, or waits after being answered; leaders do neither. */
  ghost predicate AnsweredAtMostOnce(s: State) {
    && (forall l :: l in s.flights ==> l in s.seen && NoRepeats(s.flights[l].waiters))
    && (forall l, id :: Waiting(s, l, id) ==> id in s.seen && id !in s.flights && !Replied(s, id))
    && (forall l, m, id :: Waiting(s, l, id) && Waiting(s, m, id) ==> l == m)
    && (forall l :: l in s.flights ==> !Replied(s, l))
    && (forall i :: 0 <= i < |s.replies| ==> s.replies[i].id in s.seen)
    && (forall i, j :: 0 <= i < j < |s.replies| ==> s.replies[i].id != s.replies[j].id)
  }

  /** The cache holds exactly the latest responses that have neither aged out nor been pushed out. */
  ghost predicate CacheFaithful(cfg: Config, s: State) {
    && DistinctKeys(s.cache) && |s.cache| <= cfg.maxEntries
    && (forall key :: key in s.last ==> s.last[key].key == key && s.last[key].createdAt <= s.clock)
    && (forall i :: 0 <= i < |s.cache| ==> s.cache[i].key in s.last && s.last[s.cache[i].key] == s.cache[i])
    && (forall key :: key in s.last && key !in s.evicted && s.clock - s.last[key].createdAt <= cfg.ttlMs ==>
          s.last[key] in s.cache)
  }

  ghost predicate Inv(cfg: Config, s: State) {
    SingleFlight(s) && AnsweredAtMostOnce(s) && CacheFaithful(cfg, s)
  }

  // ---- cache lemmas ----

  lemma {:induction false} UnexpiredMembers(cfg: Config, cache: seq<Slot>, now: int)
    ensures forall x :: x in Unexpired(cfg, cache, now) <==> x in cache && now - x.createdAt <= cfg.ttlMs
    ensures |Unexpired(cfg, cache, now)| <= |cache|
    ensures DistinctKeys(cache) ==> DistinctKeys(Unexpired(cfg, cache, now))
  {
    if cache != [] {
      var n := |cache| - 1;
      UnexpiredMembers(cfg, cache[..n], now);
      assert cache == cache[..n] + [cache[n]];
      if DistinctKeys(cache) {
        var kept := Unexpired(cfg, cache[..n], now);
        forall i | 0 <= i < |kept| ensures kept[i].key != cache[n].key {
          assert kept[i] in cache[..n];
          var k :| 0 <= k < n && cache[..n][k] == kept[i];
        }
      }
    }
  }

  lemma {:induction false} FindFinds(cache: seq<Slot>, key: string)
    ensures Find(cache, key).Some? ==> Find(cache, key).value in cache && Find(cache, key).value.key == key
    ensures Find(cache, key).None? ==> forall x :: x in cache ==> x.key != key
  {
    if cache != [] {
      FindFinds(cache[1..], key);
      assert cache == [cache[0]] + cache[1..];
    }
  }

  lemma {:induction false} PutPuts(cache: seq<Slot>, slot: Slot)
    requires DistinctKeys(cache)
    ensures forall x :: x in Put(cache, slot) <==> x == slot || (x in cache && x.key != slot.key)
    ensures DistinctKeys(Put(cache, slot))
    ensures |Put(cache, slot)| <= |cache| + 1
  {
    if cache != [] {
      assert cache == [cache[0]] + cache[1..];
      assert forall x :: x in cache[1..] ==> x.key != cache[0].key;
      if cache[0].key != slot.key {
        PutPuts(cache[1..], slot);
        var rest := Put(cache[1..], slot);
        assert forall i :: 0 <= i < |rest| ==> rest[i] in rest && rest[i].key != cache[0].key;
      }
    }
  }

  // ---- every step keeps the invariant ----

  lemma {:induction false} ArriveKeepsCache(cfg: Config, s: State, e: Event)
    requires e.Arrive? && Enabled(s, e) && CacheFaithful(cfg, s)
    ensures CacheFaithful(cfg, Step(cfg, s, e))
  {
    UnexpiredMembers(cfg, s.cache, e.now);
    var t := Step(cfg, s, e);
    assert t.cache == Unexpired(cfg, s.cache, e.now) && t.last == s.last && t.evicted == s.evicted && t.clock == e.now;
    forall i | 0 <= i < |t.cache| ensures t.cache[i].key in t.last && t.last[t.cache[i].key] == t.cache[i] {
      assert t.cache[i] in s.cache;
      var k :| 0 <= k < |s.cache| && s.cache[k] == t.cache[i];
    }
  }

  lemma {:induction false} PutAndTrim(cfg: Config, cache: seq<Slot>, slot: Slot)
    requires DistinctKeys(cache) && |cache| <= cfg.maxEntries
    ensures var full := Put(cache, slot);
            var kept := Trim(cfg, full);
            && DistinctKeys(kept) && |kept| <= cfg.maxEntries && full != []
            && (forall x :: x in kept ==> x == slot || (x in cache && x.key != slot.key))
            && (forall x :: x == slot || (x in cache && x.key != slot.key) ==>
                  x in kept || (|full| > cfg.maxEntries && x == full[0]))
  {
    PutPuts(cache, slot);
    var full := Put(cache, slot);
    assert full == [full[0]] + full[1..];
  }

  lemma {:induction false} FinalizeKeepsCache(cfg: Config, s: State, e: Event)
    requires e.Finalize? && Enabled(s, e) && CacheFaithful(cfg, s)
    ensures CacheFaithful(cfg, Step(cfg, s, e))
  {
    if e.leader in s.flights {
      var key := s.flights[e.leader].key;
      var slot := Slot(key, e.response, e.now);
      var t := Step(cfg, s, e);
      PutAndTrim(cfg, s.cache, slot);
      forall x | x in t.cache ensures x.key in t.last && t.last[x.key] == x {
        if x != slot { var k :| 0 <= k < |s.cache| && s.cache[k] == x; }
      }
      forall k | k in t.last && k !in t.evicted && t.clock - t.last[k].createdAt <= cfg.ttlMs
        ensures t.last[k] in t.cache
      {
        if k != key { assert k !in s.evicted && s.last[k] in s.cache; }
      }
    }
  }

  lemma {:induction false} ArriveKeepsFlights(cfg: Config, s: State, e: Event)
    requires e.Arrive? && Enabled(s, e) && SingleFlight(s) && AnsweredAtMostOnce(s)
    ensures SingleFlight(Step(cfg, s, e))
  {
  }

  lemma {:induction false} RepliedGrows(s: State, t: State, more: seq<Reply>)
    requires t.replies == s.replies + more
    ensures forall id :: Replied(t, id) <==> Replied(s, id) || exists k :: 0 <= k < |more| && more[k].id == id
  {
    forall id ensures Replied(t, id) <==> Replied(s, id) || exists k :: 0 <= k < |more| && more[k].id == id {
      if Replied(s, id) {
        var k :| 0 <= k < |s.replies| && s.replies[k].id == id;
        assert t.replies[k].id == id;
      }
      if k :| 0 <= k < |more| && more[k].id == id {
        assert t.replies[|s.replies| + k].id == id;
      }
    }
  }

  lemma {:induction false} HitKeepsAnswers(s: State, t: State, id: Id, response: Captured)
    requires AnsweredAtMostOnce(s) && id !in s.seen
    requires t.flights == s.flights && t.seen == s.seen + {id} && t.replies == s.replies + [Reply(id, response)]
    ensures AnsweredAtMostOnce(t)
  {
    RepliedGrows(s, t, [Reply(id, response)]);
    assert forall l, x :: Waiting(t, l, x) <==> Waiting(s, l, x);
  }

  lemma {:induction false} LeadKeepsAnswers(s: State, t: State, id: Id, key: string)
    requires AnsweredAtMostOnce(s) && id !in s.seen
    requires t.flights == s.flights[id := Flight(key, [])] && t.seen == s.seen + {id} && t.replies == s.replies
    ensures AnsweredAtMostOnce(t)
  {
    RepliedGrows(s, t, []);
    assert forall l, x :: Waiting(t, l, x) <==> Waiting(s, l, x);
  }

  lemma {:induction false} WaitKeepsAnswers(s: State, t: State, id: Id, leader: Id)
    requires AnsweredAtMostOnce(s) && id !in s.seen && leader in s.flights
    requires t.flights == s.flights[leader := s.flights[leader].(waiters := s.flights[leader].waiters + [id])]
    requires t.seen == s.seen + {id} && t.replies == s.replies
    ensures AnsweredAtMostOnce(t)
  {
    RepliedGrows(s, t, []);
    assert forall l, x :: Waiting(t, l, x) <==> Waiting(s, l, x) || (l == leader && x == id);
    assert !Waiting(s, leader, id);
    assert !Replied(s, id);
  }

  lemma {:induction false} ArriveKeepsAnswers(cfg: Config, s: State, e: Event)
    requires e.Arrive? && Enabled(s, e) && SingleFlight(s) && AnsweredAtMostOnce(s)
    ensures AnsweredAtMostOnce(Step(cfg, s, e))
  {
    var t := Step(cfg, s, e);
    match Decide(cfg, s, e.key, e.now) {
      case Hit(slot) => HitKeepsAnswers(s, t, e.id, slot.response);
      case Wait(leader) => WaitKeepsAnswers(s, t, e.id, leader);
      case Lead => LeadKeepsAnswers(s, t, e.id, e.key);
    }
  }

  lemma {:induction false} DeliverKeepsAnswers(s: State, t: State, leader: Id, response: Captured)
    requires AnsweredAtMostOnce(s) && leader in s.flights
    requires t.flights == s.flights - {leader} && t.seen == s.seen
    requires t.replies == s.replies + RepliesTo(s.flights[leader].waiters, response)
    ensures AnsweredAtMostOnce(t)
  {
    var more := RepliesTo(s.flights[leader].waiters, response);
    RepliedGrows(s, t, more);
    assert forall i :: 0 <= i < |more| ==> Waiting(s, leader, more[i].id);
    assert forall l, id :: Waiting(t, l, id) <==> Waiting(s, l, id) && l != leader;
    forall i, j | 0 <= i < j < |t.replies| ensures t.replies[i].id != t.replies[j].id {
      if i < |s.replies| <= j { assert Replied(s, t.replies[i].id); }
    }
  }

  lemma {:induction false} FinalizeKeepsAnswers(cfg: Config, s: State, e: Event)
    requires e.Finalize? && Enabled(s, e) && SingleFlight(s) && AnsweredAtMostOnce(s)
    ensures SingleFlight(Step(cfg, s, e)) && AnsweredAtMostOnce(Step(cfg, s, e))
  {
    var t := Step(cfg, s, e);
    if e.leader in s.flights {
      DeliverKeepsAnswers(s, t, e.leader, e.response);
    } else {
      RepliedGrows(s, t, []);
      assert forall l, id :: Waiting(t, l, id) <==> Waiting(s, l, id);
    }
  }

  lemma StepKeepsInv(cfg: Config, s: State, e: Event)
    requires Inv(cfg, s) && Enabled(s, e)
    ensures Inv(cfg, Step(cfg, s, e))
  {
    match e
    case Arrive(_, _, _) =>
      ArriveKeepsCache(cfg, s, e);
      ArriveKeepsFlights(cfg, s, e);
      ArriveKeepsAnswers(cfg, s, e);
    case Finalize(_, _, _) =>
      FinalizeKeepsCache(cfg, s, e);
      FinalizeKeepsAnswers(cfg, s, e);
    case Reset =>
      RepliedGrows(s, Step(cfg, s, e), []);
  }

  /** No two handlers are at work for one key. */
  ghost predicate OneHandlerPerKey(s: State) {
    forall l, m :: l in s.flights && m in s.flights && s.flights[l].key == s.flights[m].key ==> l == m
  }

  lemma {:induction false} UnseenId(seen: set<Id>) returns (id: Id)
    ensures id !in seen && forall x :: x in seen ==> x < id
  {
    if seen == {} {
      id := 0;
    } else {
      var x :| x in seen;
      var bound := UnseenId(seen - {x});
      id := if bound > x then bound else x + 1;
      assert forall y :: y in seen ==> y == x || y in seen - {x};
    }
  }

  /**
   After a reset every next request still leaves at most one handler per key, if and only if no
   handler was at work.
   */
  lemma {:induction false} ResetKeepsSingleFlightExactly(cfg: Config, s: State)
    requires s.flights.Keys <= s.seen
    ensures (forall id, key, now :: id !in s.seen ==>
               OneHandlerPerKey(Step(cfg, Step(cfg, s, Reset), Arrive(id, key, now))))
            <==> s.flights == map[]
  {
    if s.flights != map[] {
      var l :| l in s.flights;
      var id := UnseenId(s.seen);
      ResetAllowsSecondHandler(cfg, s, l, id, 0);
      assert !OneHandlerPerKey(Step(cfg, Step(cfg, s, Reset), Arrive(id, s.flights[l].key, 0)));
    }
  }

  /** After a reset with a handler at work, the next request for its key starts a second one. */
  lemma ResetAllowsSecondHandler(cfg: Config, s: State, leader: Id, id: Id, now: int)
    requires leader in s.flights && id != leader
    ensures var t := Step(cfg, Step(cfg, s, Reset), Arrive(id, s.flights[leader].key, now));
            leader in t.flights && id in t.flights && t.flights[leader].key == t.flights[id].key
  {
    var r := Step(cfg, s, Reset);
    assert Unexpired(cfg, r.cache, now) == [];
    assert Decide(cfg, r, s.flights[leader].key, now) == Lead;
  }

  // ---- runs ----

  function Run(cfg: Config, events: seq<Event>): State {
    if events == [] then INIT else Step(cfg, Run(cfg, events[..|events| - 1]), events[|events| - 1])
  }

  ghost predicate RunEnabled(cfg: Config, events: seq<Event>) {
    forall i :: 0 <= i < |events| ==> Enabled(Run(cfg, events[..i]), events[i])
  }

  lemma {:induction false} EnabledFront(cfg: Config, events: seq<Event>)
    requires RunEnabled(cfg, events) && events != []
    ensures RunEnabled(cfg, events[..|events| - 1])
    ensures Enabled(Run(cfg, events[..|events| - 1]), events[|events| - 1])
  {
    var front := events[..|events| - 1];
    forall i | 0 <= i < |front| ensures Enabled(Run(cfg, front[..i]), front[i]) {
      assert front[..i] == events[..i];
      assert Enabled(Run(cfg, events[..i]), events[i]);
    }
  }

  /** After any run: single flight per key, no double answer, a faithful and bounded cache. */
  lemma {:induction false} RunKeepsInv(cfg: Config, events: seq<Event>)
    requires RunEnabled(cfg, events)
    ensures Inv(cfg, Run(cfg, events))
  {
    if events != [] {
      var n := |events| - 1;
      EnabledFront(cfg, events);
      RunKeepsInv(cfg, events[..n]);
      StepKeepsInv(cfg, Run(cfg, events[..n]), events[n]);
    }
  }

  /** A hit is answered with the key's latest response, and that is younger than the TTL. */
  lemma {:induction false} HitsAreFresh(cfg: Config, events: seq<Event>, key: string, now: int)
    requires RunEnabled(cfg, events) && Run(cfg, events).clock <= now
    requires Decide(cfg, Run(cfg, events), key, now).Hit?
    ensures var s := Run(cfg, events);
            var slot := Decide(cfg, s, key, now).slot;
            key in s.last && s.last[key] == slot && now - slot.createdAt < cfg.ttlMs
  {
    var s := Run(cfg, events);
    RunKeepsInv(cfg, events);
    UnexpiredMembers(cfg, s.cache, now);
    FindFinds(Unexpired(cfg, s.cache, now), key);
    var slot := Decide(cfg, s, key, now).slot;
    var i :| 0 <= i < |s.cache| && s.cache[i] == slot;
  }

  /**
   A new handler is started for a key exactly when none is at work and the key has no
   response younger than the TTL that is still cached; so a repeat means the previous
   response aged out or was pushed out.
   */
  lemma {:induction false} HandlerRunsOnlyWhenNeeded(cfg: Config, events: seq<Event>, key: string, now: int)
    requires RunEnabled(cfg, events) && Run(cfg, events).clock <= now
    ensures var s := Run(cfg, events);
            Decide(cfg, s, key, now).Lead? <==>
              && (forall l :: l in s.flights ==> s.flights[l].key != key)
              && !(key in s.last && now - s.last[key].createdAt < cfg.ttlMs && s.last[key] in s.cache)
    ensures var s := Run(cfg, events);
            Decide(cfg, s, key, now).Lead? && key in s.last ==>
              now - s.last[key].createdAt >= cfg.ttlMs || key in s.evicted
  {
    var s := Run(cfg, events);
    RunKeepsInv(cfg, events);
    UnexpiredMembers(cfg, s.cache, now);
    var fresh' := Unexpired(cfg, s.cache, now);
    FindFinds(fresh', key);
    if Find(fresh', key).Some? {
      var i :| 0 <= i < |s.cache| && s.cache[i] == Find(fresh', key).value;
    }
  }

  /** When a handler finishes, each of its waiters gets exactly its response, and gets it now. */
  lemma {:induction false} WaitersGetLeadersResponse(
    cfg: Config, events: seq<Event>, leader: Id, response: Captured, now: int, id: Id)
    requires RunEnabled(cfg, events) && Run(cfg, events).clock <= now
    requires Waiting(Run(cfg, events), leader, id)
    ensures !Replied(Run(cfg, events), id)
    ensures Reply(id, response) in Step(cfg, Run(cfg, events), Finalize(leader, response, now)).replies
  {
    RunKeepsInv(cfg, events);
    var waiters := Run(cfg, events).flights[leader].waiters;
    var i :| 0 <= i < |waiters| && waiters[i] == id;
    assert RepliesTo(waiters, response)[i] == Reply(id, response);
  }

  /** Every request started a handler, has been answered, or waits for a handler at work. */
  ghost predicate NobodyLost(s: State) {
    forall id :: id in s.seen ==> id in s.led || Replied(s, id) || exists l :: Waiting(s, l, id)
  }

  lemma {:induction false} ArriveLosesNobody(cfg: Config, s: State, e: Event)
    requires e.Arrive? && Enabled(s, e) && SingleFlight(s) && AnsweredAtMostOnce(s) && NobodyLost(s)
    ensures NobodyLost(Step(cfg, s, e))
  {
    var t := Step(cfg, s, e);
    var more := match Decide(cfg, s, e.key, e.now) case Hit(slot) => [Reply(e.id, slot.response)] case _ => [];
    RepliedGrows(s, t, more);
    forall id | id in t.seen ensures id in t.led || Replied(t, id) || exists l :: Waiting(t, l, id) {
      if l :| Waiting(s, l, id) {
        assert Waiting(t, l, id);
      } else if id == e.id {
        match Decide(cfg, s, e.key, e.now) {
          case Hit(slot) => assert more[0].id == id;
          case Wait(leader) => assert Waiting(t, leader, id);
          case Lead =>
        }
      }
    }
  }

  lemma {:induction false} FinalizeLosesNobody(cfg: Config, s: State, e: Event)
    requires e.Finalize? && NobodyLost(s)
    ensures NobodyLost(Step(cfg, s, e))
  {
    var t := Step(cfg, s, e);
    var more := if e.leader in s.flights then RepliesTo(s.flights[e.leader].waiters, e.response) else [];
    RepliedGrows(s, t, more);
    forall id | id in t.seen ensures id in t.led || Replied(t, id) || exists l :: Waiting(t, l, id) {
      if l :| Waiting(s, l, id) {
        if l == e.leader {
          var k :| 0 <= k < |s.flights[l].waiters| && s.flights[l].waiters[k] == id;
          assert more[k].id == id;
        } else {
          assert Waiting(t, l, id);
        }
      }
    }
  }

  lemma {:induction false} StepLosesNobody(cfg: Config, s: State, e: Event)
    requires Inv(cfg, s) && Enabled(s, e) && NobodyLost(s)
    ensures NobodyLost(Step(cfg, s, e))
  {
    match e
    case Arrive(_, _, _) => ArriveLosesNobody(cfg, s, e);
    case Finalize(_, _, _) => FinalizeLosesNobody(cfg, s, e);
    case Reset => RepliedGrows(s, Step(cfg, s, e), []);
  }

  /** In every run nobody is lost; once no handler is at work, everyone else has been answered, exactly once. */
  lemma {:induction false} RunLosesNobody(cfg: Config, events: seq<Event>)
    requires RunEnabled(cfg, events)
    ensures var s := Run(cfg, events);
            && NobodyLost(s)
            && (s.flights == map[] ==> forall id :: id in s.seen && id !in s.led ==> Replied(s, id))
            && forall i, j :: 0 <= i < j < |s.replies| ==> s.replies[i].id != s.replies[j].id
  {
    RunKeepsInv(cfg, events);
    if events != [] {
      var n := |events| - 1;
      var before := Run(cfg, events[..n]);
      EnabledFront(cfg, events);
      RunKeepsInv(cfg, events[..n]);
      RunLosesNobody(cfg, events[..n]);
      StepLosesNobody(cfg, before, events[n]);
    }
  }

  // ---- what the replies say ----

  /** Event i is the first completion of a handler for the key. */
  ghost predicate FinishesAt(cfg: Config, events: seq<Event>, i: nat, key: string) {
    && i < |events| && events[i].Finalize?
    && var s := Run(cfg, events[..i]);
       events[i].leader in s.flights && s.flights[events[i].leader].key == key
  }

  /** It is the latest one, with no reset since. */
  ghost predicate LatestFinish(cfg: Config, events: seq<Event>, i: nat, key: string) {
    && FinishesAt(cfg, events, i, key)
    && forall j :: i < j < |events| ==> !FinishesAt(cfg, events, j, key) && !events[j].Reset?
  }

  lemma {:induction false} FinishInFront(cfg: Config, events: seq<Event>, i: nat, key: string)
    requires i < |events| - 1
    ensures FinishesAt(cfg, events[..|events| - 1], i, key) <==> FinishesAt(cfg, events, i, key)
  {
    assert events[..|events| - 1][..i] == events[..i];
  }

  lemma {:induction false} StillLatest(cfg: Config, events: seq<Event>, i: nat, key: string)
    requires events != [] && LatestFinish(cfg, events[..|events| - 1], i, key)
    requires !FinishesAt(cfg, events, |events| - 1, key) && !events[|events| - 1].Reset?
    ensures LatestFinish(cfg, events, i, key)
  {
    var n := |events| - 1;
    FinishInFront(cfg, events, i, key);
    forall j | i < j < |events| ensures !FinishesAt(cfg, events, j, key) && !events[j].Reset? {
      if j < n {
        FinishInFront(cfg, events, j, key);
        assert events[..n][j] == events[j];
      }
    }
  }

  /** The latest response of a key is the one its latest handler published. */
  lemma {:induction false} LastIsLatestFinish(cfg: Config, events: seq<Event>, key: string) returns (i: nat)
    requires key in Run(cfg, events).last
    ensures LatestFinish(cfg, events, i, key)
    ensures Run(cfg, events).last[key] == Slot(key, events[i].response, events[i].now)
  {
    var n := |events| - 1;
    var e, before := events[n], Run(cfg, events[..n]);
    if FinishesAt(cfg, events, n, key) {
      i := n;
    } else {
      assert !e.Reset? && key in before.last && Run(cfg, events).last[key] == before.last[key];
      i := LastIsLatestFinish(cfg, events[..n], key);
      StillLatest(cfg, events, i, key);
    }
  }

  /**
   An arrival that is answered at once is answered with exactly one reply, to itself, and that
   carries the response which the latest handler for its key published less than the TTL ago.
   */
  lemma {:induction false} HitRepliesLatest(cfg: Config, events: seq<Event>, id: Id, key: string, now: int)
    returns (i: nat)
    requires RunEnabled(cfg, events) && Enabled(Run(cfg, events), Arrive(id, key, now))
    requires Step(cfg, Run(cfg, events), Arrive(id, key, now)).replies != Run(cfg, events).replies
    ensures LatestFinish(cfg, events, i, key) && now - events[i].now < cfg.ttlMs
    ensures Step(cfg, Run(cfg, events), Arrive(id, key, now)).replies
            == Run(cfg, events).replies + [Reply(id, events[i].response)]
  {
    HitsAreFresh(cfg, events, key, now);
    i := LastIsLatestFinish(cfg, events, key);
  }

  /** Some arrival of the request names the key. */
  ghost predicate AskedFor(events: seq<Event>, id: Id, key: string) {
    exists k :: 0 <= k < |events| && events[k].Arrive? && events[k].id == id && events[k].key == key
  }

  /** The reply carries the response of a handler for the key its request asked for. */
  ghost predicate Justified(cfg: Config, events: seq<Event>, r: Reply) {
    exists key, i: nat ::
      AskedFor(events, r.id, key) && FinishesAt(cfg, events, i, key) && events[i].response == r.response
  }

  ghost predicate WaitersAsked(events: seq<Event>, s: State) {
    forall l, id :: Waiting(s, l, id) ==> AskedFor(events, id, s.flights[l].key)
  }

  lemma {:induction false} AskedInFront(events: seq<Event>, id: Id, key: string)
    requires events != [] && AskedFor(events[..|events| - 1], id, key)
    ensures AskedFor(events, id, key)
  {
    var front := events[..|events| - 1];
    var k :| 0 <= k < |front| && front[k].Arrive? && front[k].id == id && front[k].key == key;
    assert events[k] == front[k];
  }

  lemma {:induction false} JustifiedInFront(cfg: Config, events: seq<Event>, r: Reply)
    requires events != [] && Justified(cfg, events[..|events| - 1], r)
    ensures Justified(cfg, events, r)
  {
    var front := events[..|events| - 1];
    var key, i: nat :|
      AskedFor(front, r.id, key) && FinishesAt(cfg, front, i, key) && front[i].response == r.response;
    AskedInFront(events, r.id, key);
    FinishInFront(cfg, events, i, key);
    assert events[i] == front[i];
  }

  /** Whoever waits asked for the key of the handler it waits for. */
  lemma {:induction false} WaitersAskedInRun(cfg: Config, events: seq<Event>)
    requires RunEnabled(cfg, events)
    ensures WaitersAsked(events, Run(cfg, events))
  {
    if events != [] {
      var n := |events| - 1;
      var front, before, s := events[..n], Run(cfg, events[..n]), Run(cfg, events);
      EnabledFront(cfg, events);
      RunKeepsInv(cfg, front);
      WaitersAskedInRun(cfg, front);
      forall l, id | Waiting(s, l, id) ensures AskedFor(events, id, s.flights[l].key) {
        WaiterIsOldOrNew(cfg, before, events[n], l, id);
        if Waiting(before, l, id) { AskedInFront(events, id, before.flights[l].key); }
      }
    }
  }

  lemma {:induction false} WaiterIsOldOrNew(cfg: Config, s: State, e: Event, l: Id, id: Id)
    requires SingleFlight(s) && Waiting(Step(cfg, s, e), l, id)
    ensures var key := Step(cfg, s, e).flights[l].key;
            (Waiting(s, l, id) && s.flights[l].key == key) || (e.Arrive? && e.id == id && e.key == key)
  {
  }

  /** Every reply in any run carries what a handler for its request's own key published. */
  lemma {:induction false} RepliesAreJustified(cfg: Config, events: seq<Event>, k: nat)
    requires RunEnabled(cfg, events) && k < |Run(cfg, events).replies|
    ensures Justified(cfg, events, Run(cfg, events).replies[k])
  {
    var n := |events| - 1;
    var front, before, r := events[..n], Run(cfg, events[..n]), Run(cfg, events).replies[k];
    EnabledFront(cfg, events);
    if k < |before.replies| {
      RepliesOnlyGrow(cfg, before, events[n]);
      RepliesAreJustified(cfg, front, k);
      JustifiedInFront(cfg, events, r);
    } else if events[n].Arrive? {
      var i := HitRepliesLatest(cfg, front, events[n].id, events[n].key, events[n].now);
      FinishInFront(cfg, events, i, events[n].key);
      assert r == Reply(events[n].id, front[i].response) && events[i] == front[i];
      assert AskedFor(events, r.id, events[n].key);
    } else {
      WaiterIsJustified(cfg, events, k);
    }
  }

  lemma RepliesOnlyGrow(cfg: Config, s: State, e: Event)
    ensures s.replies <= Step(cfg, s, e).replies
  {
  }

  lemma {:induction false} WaiterIsJustified(cfg: Config, events: seq<Event>, k: nat)
    requires RunEnabled(cfg, events) && events != [] && !events[|events| - 1].Arrive?
    requires |Run(cfg, events[..|events| - 1]).replies| <= k < |Run(cfg, events).replies|
    ensures Justified(cfg, events, Run(cfg, events).replies[k])
  {
    var n := |events| - 1;
    var e, before, r := events[n], Run(cfg, events[..n]), Run(cfg, events).replies[k];
    EnabledFront(cfg, events);
    assert e.Finalize? && e.leader in before.flights;
    var flight := before.flights[e.leader];
    var j := k - |before.replies|;
    assert r == Reply(flight.waiters[j], e.response);
    WaitersAskedInRun(cfg, events[..n]);
    assert Waiting(before, e.leader, r.id);
    AskedInFront(events, r.id, flight.key);
    assert FinishesAt(cfg, events, n, flight.key);
  }

  // ---- what the size cap pushes out ----

  predicate Holds(cache: seq<Slot>, key: string) { exists k :: 0 <= k < |cache| && cache[k].key == key }

  /** The caches of a run, from the first to the last. */
  ghost function Caches(cfg: Config, events: seq<Event>): seq<seq<Slot>> {
    seq(|events| + 1, k requires 0 <= k <= |events| => Run(cfg, events[..k]).cache)
  }

  /** In a history of caches up to n, the key came in with change i and has been there since. */
  ghost predicate EnteredAt(caches: seq<seq<Slot>>, n: nat, i: nat, key: string)
    requires n < |caches|
  {
    i < n && !Holds(caches[i], key) && forall j :: i < j <= n ==> Holds(caches[j], key)
  }

  /** Two keys stand in this order. */
  predicate InPlace(cache: seq<Slot>, x: string, y: string) {
    exists k, m :: 0 <= k < m < |cache| && cache[k].key == x && cache[m].key == y
  }

  /** Keys that were there keep their order, and a key that was not there is the last. */
  ghost predicate KeepsPlaces(before: seq<Slot>, after: seq<Slot>) {
    forall a, b :: 0 <= a < b < |after| ==> KeepsPair(before, after[a].key, after[b].key)
  }

  predicate KeepsPair(before: seq<Slot>, x: string, y: string) {
    Holds(before, x) && (Holds(before, y) ==> InPlace(before, x, y))
  }

  lemma {:induction false} UnexpiredPlaces(cfg: Config, cache: seq<Slot>, now: int, a: nat, b: nat)
    returns (k: nat, m: nat)
    requires a < b < |Unexpired(cfg, cache, now)|
    ensures k < m < |cache|
    ensures cache[k] == Unexpired(cfg, cache, now)[a] && cache[m] == Unexpired(cfg, cache, now)[b]
  {
    var n := |cache| - 1;
    var kept := Unexpired(cfg, cache[..n], now);
    if b < |kept| {
      k, m := UnexpiredPlaces(cfg, cache[..n], now, a, b);
    } else {
      m := n;
      k := UnexpiredPlace(cfg, cache[..n], now, a);
    }
  }

  lemma {:induction false} UnexpiredPlace(cfg: Config, cache: seq<Slot>, now: int, a: nat) returns (k: nat)
    requires a < |Unexpired(cfg, cache, now)|
    ensures k < |cache| && cache[k] == Unexpired(cfg, cache, now)[a]
  {
    var n := |cache| - 1;
    if a < |Unexpired(cfg, cache[..n], now)| { k := UnexpiredPlace(cfg, cache[..n], now, a); } else { k := n; }
  }

  lemma {:induction false} PutPlaces(cache: seq<Slot>, slot: Slot)
    ensures var full := Put(cache, slot);
            && |cache| <= |full| <= |cache| + 1
            && (forall k :: 0 <= k < |cache| ==> full[k].key == cache[k].key)
            && (|full| > |cache| <==> !Holds(cache, slot.key))
            && (|full| > |cache| ==> full[|cache|] == slot)
  {
    if cache != [] && cache[0].key != slot.key {
      PutPlaces(cache[1..], slot);
      if Holds(cache, slot.key) {
        var k :| 0 <= k < |cache| && cache[k].key == slot.key;
        assert cache[1..][k - 1] == cache[k];
      }
    }
  }

  lemma {:induction false} ArrivePlaces(cfg: Config, cache: seq<Slot>, now: int)
    ensures KeepsPlaces(cache, Unexpired(cfg, cache, now))
  {
    var after := Unexpired(cfg, cache, now);
    forall a, b | 0 <= a < b < |after| ensures KeepsPair(cache, after[a].key, after[b].key) {
      var k, m := UnexpiredPlaces(cfg, cache, now, a, b);
      assert cache[k].key == after[a].key && cache[m].key == after[b].key;
    }
  }

  lemma {:induction false} FinishPlaces(cfg: Config, cache: seq<Slot>, slot: Slot)
    ensures KeepsPlaces(cache, Trim(cfg, Put(cache, slot)))
  {
    PutPlaces(cache, slot);
    var full, after := Put(cache, slot), Trim(cfg, Put(cache, slot));
    var off := if |full| > cfg.maxEntries then 1 else 0;
    forall a, b | 0 <= a < b < |after| ensures KeepsPair(cache, after[a].key, after[b].key) {
      assert after[a] == full[a + off] && after[b] == full[b + off];
      assert cache[a + off].key == after[a].key;
      if b + off < |cache| { assert cache[b + off].key == after[b].key; }
    }
  }

  lemma {:induction false} SamePlaces(cache: seq<Slot>)
    ensures KeepsPlaces(cache, cache) && KeepsPlaces(cache, [])
  {
    forall a, b | 0 <= a < b < |cache| ensures KeepsPair(cache, cache[a].key, cache[b].key) {
      var k, m := a, b;
      assert cache[k].key == cache[a].key && cache[m].key == cache[b].key;
    }
  }

  lemma {:induction false} StepKeepsPlaces(cfg: Config, s: State, e: Event)
    ensures KeepsPlaces(s.cache, Step(cfg, s, e).cache)
  {
    SamePlaces(s.cache);
    if e.Arrive? {
      ArrivePlaces(cfg, s.cache, e.now);
    } else if e.Finalize? && e.leader in s.flights {
      FinishPlaces(cfg, s.cache, Slot(s.flights[e.leader].key, e.response, e.now));
    }
  }

  lemma {:induction false} PlacesBefore(before: seq<Slot>, after: seq<Slot>, x: string, y: string)
    requires KeepsPlaces(before, after) && InPlace(after, x, y)
    ensures KeepsPair(before, x, y)
  {
    var a, b :| 0 <= a < b < |after| && after[a].key == x && after[b].key == y;
  }

  ghost predicate AllKeepPlaces(caches: seq<seq<Slot>>) {
    caches != [] && caches[0] == [] && forall k :: 0 <= k < |caches| - 1 ==> KeepsPlaces(caches[k], caches[k + 1])
  }

  /** Slots stand in the order in which their keys came in. */
  lemma {:induction false} SlotsByAge(caches: seq<seq<Slot>>, n: nat, x: string, y: string, i: nat, j: nat)
    requires AllKeepPlaces(caches) && n < |caches| && InPlace(caches[n], x, y)
    requires EnteredAt(caches, n, i, x) && EnteredAt(caches, n, j, y)
    ensures i < j
  {
    PlacesBefore(caches[n - 1], caches[n], x, y);
    assert i < n - 1;
    if Holds(caches[n - 1], y) {
      assert j < n - 1;
      SlotsByAge(caches, n - 1, x, y, i, j);
    } else {
      assert j >= n - 1;
    }
  }

  lemma {:induction false} RunKeepsPlaces(cfg: Config, events: seq<Event>)
    ensures AllKeepPlaces(Caches(cfg, events))
  {
    assert events[..0] == [];
    forall k | 0 <= k < |events| ensures KeepsPlaces(Caches(cfg, events)[k], Caches(cfg, events)[k + 1]) {
      assert events[..k + 1][..k] == events[..k];
      StepKeepsPlaces(cfg, Run(cfg, events[..k]), events[k]);
    }
  }

  /** A handler's completion pushes out at most one key, and of all cached keys the one that came in first. */
  lemma {:induction false} OldestIsPushedOut(
    cfg: Config, events: seq<Event>, e: Event, x: string, y: string, i: nat, j: nat)
    requires RunEnabled(cfg, events) && e.Finalize? && x != y
    requires var before, after := Run(cfg, events).cache, Step(cfg, Run(cfg, events), e).cache;
             Holds(before, x) && Holds(before, y) && !Holds(after, x)
    requires EnteredAt(Caches(cfg, events), |events|, i, x) && EnteredAt(Caches(cfg, events), |events|, j, y)
    ensures i < j && Holds(Step(cfg, Run(cfg, events), e).cache, y)
    ensures |Step(cfg, Run(cfg, events), e).cache| == |Run(cfg, events).cache| == cfg.maxEntries
  {
    var s := Run(cfg, events);
    RunKeepsInv(cfg, events);
    assert e.leader in s.flights;
    OnlyFirstGoes(cfg, s.cache, Slot(s.flights[e.leader].key, e.response, e.now), x, y);
    RunKeepsPlaces(cfg, events);
    assert events[..|events|] == events;
    SlotsByAge(Caches(cfg, events), |events|, x, y, i, j);
  }

  lemma {:induction false} OnlyFirstGoes(cfg: Config, cache: seq<Slot>, slot: Slot, x: string, y: string)
    requires |cache| <= cfg.maxEntries && x != y && Holds(cache, x) && Holds(cache, y)
    requires !Holds(Trim(cfg, Put(cache, slot)), x)
    ensures InPlace(cache, x, y) && Holds(Trim(cfg, Put(cache, slot)), y)
    ensures |Trim(cfg, Put(cache, slot))| == |cache| == cfg.maxEntries
  {
    PutPlaces(cache, slot);
    var full := Put(cache, slot);
    var k :| 0 <= k < |cache| && cache[k].key == x;
    var m :| 0 <= m < |cache| && cache[m].key == y;
    assert full[k].key == x && full[m].key == y;
    if k > 0 { BehindFirstStays(cfg, full, k); }
    if m > 0 { BehindFirstStays(cfg, full, m); }
  }

  lemma BehindFirstStays(cfg: Config, full: seq<Slot>, k: nat)
    requires 0 < k < |full|
    ensures Holds(Trim(cfg, full), full[k].key)
  {
    if |full| > cfg.maxEntries { assert Trim(cfg, full)[k - 1] == full[k]; }
  }

  // ---- the middleware object ----

  class Deduplicator {
    const config: Config
    var cache: seq<Slot>
    var pendingByKey: map<string, Id>
    /** The closures of handlers at work: their key and waiters. A finalised handler has none. */
    var flights: map<Id, Flight>
    var replies: seq<Reply>
    ghost var spec: State

    ghost predicate Valid()
      reads this
    {
      && Inv(config, spec)
      && cache == spec.cache && pendingByKey == spec.pending && flights == spec.flights && replies == spec.replies
    }

    constructor (config: Config)
      ensures Valid() && spec == INIT && this.config == config
    {
      this.config := config;
      cache, pendingByKey, flights, replies := [], map[], map[], [];
      spec := INIT;
    }

    method CleanupExpired(now: int)
      modifies this`cache
      ensures cache == Unexpired(config, old(cache), now)
    {
      var kept: seq<Slot> := [];
      for i := 0 to |cache|
        invariant cache == old(cache)
        invariant kept == Unexpired(config, cache[..i], now)
      {
        assert cache[..i + 1][..i] == cache[..i];
        if !(now - cache[i].createdAt > config.ttlMs) { kept := kept + [cache[i]]; }
      }
      assert cache[..|cache|] == cache;
      cache := kept;
    }

    /** A request comes in: answered from the cache, put to wait, or handed to its handler. */
    method Handle(id: Id, key: string, now: int) returns (action: Action)
      requires Valid() && Enabled(spec, Arrive(id, key, now))
      modifies this
      ensures Valid() && spec == Step(config, old(spec), Arrive(id, key, now))
      ensures action == Decide(config, old(spec), key, now)
    {
      StepKeepsInv(config, spec, Arrive(id, key, now));
      CleanupExpired(now);
      var cached := Find(cache, key);
      if cached.Some? && now - cached.value.createdAt < config.ttlMs {
        replies := replies + [Reply(id, cached.value.response)];
        action := Hit(cached.value);
      } else if key in pendingByKey {
        var leader := pendingByKey[key];
        flights := flights[leader := flights[leader].(waiters := flights[leader].waiters + [id])];
        action := Wait(leader);
      } else {
        pendingByKey := pendingByKey[key := id];
        flights := flights[id := Flight(key, [])];
        action := Lead;
      }
      spec := Step(config, spec, Arrive(id, key, now));
    }

    /** `res.end`, 'finish' or 'close' of a leader: the first of them publishes the captured response. */
    method FinalizeLeader(leader: Id, response: Captured, now: int)
      requires Valid() && Enabled(spec, Finalize(leader, response, now))
      modifies this
      ensures Valid() && spec == Step(config, old(spec), Finalize(leader, response, now))
    {
      StepKeepsInv(config, spec, Finalize(leader, response, now));
      spec := Step(config, spec, Finalize(leader, response, now));
      if leader in flights {
        Resolve(leader, response, now);
      }
    }

    method Resolve(leader: Id, response: Captured, now: int)
      requires leader in flights
      modifies this`cache, this`pendingByKey, this`flights, this`replies
      ensures var flight := old(flights[leader]);
              && cache == Trim(config, Put(old(cache), Slot(flight.key, response, now)))
              && pendingByKey == old(pendingByKey) - {flight.key}
              && flights == old(flights) - {leader}
              && replies == old(replies) + RepliesTo(flight.waiters, response)
    {
      var flight := flights[leader];
      flights := flights - {leader};
      pendingByKey := pendingByKey - {flight.key};
      cache := Put(cache, Slot(flight.key, response, now));
      if |cache| > config.maxEntries { cache := cache[1..]; }
      for i := 0 to |flight.waiters|
        invariant replies == old(replies) + RepliesTo(flight.waiters[..i], response)
        invariant cache == Trim(config, Put(old(cache), Slot(flight.key, response, now)))
        invariant pendingByKey == old(pendingByKey) - {flight.key} && flights == old(flights) - {leader}
      {
        replies := replies + [Reply(flight.waiters[i], response)];
        assert RepliesTo(flight.waiters[..i + 1], response)
          == RepliesTo(flight.waiters[..i], response) + [Reply(flight.waiters[i], response)];
      }
      assert flight.waiters[..|flight.waiters|] == flight.waiters;
    }
  }
}
