/**
 The in-memory indexes of the search service: posting lists per token, id sets per field
 value, id sets per jurisdiction level, all kept in step with the credential map.
 */
module SearchIndexes {
  import opened JsText
  import opened Credentials

  datatype Posting = Posting(credId: string, field: string)
  type Inverted = map<string, seq<Posting>>
  type Buckets = map<string, set<string>>
  type Store = map<string, Credential>

  /** The bucket maps: one per indexed field, and the hierarchical jurisdiction map. */
  datatype Filing = ByField(field: IndexedField) | ByJurisdiction

  /** The buckets a credential belongs in. */
  function KeysOf(p: Platform, filing: Filing, cred: Credential): set<string> {
    match filing
    case ByField(f) => {FieldIndexValue(cred, f)}
    case ByJurisdiction => JurisdictionLevels(p, cred)
  }

  // ---- what the indexes must hold ----

  function PostingsAt(inv: Inverted, token: string): seq<Posting> {
    if token in inv then inv[token] else []
  }

  ghost function Count(inv: Inverted, token: string, q: Posting): nat {
    multiset(PostingsAt(inv, token))[q]
  }

  ghost predicate NoEmptyPostings(inv: Inverted) {
    forall t :: t in inv ==> inv[t] != []
  }

  ghost predicate Posted(p: Platform, creds: Store, token: string, q: Posting) {
    q.credId in creds && Occurrence(token, q.field) in Occurrences(p, creds[q.credId])
  }

  /** Exactly one posting per (token, field, stored id), nothing else, no empty list. */
  ghost predicate InvertedInStep(p: Platform, inv: Inverted, creds: Store) {
    && NoEmptyPostings(inv)
    && forall t, q :: Count(inv, t, q) == if Posted(p, creds, t, q) then 1 else 0
  }

  predicate Filed(m: Buckets, key: string, id: string) {
    key in m && id in m[key]
  }

  ghost predicate NoEmptyBuckets(m: Buckets) {
    forall v :: v in m ==> m[v] != {}
  }

  /** Exactly the stored ids under each of their keys, no empty bucket. */
  ghost predicate BucketsInStep(p: Platform, filing: Filing, m: Buckets, creds: Store) {
    && NoEmptyBuckets(m)
    && forall v, id :: Filed(m, v, id) <==> id in creds && v in KeysOf(p, filing, creds[id])
  }

  ghost function KeysInUse(p: Platform, filing: Filing, creds: Store): set<string> {
    set id, k | id in creds && k in KeysOf(p, filing, creds[id]) :: k
  }

  ghost function Rebuilt(p: Platform, filing: Filing, creds: Store): Buckets {
    map v | v in KeysInUse(p, filing, creds) :: set id | id in creds && v in KeysOf(p, filing, creds[id])
  }

  lemma RebuiltInStep(p: Platform, filing: Filing, creds: Store)
    ensures BucketsInStep(p, filing, Rebuilt(p, filing, creds), creds)
  {
    var r := Rebuilt(p, filing, creds);
    forall v | v in r ensures r[v] != {} {
      var id :| id in creds && v in KeysOf(p, filing, creds[id]);
      assert id in r[v];
    }
  }

  lemma InStepUnique(p: Platform, filing: Filing, a: Buckets, b: Buckets, creds: Store)
    requires BucketsInStep(p, filing, a, creds) && BucketsInStep(p, filing, b, creds)
    ensures a == b
  {
    forall v, id ensures Filed(a, v, id) <==> Filed(b, v, id) {}
    forall v ensures v in a <==> v in b {
      if v in a { var id :| id in a[v]; assert Filed(b, v, id); }
      if v in b { var id :| id in b[v]; assert Filed(a, v, id); }
    }
    forall v | v in a ensures a[v] == b[v] {
      forall id ensures id in a[v] <==> id in b[v] {
        assert Filed(a, v, id) <==> Filed(b, v, id);
      }
    }
  }

  /** Being in step is being equal to the bucket map rebuilt from the credential map. */
  lemma InStepIsRebuilt(p: Platform, filing: Filing, m: Buckets, creds: Store)
    ensures BucketsInStep(p, filing, m, creds) <==> m == Rebuilt(p, filing, creds)
  {
    RebuiltInStep(p, filing, creds);
    if BucketsInStep(p, filing, m, creds) {
      InStepUnique(p, filing, m, Rebuilt(p, filing, creds), creds);
    }
  }

  /** Two posting maps in step with the same store agree up to the order inside each list. */
  lemma InvertedUnique(p: Platform, a: Inverted, b: Inverted, creds: Store)
    requires InvertedInStep(p, a, creds) && InvertedInStep(p, b, creds)
    ensures a.Keys == b.Keys
    ensures forall t :: t in a ==> multiset(a[t]) == multiset(b[t])
  {
    forall t ensures multiset(PostingsAt(a, t)) == multiset(PostingsAt(b, t)) {
      forall q ensures multiset(PostingsAt(a, t))[q] == multiset(PostingsAt(b, t))[q] {
        assert Count(a, t, q) == Count(b, t, q);
      }
    }
    forall t ensures t in a <==> t in b {
      if t in a { assert a[t][0] in multiset(PostingsAt(b, t)); }
      if t in b { assert b[t][0] in multiset(PostingsAt(a, t)); }
    }
    forall t | t in a ensures multiset(a[t]) == multiset(b[t]) {
      assert multiset(PostingsAt(a, t)) == multiset(PostingsAt(b, t));
    }
  }

  // ---- single updates ----

  /** The text under which an (token, field) pair is remembered as already posted. */
  function SeenKey(o: Occurrence): string { o.token + "::" + o.field }

  /** Tokens hold no colon, so the text determines the pair. */
  lemma SeenKeyInjective(a: Occurrence, b: Occurrence)
    requires IsToken(a.token) && IsToken(b.token) && SeenKey(a) == SeenKey(b)
    ensures a == b
  {
    var s, m, n := SeenKey(a), |a.token|, |b.token|;
    assert s[m] == ':' && s[n] == ':';
    assert forall i :: 0 <= i < m ==> s[i] == a.token[i] != ':';
    assert forall i :: 0 <= i < n ==> s[i] == b.token[i] != ':';
    assert a.token == s[..m] && b.token == s[..n];
    assert a.field == s[m + 2..] && b.field == s[n + 2..];
  }

  function Push(inv: Inverted, token: string, q: Posting): Inverted {
    inv[token := PostingsAt(inv, token) + [q]]
  }

  lemma PushCount(inv: Inverted, token: string, q: Posting, t: string, r: Posting)
    ensures Count(Push(inv, token, q), t, r) == Count(inv, t, r) + (if t == token && r == q then 1 else 0)
  {
  }

  function Without(postings: seq<Posting>, id: string): seq<Posting> {
    if postings == [] then []
    else if postings[0].credId != id then [postings[0]] + Without(postings[1..], id)
    else Without(postings[1..], id)
  }

  lemma {:induction false} WithoutCount(postings: seq<Posting>, id: string, q: Posting)
    ensures multiset(Without(postings, id))[q] == if q.credId == id then 0 else multiset(postings)[q]
  {
    if postings != [] {
      WithoutCount(postings[1..], id, q);
      assert postings == [postings[0]] + postings[1..];
    }
  }

  /** `postings.filter(p => p.credId !== id)` on one token, dropping an emptied list. */
  function DropId(inv: Inverted, token: string, id: string): Inverted {
    if token !in inv then inv
    else
      var filtered := Without(inv[token], id);
      if filtered == [] then inv - {token} else inv[token := filtered]
  }

  lemma DropIdCount(inv: Inverted, token: string, id: string, t: string, q: Posting)
    ensures Count(DropId(inv, token, id), t, q)
            == if t == token && q.credId == id then 0 else Count(inv, t, q)
  {
    WithoutCount(PostingsAt(inv, token), id, q);
  }

  function AddTo(m: Buckets, key: string, id: string): (r: Buckets)
    ensures forall v, i :: Filed(r, v, i) <==> Filed(m, v, i) || (v == key && i == id)
    ensures NoEmptyBuckets(m) ==> NoEmptyBuckets(r)
  {
    m[key := (if key in m then m[key] else {}) + {id}]
  }

  function RemoveFrom(m: Buckets, key: string, id: string): (r: Buckets)
    ensures forall v, i :: Filed(r, v, i) <==> Filed(m, v, i) && !(v == key && i == id)
    ensures NoEmptyBuckets(m) ==> NoEmptyBuckets(r)
  {
    if key !in m then m
    else
      var rest := m[key] - {id};
      assert forall i :: i in m[key] ==> i in rest || i == id;
      if rest == {} then m - {key} else m[key := rest]
  }

  // ---- whole-record updates ----

  ghost predicate PostingsAdded(was: Inverted, now: Inverted, id: string, posted: set<Occurrence>) {
    forall t, q :: Count(now, t, q)
      == Count(was, t, q) + if q.credId == id && Occurrence(t, q.field) in posted then 1 else 0
  }

  ghost predicate HasToken(occurrences: set<Occurrence>, token: string) {
    exists f :: Occurrence(token, f) in occurrences
  }

  ghost predicate PostingsRemoved(was: Inverted, now: Inverted, id: string, dropped: set<Occurrence>) {
    forall t, q :: Count(now, t, q)
      == if q.credId == id && HasToken(dropped, t) then 0 else Count(was, t, q)
  }

  ghost predicate KeysAdded(was: Buckets, now: Buckets, id: string, keys: set<string>) {
    && (NoEmptyBuckets(was) ==> NoEmptyBuckets(now))
    && forall v, i :: Filed(now, v, i) <==> Filed(was, v, i) || (i == id && v in keys)
  }

  ghost predicate KeysRemoved(was: Buckets, now: Buckets, id: string, keys: set<string>) {
    && (NoEmptyBuckets(was) ==> NoEmptyBuckets(now))
    && forall v, i :: Filed(now, v, i) <==> Filed(was, v, i) && !(i == id && v in keys)
  }

  lemma AddedKeepsStep(p: Platform, filing: Filing, was: Buckets, now: Buckets, creds: Store, cred: Credential)
    requires BucketsInStep(p, filing, was, creds) && cred.id !in creds
    requires KeysAdded(was, now, cred.id, KeysOf(p, filing, cred))
    ensures BucketsInStep(p, filing, now, creds[cred.id := cred])
  {
  }

  lemma RemovedKeepsStep(p: Platform, filing: Filing, was: Buckets, now: Buckets, creds: Store, cred: Credential)
    requires BucketsInStep(p, filing, was, creds) && cred.id in creds && creds[cred.id] == cred
    requires KeysRemoved(was, now, cred.id, KeysOf(p, filing, cred))
    ensures BucketsInStep(p, filing, now, creds - {cred.id})
  {
  }

  lemma PostedKeepsStep(p: Platform, was: Inverted, now: Inverted, creds: Store, cred: Credential)
    requires InvertedInStep(p, was, creds) && cred.id !in creds && NoEmptyPostings(now)
    requires PostingsAdded(was, now, cred.id, Occurrences(p, cred))
    ensures InvertedInStep(p, now, creds[cred.id := cred])
  {
  }

  lemma UnpostedKeepsStep(p: Platform, was: Inverted, now: Inverted, creds: Store, cred: Credential)
    requires InvertedInStep(p, was, creds) && NoEmptyPostings(now)
    requires cred.id in creds && creds[cred.id] == cred
    requires PostingsRemoved(was, now, cred.id, Occurrences(p, cred))
    ensures InvertedInStep(p, now, creds - {cred.id})
  {
    forall t, q
      ensures Count(now, t, q) == if Posted(p, creds - {cred.id}, t, q) then 1 else 0
    {
      assert Count(was, t, q) == if Posted(p, creds, t, q) then 1 else 0;
      if q.credId == cred.id && Occurrence(t, q.field) in Occurrences(p, cred) {
        assert HasToken(Occurrences(p, cred), t);
      }
    }
  }

  // ---- bulk loading ----

  /** `credentials.set` in list order: the last record with an id stays. */
  function LastById(creds: seq<Credential>): Store {
    if creds == [] then map[]
    else
      var n := |creds| - 1;
      LastById(creds[..n])[creds[n].id := creds[n]]
  }

  ghost function Multiplicity(p: Platform, creds: seq<Credential>, t: string, q: Posting): nat {
    if creds == [] then 0
    else
      var n := |creds| - 1;
      Multiplicity(p, creds[..n], t, q)
      + if creds[n].id == q.credId && Occurrence(t, q.field) in Occurrences(p, creds[n]) then 1 else 0
  }

  /** Bulk loading posts every record of the list, replaced ones included. */
  ghost predicate PostingsLoaded(p: Platform, inv: Inverted, creds: seq<Credential>) {
    NoEmptyPostings(inv) && forall t, q :: Count(inv, t, q) == Multiplicity(p, creds, t, q)
  }

  ghost predicate FiledByList(p: Platform, filing: Filing, creds: seq<Credential>, v: string, id: string) {
    exists k :: 0 <= k < |creds| && creds[k].id == id && v in KeysOf(p, filing, creds[k])
  }

  ghost predicate BucketsLoaded(p: Platform, filing: Filing, m: Buckets, creds: seq<Credential>) {
    NoEmptyBuckets(m) && forall v, id :: Filed(m, v, id) <==> FiledByList(p, filing, creds, v, id)
  }

  ghost predicate Superseded(creds: seq<Credential>, k: nat)
    requires k < |creds|
  {
    exists j :: k < j < |creds| && creds[j].id == creds[k].id
  }

  ghost predicate TokensKept(p: Platform, creds: seq<Credential>) {
    forall k :: 0 <= k < |creds| && Superseded(creds, k) ==> Occurrences(p, creds[k]) == {}
  }

  ghost predicate KeysKept(p: Platform, filing: Filing, creds: seq<Credential>) {
    forall k :: 0 <= k < |creds| && Superseded(creds, k) ==>
      creds[k].id in LastById(creds) && KeysOf(p, filing, creds[k]) <= KeysOf(p, filing, LastById(creds)[creds[k].id])
  }

  /** No replaced record leaves anything behind: it has no token and no key of its own. */
  ghost predicate LeavesNothingStale(p: Platform, creds: seq<Credential>) {
    TokensKept(p, creds) && forall filing :: KeysKept(p, filing, creds)
  }

  predicate DistinctIds(creds: seq<Credential>) {
    forall j, k :: 0 <= j < k < |creds| ==> creds[j].id != creds[k].id
  }

  lemma DistinctLeavesNothingStale(p: Platform, creds: seq<Credential>)
    requires DistinctIds(creds)
    ensures LeavesNothingStale(p, creds)
  {
  }

  lemma {:induction false} LastByIdFinds(creds: seq<Credential>, id: string)
    ensures id in LastById(creds) <==> exists k :: 0 <= k < |creds| && creds[k].id == id
    ensures id in LastById(creds) ==> exists k :: IsLast(creds, id, k)
  {
    if creds != [] {
      var n := |creds| - 1;
      LastByIdFinds(creds[..n], id);
      if creds[n].id == id {
        assert IsLast(creds, id, n);
      } else if id in LastById(creds[..n]) {
        var k :| IsLast(creds[..n], id, k);
        StillLast(creds, id, k);
      } else {
        forall k | 0 <= k < |creds| ensures creds[k].id != id {
          if k < n { assert creds[..n][k] == creds[k]; }
        }
      }
    }
  }

  /** Record k is the last of its id, and the one that is stored. */
  ghost predicate IsLast(creds: seq<Credential>, id: string, k: nat) {
    && k < |creds| && creds[k].id == id && !Superseded(creds, k)
    && id in LastById(creds) && LastById(creds)[id] == creds[k]
  }

  lemma {:induction false} StillLast(creds: seq<Credential>, id: string, k: nat)
    requires creds != [] && creds[|creds| - 1].id != id && IsLast(creds[..|creds| - 1], id, k)
    ensures IsLast(creds, id, k)
  {
    var n := |creds| - 1;
    assert creds[..n][k] == creds[k];
    forall j | k < j < |creds| ensures creds[j].id != creds[k].id {
      if j < n { assert creds[..n][j] == creds[j]; }
    }
  }

  lemma {:induction false} MultiplicityPositive(p: Platform, creds: seq<Credential>, t: string, q: Posting, k: nat)
    requires k < |creds| && creds[k].id == q.credId && Occurrence(t, q.field) in Occurrences(p, creds[k])
    ensures Multiplicity(p, creds, t, q) >= 1
    ensures Superseded(creds, k) && Posted(p, LastById(creds), t, q) ==> Multiplicity(p, creds, t, q) >= 2
  {
    var n := |creds| - 1;
    if k < n {
      assert creds[..n][k] == creds[k];
      MultiplicityPositive(p, creds[..n], t, q, k);
      if creds[n].id != q.credId && Superseded(creds, k) {
        var j :| k < j < |creds| && creds[j].id == creds[k].id;
        assert creds[..n][j].id == creds[..n][k].id;
      }
    }
  }

  lemma TokensKeptInFront(p: Platform, creds: seq<Credential>)
    requires TokensKept(p, creds) && creds != []
    ensures TokensKept(p, creds[..|creds| - 1])
  {
    var n := |creds| - 1;
    forall k | 0 <= k < n && Superseded(creds[..n], k) ensures Occurrences(p, creds[..n][k]) == {} {
      var j :| k < j < n && creds[..n][j].id == creds[..n][k].id;
      assert creds[j].id == creds[k].id;
    }
  }

  lemma ReplacedWasBare(p: Platform, creds: seq<Credential>)
    requires TokensKept(p, creds) && creds != []
    ensures var n := |creds| - 1;
            creds[n].id in LastById(creds[..n]) ==> Occurrences(p, LastById(creds[..n])[creds[n].id]) == {}
  {
    var n := |creds| - 1;
    var id := creds[n].id;
    if id in LastById(creds[..n]) {
      LastByIdFinds(creds[..n], id);
      var k :| 0 <= k < n && creds[..n][k].id == id && LastById(creds[..n])[id] == creds[..n][k];
      assert creds[n].id == creds[k].id;
      assert Superseded(creds, k);
    }
  }

  lemma {:induction false} MultiplicityClean(p: Platform, creds: seq<Credential>, t: string, q: Posting)
    requires TokensKept(p, creds)
    ensures Multiplicity(p, creds, t, q) == if Posted(p, LastById(creds), t, q) then 1 else 0
  {
    if creds != [] {
      TokensKeptInFront(p, creds);
      MultiplicityClean(p, creds[..|creds| - 1], t, q);
      ReplacedWasBare(p, creds);
    }
  }

  /** After a bulk load the posting lists are in step exactly when replaced records had no token. */
  lemma LoadedPostingsInStep(p: Platform, inv: Inverted, creds: seq<Credential>)
    requires PostingsLoaded(p, inv, creds)
    ensures InvertedInStep(p, inv, LastById(creds))
            <==> TokensKept(p, creds)
  {
    if TokensKept(p, creds) {
      forall t, q ensures Count(inv, t, q) == if Posted(p, LastById(creds), t, q) then 1 else 0 {
        MultiplicityClean(p, creds, t, q);
      }
    } else {
      var k :| 0 <= k < |creds| && Superseded(creds, k) && Occurrences(p, creds[k]) != {};
      var o :| o in Occurrences(p, creds[k]);
      var q := Posting(creds[k].id, o.field);
      MultiplicityPositive(p, creds, o.token, q, k);
      assert Count(inv, o.token, q) == Multiplicity(p, creds, o.token, q);
    }
  }

  /** After a bulk load a bucket map is in step exactly when replaced records had no key of their own. */
  lemma LoadedBucketsInStep(p: Platform, filing: Filing, m: Buckets, creds: seq<Credential>)
    requires BucketsLoaded(p, filing, m, creds)
    ensures BucketsInStep(p, filing, m, LastById(creds)) <==> KeysKept(p, filing, creds)
  {
    var last := LastById(creds);
    forall v, id | id in last && v in KeysOf(p, filing, last[id])
      ensures Filed(m, v, id)
    {
      LastByIdFinds(creds, id);
      assert FiledByList(p, filing, creds, v, id);
    }
    if KeysKept(p, filing, creds) {
      forall v, id | Filed(m, v, id) ensures id in last && v in KeysOf(p, filing, last[id]) {
        var k :| 0 <= k < |creds| && creds[k].id == id && v in KeysOf(p, filing, creds[k]);
        LastByIdFinds(creds, id);
        if !Superseded(creds, k) {
          var j :| 0 <= j < |creds| && creds[j].id == id && !Superseded(creds, j) && last[id] == creds[j];
          assert j == k;
        }
      }
    }
    if BucketsInStep(p, filing, m, last) {
      forall k | 0 <= k < |creds| && Superseded(creds, k)
        ensures creds[k].id in last && KeysOf(p, filing, creds[k]) <= KeysOf(p, filing, last[creds[k].id])
      {
        LastByIdFinds(creds, creds[k].id);
        forall v | v in KeysOf(p, filing, creds[k]) ensures v in KeysOf(p, filing, last[creds[k].id]) {
          assert FiledByList(p, filing, creds, v, creds[k].id);
          assert Filed(m, v, creds[k].id);
        }
      }
    }
  }

  // ---- posting one record, pair by pair ----

  /** The remembered texts are those of the pairs handled so far. */
  ghost predicate SeenExactly(seen: set<string>, handled: set<Occurrence>) {
    && (forall o :: o in handled ==> IsToken(o.token))
    && forall s :: s in seen <==> exists o :: o in handled && SeenKey(o) == s
  }

  lemma SeenDecides(seen: set<string>, handled: set<Occurrence>, o: Occurrence)
    requires SeenExactly(seen, handled) && IsToken(o.token)
    ensures SeenKey(o) in seen <==> o in handled
    ensures SeenExactly(seen + {SeenKey(o)}, handled + {o})
  {
    if SeenKey(o) in seen {
      var h :| h in handled && SeenKey(h) == SeenKey(o);
      SeenKeyInjective(h, o);
    }
    forall s ensures s in seen + {SeenKey(o)} <==> exists h :: h in handled + {o} && SeenKey(h) == s {
      if s in seen {
        var h :| h in handled && SeenKey(h) == s;
        assert h in handled + {o};
      }
    }
  }

  /** Progress of posting a record: which pairs are in, and how `seen` remembers them. */
  ghost predicate PostingUpTo(base: Inverted, now: Inverted, seen: set<string>, id: string, posted: set<Occurrence>) {
    NoEmptyPostings(now) && PostingsAdded(base, now, id, posted) && SeenExactly(seen, posted)
  }

  ghost predicate UnpostingUpTo(
    base: Inverted, now: Inverted, seen: set<string>, id: string, dropped: set<Occurrence>)
  {
    NoEmptyPostings(now) && PostingsRemoved(base, now, id, dropped) && SeenExactly(seen, dropped)
  }

  lemma PushAdds(base: Inverted, was: Inverted, id: string, posted: set<Occurrence>, o: Occurrence)
    requires PostingsAdded(base, was, id, posted) && o !in posted
    ensures PostingsAdded(base, Push(was, o.token, Posting(id, o.field)), id, posted + {o})
  {
    var now := Push(was, o.token, Posting(id, o.field));
    forall t, q
      ensures Count(now, t, q)
        == Count(base, t, q) + if q.credId == id && Occurrence(t, q.field) in posted + {o} then 1 else 0
    {
      PushCount(was, o.token, Posting(id, o.field), t, q);
    }
  }

  lemma PostOne(base: Inverted, was: Inverted, seen: set<string>, id: string, posted: set<Occurrence>, o: Occurrence)
    requires PostingUpTo(base, was, seen, id, posted) && IsToken(o.token)
    ensures SeenKey(o) in seen ==> PostingUpTo(base, was, seen, id, posted + {o})
    ensures SeenKey(o) !in seen ==>
      PostingUpTo(base, Push(was, o.token, Posting(id, o.field)), seen + {SeenKey(o)}, id, posted + {o})
  {
    SeenDecides(seen, posted, o);
    if SeenKey(o) in seen {
      assert posted + {o} == posted;
    } else {
      PushAdds(base, was, id, posted, o);
    }
  }

  lemma DropRemoves(base: Inverted, was: Inverted, id: string, dropped: set<Occurrence>, o: Occurrence)
    requires PostingsRemoved(base, was, id, dropped)
    ensures PostingsRemoved(base, DropId(was, o.token, id), id, dropped + {o})
  {
    var now := DropId(was, o.token, id);
    forall t, q
      ensures Count(now, t, q) == if q.credId == id && HasToken(dropped + {o}, t) then 0 else Count(base, t, q)
    {
      DropIdCount(was, o.token, id, t, q);
      if HasToken(dropped, t) {
        var f :| Occurrence(t, f) in dropped;
        assert Occurrence(t, f) in dropped + {o};
      }
      if t == o.token { assert Occurrence(t, o.field) in dropped + {o}; }
    }
  }

  lemma DropOne(base: Inverted, was: Inverted, seen: set<string>, id: string, dropped: set<Occurrence>, o: Occurrence)
    requires UnpostingUpTo(base, was, seen, id, dropped) && IsToken(o.token)
    ensures SeenKey(o) in seen ==> UnpostingUpTo(base, was, seen, id, dropped + {o})
    ensures SeenKey(o) !in seen ==>
      UnpostingUpTo(base, DropId(was, o.token, id), seen + {SeenKey(o)}, id, dropped + {o})
  {
    SeenDecides(seen, dropped, o);
    if SeenKey(o) in seen {
      assert dropped + {o} == dropped;
    } else {
      DropRemoves(base, was, id, dropped, o);
    }
  }

  lemma TaggedOneMore(tokens: seq<string>, j: nat, field: string)
    requires j < |tokens|
    ensures Tagged(tokens[..j + 1], field) == Tagged(tokens[..j], field) + {Occurrence(tokens[j], field)}
  {
    assert tokens[..j + 1] == tokens[..j] + [tokens[j]];
  }

  lemma OccurrencesOneMore(p: Platform, fields: seq<Field>, i: nat)
    requires i < |fields|
    ensures OccurrencesIn(p, fields[..i + 1])
            == OccurrencesIn(p, fields[..i]) + Tagged(Tokenize(p, fields[i].text), fields[i].name)
  {
    assert fields[..i + 1][..i] == fields[..i];
  }

  // ---- all indexes together ----

  type FieldIndex = map<IndexedField, Buckets>

  function BucketsOf(fi: FieldIndex, ji: Buckets, filing: Filing): Buckets {
    match filing
    case ByField(f) => if f in fi then fi[f] else map[]
    case ByJurisdiction => ji
  }

  ghost predicate AllInStep(p: Platform, inv: Inverted, fi: FieldIndex, ji: Buckets, creds: Store) {
    && InvertedInStep(p, inv, creds)
    && forall filing :: BucketsInStep(p, filing, BucketsOf(fi, ji, filing), creds)
  }

  lemma EmptyInStep(p: Platform)
    ensures AllInStep(p, map[], EMPTY_FIELD_INDEX, map[], map[])
  {
  }

  const EMPTY_FIELD_INDEX: FieldIndex := map[Issuer := map[], IssuerType := map[], CredentialType := map[],
    Status := map[]]

  ghost predicate AllAdded(p: Platform, inv: Inverted, fi: FieldIndex, ji: Buckets,
                           inv': Inverted, fi': FieldIndex, ji': Buckets, cred: Credential) {
    && NoEmptyPostings(inv') && PostingsAdded(inv, inv', cred.id, Occurrences(p, cred))
    && forall filing :: KeysAdded(BucketsOf(fi, ji, filing), BucketsOf(fi', ji', filing), cred.id,
      KeysOf(p, filing, cred))
  }

  lemma AddKeepsStep(p: Platform, inv: Inverted, fi: FieldIndex, ji: Buckets,
                     inv': Inverted, fi': FieldIndex, ji': Buckets, creds: Store, cred: Credential)
    requires AllInStep(p, inv, fi, ji, creds) && cred.id !in creds
    requires AllAdded(p, inv, fi, ji, inv', fi', ji', cred)
    ensures AllInStep(p, inv', fi', ji', creds[cred.id := cred])
  {
    PostedKeepsStep(p, inv, inv', creds, cred);
    forall filing ensures BucketsInStep(p, filing, BucketsOf(fi', ji', filing), creds[cred.id := cred]) {
      AddedKeepsStep(p, filing, BucketsOf(fi, ji, filing), BucketsOf(fi', ji', filing), creds, cred);
    }
  }

  ghost predicate AllRemoved(p: Platform, inv: Inverted, fi: FieldIndex, ji: Buckets,
                             inv': Inverted, fi': FieldIndex, ji': Buckets, cred: Credential) {
    && NoEmptyPostings(inv') && PostingsRemoved(inv, inv', cred.id, Occurrences(p, cred))
    && forall filing :: KeysRemoved(BucketsOf(fi, ji, filing), BucketsOf(fi', ji', filing), cred.id,
      KeysOf(p, filing, cred))
  }

  lemma RemoveKeepsStep(p: Platform, inv: Inverted, fi: FieldIndex, ji: Buckets,
                        inv': Inverted, fi': FieldIndex, ji': Buckets, creds: Store, cred: Credential)
    requires AllInStep(p, inv, fi, ji, creds) && cred.id in creds && creds[cred.id] == cred
    requires AllRemoved(p, inv, fi, ji, inv', fi', ji', cred)
    ensures AllInStep(p, inv', fi', ji', creds - {cred.id})
  {
    UnpostedKeepsStep(p, inv, inv', creds, cred);
    forall filing ensures BucketsInStep(p, filing, BucketsOf(fi', ji', filing), creds - {cred.id}) {
      RemovedKeepsStep(p, filing, BucketsOf(fi, ji, filing), BucketsOf(fi', ji', filing), creds, cred);
    }
  }

  ghost predicate AllLoaded(p: Platform, inv: Inverted, fi: FieldIndex, ji: Buckets, creds: seq<Credential>) {
    && PostingsLoaded(p, inv, creds)
    && forall filing :: BucketsLoaded(p, filing, BucketsOf(fi, ji, filing), creds)
  }

  lemma FiledOneMore(p: Platform, filing: Filing, was: Buckets, now: Buckets, creds: seq<Credential>, cred: Credential)
    requires BucketsLoaded(p, filing, was, creds)
    requires KeysAdded(was, now, cred.id, KeysOf(p, filing, cred))
    ensures BucketsLoaded(p, filing, now, creds + [cred])
  {
    var more := creds + [cred];
    forall v, id
      ensures FiledByList(p, filing, more, v, id)
              <==> FiledByList(p, filing, creds, v, id) || (id == cred.id && v in KeysOf(p, filing, cred))
    {
      if FiledByList(p, filing, creds, v, id) {
        var k :| 0 <= k < |creds| && creds[k].id == id && v in KeysOf(p, filing, creds[k]);
        assert more[k].id == id;
      }
      if id == cred.id && v in KeysOf(p, filing, cred) { assert more[|creds|].id == id; }
    }
  }

  lemma LoadOneMore(p: Platform, inv: Inverted, fi: FieldIndex, ji: Buckets,
                    inv': Inverted, fi': FieldIndex, ji': Buckets, creds: seq<Credential>, cred: Credential)
    requires AllLoaded(p, inv, fi, ji, creds)
    requires AllAdded(p, inv, fi, ji, inv', fi', ji', cred)
    ensures AllLoaded(p, inv', fi', ji', creds + [cred])
  {
    assert (creds + [cred])[..|creds|] == creds;
    forall filing ensures BucketsLoaded(p, filing, BucketsOf(fi', ji', filing), creds + [cred]) {
      FiledOneMore(p, filing, BucketsOf(fi, ji, filing), BucketsOf(fi', ji', filing), creds, cred);
    }
  }

  /** A bulk load leaves every index in step exactly when no replaced record leaves anything behind. */
  lemma LoadedInStep(p: Platform, inv: Inverted, fi: FieldIndex, ji: Buckets, creds: seq<Credential>)
    requires AllLoaded(p, inv, fi, ji, creds)
    ensures AllInStep(p, inv, fi, ji, LastById(creds)) <==> LeavesNothingStale(p, creds)
  {
    LoadedPostingsInStep(p, inv, creds);
    forall filing
      ensures BucketsInStep(p, filing, BucketsOf(fi, ji, filing), LastById(creds)) <==> KeysKept(p, filing, creds)
    {
      LoadedBucketsInStep(p, filing, BucketsOf(fi, ji, filing), creds);
    }
  }

  function Example(issuer: string): Credential {
    Credential("1", "s", issuer, "", 0, [], false, false, 0, "", "", "", 1, "", None)
  }

  /** Loading one id twice under two issuers leaves it filed under the first. */
  lemma ReloadLeavesStale(p: Platform)
    ensures !LeavesNothingStale(p, [Example("a"), Example("b")])
  {
    var creds := [Example("a"), Example("b")];
    assert creds[1].id == creds[0].id;
    assert Superseded(creds, 0);
    assert LastById(creds)["1"] == Example("b");
    assert "a" in KeysOf(p, ByField(Issuer), creds[0]) && "a" !in KeysOf(p, ByField(Issuer), Example("b"));
    assert !KeysKept(p, ByField(Issuer), creds);
  }
}
