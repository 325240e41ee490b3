/** The search service object: index maintenance and search over the indexes. */
module SearchEngine {
  import opened JsText
  import opened Credentials
  import opened SearchIndexes
  import opened Queries
  import opened Pages

  const INDEXED_FIELDS := [Issuer, IssuerType, CredentialType, Status]

  /** Operations of an index history. */
  datatype Op = Load(creds: seq<Credential>) | Upsert(cred: Credential) | Delete(id: string) | Clear

  function StoreAfter(store: Store, op: Op): Store {
    match op
    case Load(creds) => LastById(creds)
    case Upsert(cred) => store[cred.id := cred]
    case Delete(id) => store - {id}
    case Clear => map[]
  }

  function StoreAfterAll(store: Store, ops: seq<Op>): Store {
    if ops == [] then store else StoreAfter(StoreAfterAll(store, ops[..|ops| - 1]), ops[|ops| - 1])
  }

  /** What an operation says about an id: the record it stores, that it is gone, or nothing. */
  ghost predicate Says(op: Op, id: string, record: Option<Credential>) {
    match op
    case Load(creds) =>
      (match record
       case Some(c) => exists k :: 0 <= k < |creds| && creds[k] == c && c.id == id && !Superseded(creds, k)
       case None => forall k :: 0 <= k < |creds| ==> creds[k].id != id)
    case Upsert(cred) => cred.id == id && record == Some(cred)
    case Delete(gone) => gone == id && record == None
    case Clear => record == None
  }

  predicate Silent(op: Op, id: string) {
    (op.Upsert? && op.cred.id != id) || (op.Delete? && op.id != id)
  }

  ghost predicate LatestSays(ops: seq<Op>, id: string, record: Option<Credential>, i: nat) {
    i < |ops| && Says(ops[i], id, record) && forall j :: i < j < |ops| ==> Silent(ops[j], id)
  }

  function Stored(store: Store, id: string): Option<Credential> { if id in store then Some(store[id]) else None }

  lemma {:induction false} StepSays(store: Store, op: Op, id: string)
    ensures if Silent(op, id) then Stored(StoreAfter(store, op), id) == Stored(store, id)
            else Says(op, id, Stored(StoreAfter(store, op), id))
  {
    if op.Load? {
      LastByIdFinds(op.creds, id);
      if id in LastById(op.creds) { var k :| IsLast(op.creds, id, k); }
    }
  }

  /** After any history, the store holds for each id what the latest operation concerning it said. */
  lemma {:induction false} LatestOpDecides(store: Store, ops: seq<Op>, id: string)
    ensures var record := Stored(StoreAfterAll(store, ops), id);
            || ((forall i :: 0 <= i < |ops| ==> Silent(ops[i], id)) && record == Stored(store, id))
            || (exists i :: LatestSays(ops, id, record, i))
  {
    if ops != [] {
      var n := |ops| - 1;
      var front := ops[..n];
      LatestOpDecides(store, front, id);
      StepSays(StoreAfterAll(store, front), ops[n], id);
      if Silent(ops[n], id) {
        var record := Stored(StoreAfterAll(store, ops), id);
        if i :| LatestSays(front, id, record, i) { assert LatestSays(ops, id, record, i); }
      } else {
        assert LatestSays(ops, id, Stored(StoreAfterAll(store, ops), id), n);
      }
    }
  }

  datatype SearchResult = SearchResult(page: Page, facets: map<Facet, map<string, nat>>, total: nat)

  class SearchIndex {
    const p: Platform
    var credentials: Store
    var inverted: Inverted
    var fieldIndex: FieldIndex
    var jurisdictionIndex: Buckets
    var lastIndexed: Option<int>

    /** Every index holds exactly what the credential map calls for. */
    ghost predicate Consistent()
      reads this
    {
      && (forall id :: id in credentials ==> credentials[id].id == id)
      && AllInStep(p, inverted, fieldIndex, jurisdictionIndex, credentials)
    }

    constructor (platform: Platform)
      ensures Consistent() && credentials == map[] && p == platform && lastIndexed == None
    {
      p := platform;
      credentials, inverted, fieldIndex, jurisdictionIndex := map[], map[], EMPTY_FIELD_INDEX, map[];
      lastIndexed := None;
      EmptyInStep(platform);
    }

    // ---- posting lists ----

    method AddToInvertedIndex(cred: Credential)
      requires NoEmptyPostings(inverted)
      modifies this`inverted
      ensures NoEmptyPostings(inverted)
      ensures PostingsAdded(old(inverted), inverted, cred.id, Occurrences(p, cred))
    {
      var fields := ExtractFields(p, cred);
      var seen: set<string> := {};
      for i := 0 to |fields|
        invariant PostingUpTo(old(inverted), inverted, seen, cred.id, OccurrencesIn(p, fields[..i]))
      {
        var tokens, field := Tokenize(p, fields[i].text), fields[i].name;
        ghost var posted := OccurrencesIn(p, fields[..i]);
        for j := 0 to |tokens|
          invariant PostingUpTo(old(inverted), inverted, seen, cred.id, posted + Tagged(tokens[..j], field))
        {
          var o := Occurrence(tokens[j], field);
          PostOne(old(inverted), inverted, seen, cred.id, posted + Tagged(tokens[..j], field), o);
          TaggedOneMore(tokens, j, field);
          assert posted + Tagged(tokens[..j + 1], field) == posted + Tagged(tokens[..j], field) + {o};
          if SeenKey(o) !in seen {
            seen := seen + {SeenKey(o)};
            inverted := Push(inverted, o.token, Posting(cred.id, o.field));
          }
        }
        assert tokens[..|tokens|] == tokens;
        OccurrencesOneMore(p, fields, i);
      }
      assert fields[..|fields|] == fields;
    }

    method RemoveFromInvertedIndex(cred: Credential)
      requires NoEmptyPostings(inverted)
      modifies this`inverted
      ensures NoEmptyPostings(inverted)
      ensures PostingsRemoved(old(inverted), inverted, cred.id, Occurrences(p, cred))
    {
      var fields := ExtractFields(p, cred);
      var seen: set<string> := {};
      for i := 0 to |fields|
        invariant UnpostingUpTo(old(inverted), inverted, seen, cred.id, OccurrencesIn(p, fields[..i]))
      {
        var tokens, field := Tokenize(p, fields[i].text), fields[i].name;
        ghost var dropped := OccurrencesIn(p, fields[..i]);
        for j := 0 to |tokens|
          invariant UnpostingUpTo(old(inverted), inverted, seen, cred.id, dropped + Tagged(tokens[..j], field))
        {
          var o := Occurrence(tokens[j], field);
          DropOne(old(inverted), inverted, seen, cred.id, dropped + Tagged(tokens[..j], field), o);
          TaggedOneMore(tokens, j, field);
          assert dropped + Tagged(tokens[..j + 1], field) == dropped + Tagged(tokens[..j], field) + {o};
          if SeenKey(o) !in seen {
            seen := seen + {SeenKey(o)};
            inverted := DropId(inverted, o.token, cred.id);
          }
        }
        assert tokens[..|tokens|] == tokens;
        OccurrencesOneMore(p, fields, i);
      }
      assert fields[..|fields|] == fields;
    }

    // ---- field and jurisdiction buckets ----

    method AddToFieldIndex(cred: Credential)
      modifies this`fieldIndex
      ensures forall f, ji ::
        KeysAdded(BucketsOf(old(fieldIndex), ji, ByField(f)), BucketsOf(fieldIndex, ji, ByField(f)),
                  cred.id, KeysOf(p, ByField(f), cred))
    {
      for i := 0 to |INDEXED_FIELDS|
        invariant forall f, ji :: f in INDEXED_FIELDS[..i] ==>
          KeysAdded(BucketsOf(old(fieldIndex), ji, ByField(f)), BucketsOf(fieldIndex, ji, ByField(f)),
                    cred.id, KeysOf(p, ByField(f), cred))
        invariant forall f, ji :: f !in INDEXED_FIELDS[..i] ==>
          BucketsOf(fieldIndex, ji, ByField(f)) == BucketsOf(old(fieldIndex), ji, ByField(f))
      {
        var field := INDEXED_FIELDS[i];
        var m := if field in fieldIndex then fieldIndex[field] else map[];
        assert INDEXED_FIELDS[..i + 1] == INDEXED_FIELDS[..i] + [field];
        assert field !in INDEXED_FIELDS[..i];
        fieldIndex := fieldIndex[field := AddTo(m, FieldIndexValue(cred, field), cred.id)];
      }
      AllFieldsIndexed();
    }

    method RemoveFromFieldIndex(cred: Credential)
      modifies this`fieldIndex
      ensures forall f, ji ::
        KeysRemoved(BucketsOf(old(fieldIndex), ji, ByField(f)), BucketsOf(fieldIndex, ji, ByField(f)),
                    cred.id, KeysOf(p, ByField(f), cred))
    {
      for i := 0 to |INDEXED_FIELDS|
        invariant forall f, ji :: f in INDEXED_FIELDS[..i] ==>
          KeysRemoved(BucketsOf(old(fieldIndex), ji, ByField(f)), BucketsOf(fieldIndex, ji, ByField(f)),
                      cred.id, KeysOf(p, ByField(f), cred))
        invariant forall f, ji :: f !in INDEXED_FIELDS[..i] ==>
          BucketsOf(fieldIndex, ji, ByField(f)) == BucketsOf(old(fieldIndex), ji, ByField(f))
      {
        var field := INDEXED_FIELDS[i];
        var m := if field in fieldIndex then fieldIndex[field] else map[];
        assert INDEXED_FIELDS[..i + 1] == INDEXED_FIELDS[..i] + [field];
        assert field !in INDEXED_FIELDS[..i];
        fieldIndex := fieldIndex[field := RemoveFrom(m, FieldIndexValue(cred, field), cred.id)];
      }
      AllFieldsIndexed();
    }

    method AddToJurisdictionIndex(cred: Credential)
      modifies this`jurisdictionIndex
      ensures KeysAdded(old(jurisdictionIndex), jurisdictionIndex, cred.id, KeysOf(p, ByJurisdiction, cred))
    {
      var jurisdiction := JurisdictionOf(p, cred);
      if jurisdiction == "" { return; }
      var levels := JurisdictionAncestors(p, jurisdiction);
      for i := 0 to |levels|
        invariant KeysAdded(old(jurisdictionIndex), jurisdictionIndex, cred.id, set v | v in levels[..i])
      {
        jurisdictionIndex := AddTo(jurisdictionIndex, levels[i], cred.id);
        assert levels[..i + 1] == levels[..i] + [levels[i]];
      }
      assert levels[..|levels|] == levels;
    }

    method RemoveFromJurisdictionIndex(cred: Credential)
      modifies this`jurisdictionIndex
      ensures KeysRemoved(old(jurisdictionIndex), jurisdictionIndex, cred.id, KeysOf(p, ByJurisdiction, cred))
    {
      var jurisdiction := JurisdictionOf(p, cred);
      if jurisdiction == "" { return; }
      var levels := JurisdictionAncestors(p, jurisdiction);
      for i := 0 to |levels|
        invariant KeysRemoved(old(jurisdictionIndex), jurisdictionIndex, cred.id, set v | v in levels[..i])
      {
        jurisdictionIndex := RemoveFrom(jurisdictionIndex, levels[i], cred.id);
        assert levels[..i + 1] == levels[..i] + [levels[i]];
      }
      assert levels[..|levels|] == levels;
    }

    // ---- whole records ----

    method AddToIndexes(cred: Credential)
      requires NoEmptyPostings(inverted)
      modifies this`inverted, this`fieldIndex, this`jurisdictionIndex
      ensures AllAdded(p, old(inverted), old(fieldIndex), old(jurisdictionIndex),
                       inverted, fieldIndex, jurisdictionIndex, cred)
    {
      AddToInvertedIndex(cred);
      AddToFieldIndex(cred);
      AddToJurisdictionIndex(cred);
    }

    method RemoveFromIndexes(cred: Credential)
      requires NoEmptyPostings(inverted)
      modifies this`inverted, this`fieldIndex, this`jurisdictionIndex
      ensures AllRemoved(p, old(inverted), old(fieldIndex), old(jurisdictionIndex),
                         inverted, fieldIndex, jurisdictionIndex, cred)
    {
      RemoveFromInvertedIndex(cred);
      RemoveFromFieldIndex(cred);
      RemoveFromJurisdictionIndex(cred);
    }

    method RemoveCredential(id: string)
      requires Consistent()
      modifies this`inverted, this`fieldIndex, this`jurisdictionIndex, this`credentials
      ensures Consistent() && credentials == old(credentials) - {id}
    {
      if id in credentials {
        var existing := credentials[id];
        RemoveFromIndexes(existing);
        RemoveKeepsStep(p, old(inverted), old(fieldIndex), old(jurisdictionIndex),
                        inverted, fieldIndex, jurisdictionIndex, credentials, existing);
        credentials := credentials - {id};
      }
    }

    /** Add or replace one credential. */
    method IndexCredential(cred: Credential, now: int)
      requires Consistent()
      modifies this
      ensures Consistent() && credentials == old(credentials)[cred.id := cred]
      ensures lastIndexed == if old(lastIndexed).Some? then old(lastIndexed) else Some(now)
    {
      RemoveCredential(cred.id);
      ghost var inv, fi, ji, creds := inverted, fieldIndex, jurisdictionIndex, credentials;
      credentials := credentials[cred.id := cred];
      AddToIndexes(cred);
      AddKeepsStep(p, inv, fi, ji, inverted, fieldIndex, jurisdictionIndex, creds, cred);
      if lastIndexed.None? { lastIndexed := Some(now); }
    }

    method ClearAll()
      modifies this
      ensures Consistent() && credentials == map[] && lastIndexed == None
    {
      credentials, inverted, fieldIndex, jurisdictionIndex := map[], map[], EMPTY_FIELD_INDEX, map[];
      lastIndexed := None;
      EmptyInStep(p);
    }

    /**
     Build the indexes from a list. A list may repeat an id; the indexes are in step with
     the resulting map exactly when no replaced record leaves anything behind.
     */
    method IndexCredentials(creds: seq<Credential>, now: int)
      modifies this
      ensures credentials == LastById(creds) && lastIndexed == Some(now)
      ensures AllLoaded(p, inverted, fieldIndex, jurisdictionIndex, creds)
      ensures Consistent() <==> LeavesNothingStale(p, creds)
    {
      credentials, inverted, fieldIndex, jurisdictionIndex := map[], map[], EMPTY_FIELD_INDEX, map[];
      NothingLoaded(p);
      for i := 0 to |creds|
        invariant credentials == LastById(creds[..i])
        invariant forall id :: id in credentials ==> credentials[id].id == id
        invariant AllLoaded(p, inverted, fieldIndex, jurisdictionIndex, creds[..i])
      {
        ghost var inv, fi, ji := inverted, fieldIndex, jurisdictionIndex;
        credentials := credentials[creds[i].id := creds[i]];
        AddToIndexes(creds[i]);
        LoadOneMore(p, inv, fi, ji, inverted, fieldIndex, jurisdictionIndex, creds[..i], creds[i]);
        assert creds[..i + 1] == creds[..i] + [creds[i]];
      }
      assert creds[..|creds|] == creds;
      lastIndexed := Some(now);
      LoadedInStep(p, inverted, fieldIndex, jurisdictionIndex, creds);
    }

    // ---- search ----

    /** Ids posted under any token related to one query token: the exact list, then a vocabulary scan. */
    method LookupToken(query: string) returns (matches: set<string>)
      requires Consistent()
      ensures forall id :: id in matches <==> id in credentials && TextMatch(p, credentials[id], [query])
    {
      matches := {};
      if query in inverted {
        matches := set i | 0 <= i < |inverted[query]| :: inverted[query][i].credId;
      }
      assert RelatedTo({query}, query) == {query};
      var rest := inverted.Keys - {query};
      ghost var scanned := {query};
      while rest != {}
        invariant rest <= inverted.Keys && query !in rest
        invariant scanned !! rest && scanned + rest == inverted.Keys + {query}
        invariant forall id :: id in matches <==> PostedUnder(inverted, RelatedTo(scanned, query), id)
        decreases rest
      {
        var token :| token in rest;
        if Includes(token, query) || Includes(query, token) {
          matches := matches + set i | 0 <= i < |inverted[token]| :: inverted[token][i].credId;
        }
        ScanOneMore(inverted, scanned, token, query);
        rest := rest - {token};
        scanned := scanned + {token};
      }
      forall id ensures id in matches <==> id in credentials && TextMatch(p, credentials[id], [query]) {
        PostedUnderMeans(p, inverted, credentials, scanned, query, id);
      }
    }

    /** Ids matching some query token, or all of them; every id when there is no token. */
    method LookupTokens(queries: seq<string>, requireAll: bool) returns (ids: set<string>)
      requires Consistent()
      ensures queries == [] ==> ids == credentials.Keys
      ensures queries != [] && !requireAll ==>
        forall id :: id in ids <==> id in credentials && TextMatch(p, credentials[id], queries)
      ensures queries != [] && !requireAll ==>
        forall id :: id in ids <==> id in credentials && Score(p, credentials[id], queries) > 0.0
      ensures queries != [] && requireAll ==>
        forall id :: id in ids <==> id in credentials && forall q :: q in queries ==> TextMatch(p, credentials[id], [q])
    {
      if queries == [] { return credentials.Keys; }
      ids := if requireAll then credentials.Keys else {};
      for i := 0 to |queries|
        invariant !requireAll ==>
          forall id :: id in ids <==> id in credentials && TextMatch(p, credentials[id], queries[..i])
        invariant requireAll ==> forall id :: id in ids <==>
          id in credentials && forall q :: q in queries[..i] ==> TextMatch(p, credentials[id], [q])
      {
        var matches := LookupToken(queries[i]);
        assert queries[..i + 1] == queries[..i] + [queries[i]];
        ids := if requireAll then ids * matches else ids + matches;
        forall id | id in credentials {
          TextMatchJoin(p, credentials[id], queries[..i], [queries[i]]);
        }
      }
      assert queries[..|queries|] == queries;
      forall id | id in credentials { ScorePositive(p, credentials[id], queries); }
    }

    /** One index lookup, intersected with the candidates so far. */
    method NarrowByField(candidates: Option<set<string>>, n: Narrowing) returns (narrowed: Option<set<string>>)
      requires Consistent()
      ensures n.values.None? ==> narrowed == candidates
      ensures n.values.Some? ==> narrowed.Some? && forall id ::
        id in narrowed.value <==>
        (candidates.Some? ==> id in candidates.value) && id in credentials && KeyWanted(p, credentials[id], n)
    {
      if n.values.None? { return candidates; }
      var m, values := BucketsOf(fieldIndex, jurisdictionIndex, n.filing), n.values.value;
      var union: set<string> := {};
      for i := 0 to |values|
        invariant forall id :: id in union <==> exists k :: 0 <= k < i && Filed(m, values[k], id)
      {
        union := union + if values[i] in m then m[values[i]] else {};
      }
      assert forall id :: id in union <==> id in credentials && KeyWanted(p, credentials[id], n) by {
        assert BucketsInStep(p, n.filing, m, credentials);
      }
      narrowed := Some(if candidates.Some? then candidates.value * union else union);
    }

    /** Candidate selection: text lookup first, then one lookup per structural filter. */
    method SelectCandidates(o: Options) returns (ids: set<string>)
      requires Consistent()
      ensures forall id :: id in ids <==> id in credentials && Narrowed(p, credentials[id], o)
    {
      var candidates: Option<set<string>> := None;
      var queries := QueryTokens(p, o);
      if |queries| > 0 {
        var found := LookupTokens(queries, false);
        candidates := Some(found);
      }
      var steps := Narrowings(p, o);
      for i := 0 to |steps|
        invariant candidates.None? ==>
          queries == [] && forall n :: n in steps[..i] ==> n.values.None?
        invariant candidates.Some? ==> forall id :: id in candidates.value <==>
          id in credentials && TextWanted(p, credentials[id], o) && KeysWanted(p, credentials[id], steps[..i])
      {
        assert steps[..i + 1] == steps[..i] + [steps[i]];
        forall cred
          ensures KeysWanted(p, cred, steps[..i + 1]) <==>
            KeysWanted(p, cred, steps[..i]) && KeyWanted(p, cred, steps[i])
        {
          KeysWantedSnoc(p, cred, steps[..i], steps[i]);
        }
        candidates := NarrowByField(candidates, steps[i]);
      }
      assert steps[..|steps|] == steps;
      ids := if candidates.Some? then candidates.value else credentials.Keys;
    }

    /** Filter pass and zero-score drop over the candidates. */
    method Matches(o: Options) returns (matched: seq<Credential>)
      requires Consistent()
      ensures Lists(matched, credentials, Survivors(p, credentials, o))
    {
      var queries := QueryTokens(p, o);
      var rest := SelectCandidates(o);
      ghost var candidates := rest;
      matched := [];
      ghost var kept: set<string> := {};
      while rest != {}
        invariant rest <= candidates
        invariant forall id :: id in kept <==> id in candidates - rest && Wanted(p, credentials[id], o)
        invariant Lists(matched, credentials, kept)
        decreases rest
      {
        var id :| id in rest;
        var cred := credentials[id];
        NarrowThenFilterIsScan(p, cred, o);
        var score := ScoreCredential(p, cred, queries);
        assert queries == [] || score > 0.0;
        if FilterPass(p, cred, o) && (queries == [] || score > 0.0) {
          ListsOneMore(matched, credentials, kept, id);
          matched := matched + [cred];
          kept := kept + {id};
        }
        rest := rest - {id};
      }
      CandidatesCoverSurvivors(p, credentials, o, candidates);
      assert kept == Survivors(p, credentials, o);
    }

    /** How often each value of a facet occurs. */
    static method CountFacet(p: Platform, records: seq<Credential>, facet: Facet) returns (counts: map<string, nat>)
      ensures CountsOf(p, records, facet, counts)
    {
      counts := map[];
      for i := 0 to |records|
        invariant CountsOf(p, records[..i], facet, counts)
      {
        var v := FacetValue(p, records[i], facet);
        assert records[..i + 1][..i] == records[..i];
        counts := counts[v := (if v in counts then counts[v] else 0) + 1];
      }
      assert records[..|records|] == records;
    }

    static method CountFacets(p: Platform, records: seq<Credential>, facets: set<Facet>)
      returns (counted: map<Facet, map<string, nat>>)
      ensures counted.Keys == facets
      ensures forall f :: f in facets ==> CountsOf(p, records, f, counted[f])
    {
      counted := map[];
      var rest := facets;
      while rest != {}
        invariant rest <= facets && counted.Keys == facets - rest
        invariant forall f :: f in counted ==> CountsOf(p, records, f, counted[f])
        decreases rest
      {
        var f :| f in rest;
        var counts := CountFacet(p, records, f);
        counted := counted[f := counts];
        rest := rest - {f};
      }
    }

    /**
     A search: the matches of the plain scan, sorted, one page of them, with their number
     and facet counts.
     */
    method Search(o: Options, facets: set<Facet>) returns (result: SearchResult, ghost matched: seq<Credential>)
      requires Consistent()
      ensures IsAnswer(p, credentials, o, matched, result.page)
      ensures result.total == |Survivors(p, credentials, o)|
      ensures result.facets.Keys == facets
      ensures forall f :: f in facets ==> CountsMatches(p, credentials, o, f, result.facets[f])
      ensures forall f :: f in facets ==> SumOf(result.facets[f], result.facets[f].Keys) == result.total
    {
      var unsorted := Matches(o);
      var order := OrderOf(p, o);
      var sorted := Sort(p, order, unsorted);
      SortSorts(p, order, unsorted);
      ListsPermuted(unsorted, sorted, credentials, Survivors(p, credentials, o));
      matched := sorted;
      var counted := CountFacets(p, sorted, facets);
      forall f | f in facets
        ensures CountsMatches(p, credentials, o, f, counted[f]) && SumOf(counted[f], counted[f].Keys) == |sorted|
      {
        CountsOfMatches(p, sorted, credentials, o, f, counted[f]);
        FacetCountsSumToTotal(p, sorted, f, counted[f]);
      }
      var page := TakePage(KeyOf(p, o.sortBy), sorted, o.cursor, o.limit);
      result := SearchResult(page, counted, |sorted|);
    }

    /** Any history of operations whose bulk loads leave nothing stale keeps every index in step. */
    method Replay(ops: seq<Op>, now: int)
      requires Consistent()
      requires forall i :: 0 <= i < |ops| && ops[i].Load? ==> LeavesNothingStale(p, ops[i].creds)
      modifies this
      ensures Consistent()
      ensures credentials == StoreAfterAll(old(credentials), ops)
      ensures forall filing :: BucketsOf(fieldIndex, jurisdictionIndex, filing) == Rebuilt(p, filing, credentials)
    {
      for i := 0 to |ops|
        invariant Consistent() && credentials == StoreAfterAll(old(credentials), ops[..i])
      {
        match ops[i] {
          case Load(creds) => IndexCredentials(creds, now);
          case Upsert(cred) => IndexCredential(cred, now);
          case Delete(id) => RemoveCredential(id);
          case Clear => ClearAll();
        }
        assert ops[..i + 1][..i] == ops[..i];
      }
      assert ops[..|ops|] == ops;
      forall filing ensures BucketsOf(fieldIndex, jurisdictionIndex, filing) == Rebuilt(p, filing, credentials) {
        InStepIsRebuilt(p, filing, BucketsOf(fieldIndex, jurisdictionIndex, filing), credentials);
      }
    }
  }

  predicate KeysWanted(p: Platform, cred: Credential, steps: seq<Narrowing>) {
    forall n :: n in steps ==> KeyWanted(p, cred, n)
  }

  lemma KeysWantedSnoc(p: Platform, cred: Credential, steps: seq<Narrowing>, n: Narrowing)
    ensures KeysWanted(p, cred, steps + [n]) <==> KeysWanted(p, cred, steps) && KeyWanted(p, cred, n)
  {
    assert forall x :: x in steps + [n] <==> x in steps || x == n;
  }

  lemma NothingLoaded(p: Platform)
    ensures AllLoaded(p, map[], EMPTY_FIELD_INDEX, map[], [])
  {
  }

  lemma AllFieldsIndexed()
    ensures forall f: IndexedField :: f in INDEXED_FIELDS[..|INDEXED_FIELDS|]
  {
    forall f: IndexedField ensures f in INDEXED_FIELDS[..|INDEXED_FIELDS|] {
      match f {
        case Issuer => assert INDEXED_FIELDS[0] == f;
        case IssuerType => assert INDEXED_FIELDS[1] == f;
        case CredentialType => assert INDEXED_FIELDS[2] == f;
        case Status => assert INDEXED_FIELDS[3] == f;
      }
    }
  }

  // ---- text lookup ----

  ghost predicate PostedUnder(inv: Inverted, tokens: set<string>, id: string) {
    exists t, k :: t in tokens && t in inv && 0 <= k < |inv[t]| && inv[t][k].credId == id
  }

  ghost function RelatedTo(tokens: set<string>, query: string): set<string> {
    set t | t in tokens && Related(t, query)
  }

  lemma ScanOneMore(inv: Inverted, scanned: set<string>, token: string, query: string)
    requires token in inv && token !in scanned && token != query
    ensures var was := RelatedTo(scanned, query);
            var now := RelatedTo(scanned + {token}, query);
            var here := set k | 0 <= k < |inv[token]| :: inv[token][k].credId;
            forall id :: PostedUnder(inv, now, id)
              <==> PostedUnder(inv, was, id) || (Related(token, query) && id in here)
  {
    var was := RelatedTo(scanned, query);
    var now := RelatedTo(scanned + {token}, query);
    assert now == if Related(token, query) then was + {token} else was;
  }

  /** An id posted under a related token is the id of a stored record whose text matches. */
  lemma PostedUnderMeans(p: Platform, inv: Inverted, creds: Store, scanned: set<string>, query: string, id: string)
    requires InvertedInStep(p, inv, creds) && inv.Keys <= scanned
    ensures PostedUnder(inv, RelatedTo(scanned, query), id)
            <==> id in creds && TextMatch(p, creds[id], [query])
  {
    if PostedUnder(inv, RelatedTo(scanned, query), id) {
      var t, k :| t in scanned && Related(t, query) && t in inv && 0 <= k < |inv[t]| && inv[t][k].credId == id;
      var q := inv[t][k];
      assert q in multiset(PostingsAt(inv, t));
      assert Count(inv, t, q) >= 1;
      assert Posted(p, creds, t, q);
      assert query in [query];
      assert Related(Occurrence(t, q.field).token, query);
    }
    if id in creds && TextMatch(p, creds[id], [query]) {
      var o, q :| o in Occurrences(p, creds[id]) && q in [query] && Related(o.token, q);
      assert Posted(p, creds, o.token, Posting(id, o.field));
      assert Count(inv, o.token, Posting(id, o.field)) == 1;
      assert Posting(id, o.field) in PostingsAt(inv, o.token);
      var k :| 0 <= k < |PostingsAt(inv, o.token)| && PostingsAt(inv, o.token)[k] == Posting(id, o.field);
      assert inv[o.token][k].credId == id;
    }
  }

  lemma TextMatchJoin(p: Platform, cred: Credential, a: seq<string>, b: seq<string>)
    ensures TextMatch(p, cred, a + b) <==> TextMatch(p, cred, a) || TextMatch(p, cred, b)
  {
    if TextMatch(p, cred, a) {
      var o, q :| o in Occurrences(p, cred) && q in a && Related(o.token, q);
      assert q in a + b;
    }
    if TextMatch(p, cred, b) {
      var o, q :| o in Occurrences(p, cred) && q in b && Related(o.token, q);
      assert q in a + b;
    }
  }

  lemma CandidatesCoverSurvivors(p: Platform, creds: Store, o: Options, candidates: set<string>)
    requires forall id :: id in candidates <==> id in creds && Narrowed(p, creds[id], o)
    ensures Survivors(p, creds, o) <= candidates
  {
    forall id | id in Survivors(p, creds, o) ensures id in candidates {
      NarrowThenFilterIsScan(p, creds[id], o);
    }
  }

  // ---- result lists ----

  /** A list holding each record of a set of ids once. */
  ghost predicate Lists(list: seq<Credential>, creds: Store, ids: set<string>) {
    && |list| == |ids|
    && (forall i :: 0 <= i < |list| ==> list[i].id in ids && list[i].id in creds && list[i] == creds[list[i].id])
    && (forall i, j :: 0 <= i < j < |list| ==> list[i].id != list[j].id)
    && (forall id :: id in ids ==> id in creds && creds[id].id == id && creds[id] in list)
  }

  /** Results sorted by id ascending, over stored ids as the chain issues them, can be walked by cursor. */
  lemma ResultsById(p: Platform, creds: Store, ids: set<string>, matched: seq<Credential>)
    requires Lists(matched, creds, ids) && Ordered(p, ByKeys([ById], false), matched)
    requires forall id :: id in creds ==> CredentialId(id)
    ensures Ascending(Values(KeyOf(p, [ById]), matched)) && "" !in Values(KeyOf(p, [ById]), matched)
  {
    SortedByIdAscends(p, matched);
  }

  /** One search: the matches of the plain scan in the requested order, and the page at the cursor. */
  ghost predicate IsAnswer(p: Platform, creds: Store, o: Options, matched: seq<Credential>, page: Page) {
    && Lists(matched, creds, Survivors(p, creds, o))
    && Ordered(p, OrderOf(p, o), matched)
    && IsPage(KeyOf(p, o.sortBy), matched, o.cursor, PageSize(o.limit), page)
  }

  function CursorOf(pages: seq<Page>, k: nat): string
    requires k <= |pages|
  {
    if k == 0 then "" else pages[k - 1].next
  }

  /** Request k repeats the query with the cursor of the answer before it. */
  ghost predicate IsSearchWalk(p: Platform, creds: Store, o: Options, lists: seq<seq<Credential>>, pages: seq<Page>) {
    && |lists| == |pages| > 0
    && (forall k :: 0 <= k < |pages| ==> IsAnswer(p, creds, o.(cursor := CursorOf(pages, k)), lists[k], pages[k]))
    && (forall k :: 0 <= k < |pages| - 1 ==> pages[k].next != "")
  }

  lemma CursorKeepsMatches(p: Platform, creds: Store, o: Options, cursor: string)
    ensures Survivors(p, creds, o.(cursor := cursor)) == Survivors(p, creds, o)
    ensures OrderOf(p, o.(cursor := cursor)) == OrderOf(p, o)
  {
    forall id | id in creds ensures Wanted(p, creds[id], o.(cursor := cursor)) <==> Wanted(p, creds[id], o) {
      assert ScanOnly(p, creds[id], o.(cursor := cursor)) <==> ScanOnly(p, creds[id], o);
    }
  }

  lemma {:induction false} SearchWalkIsWalk(
    p: Platform, creds: Store, o: Options, lists: seq<seq<Credential>>, pages: seq<Page>)
    requires IsSearchWalk(p, creds, o, lists, pages) && o.sortBy == [ById] && !o.descending
    requires forall id :: id in creds ==> CredentialId(id)
    ensures IsWalk(KeyOf(p, [ById]), PageSize(o.limit), lists, pages)
    ensures forall k :: 0 <= k < |lists| ==> Lists(lists[k], creds, Survivors(p, creds, o))
  {
    forall k | 0 <= k < |pages|
      ensures Lists(lists[k], creds, Survivors(p, creds, o))
        && IsWalkPage(KeyOf(p, [ById]), PageSize(o.limit), lists, pages, k)
    {
      assert IsAnswer(p, creds, o.(cursor := CursorOf(pages, k)), lists[k], pages[k]);
      CursorKeepsMatches(p, creds, o, CursorOf(pages, k));
      ResultsById(p, creds, Survivors(p, creds, o), lists[k]);
    }
  }

  lemma {:induction false} CollectedFromLists(
    key: Key, size: nat, lists: seq<seq<Credential>>, pages: seq<Page>, c: Credential) returns (k: nat)
    requires size >= 1 && IsWalk(key, size, lists, pages) && c in Collected(pages)
    ensures k < |lists| && c in lists[k]
  {
    var n := |pages| - 1;
    assert IsWalkPage(key, size, lists, pages, n);
    if c in pages[n].data {
      k := n;
    } else {
      WalkPrefix(key, size, lists, pages);
      k := CollectedFromLists(key, size, lists[..n], pages[..n], c);
    }
  }

  /** Every request of the walk sees the same list. */
  lemma {:induction false} SearchListsAgree(
    p: Platform, creds: Store, o: Options, lists: seq<seq<Credential>>, pages: seq<Page>, k: nat)
    requires IsWalk(KeyOf(p, [ById]), PageSize(o.limit), lists, pages) && k < |lists|
    requires forall i :: 0 <= i < |lists| ==> Lists(lists[i], creds, Survivors(p, creds, o))
    ensures lists[k] == lists[0]
  {
    var ids := Survivors(p, creds, o);
    assert IsWalkPage(KeyOf(p, [ById]), PageSize(o.limit), lists, pages, 0);
    assert IsWalkPage(KeyOf(p, [ById]), PageSize(o.limit), lists, pages, k);
    assert Lists(lists[0], creds, ids) && Lists(lists[k], creds, ids);
    forall c ensures c in lists[0] <==> c in lists[k] {
      ListedExactly(lists[0], creds, ids, c);
      ListedExactly(lists[k], creds, ids, c);
    }
    SameStrict(KeyOf(p, [ById]), false, lists[k], lists[0]);
  }

  lemma ListedExactly(list: seq<Credential>, creds: Store, ids: set<string>, c: Credential)
    requires Lists(list, creds, ids)
    ensures c in list <==> c.id in ids && c.id in creds && c == creds[c.id]
  {
    if c in list { var i :| 0 <= i < |list| && list[i] == c; }
  }

  /**
   Finished or not, a walk by id over an unchanged store takes at most one page more than full
   pages fit into the matches, so following the cursor ends.
   */
  lemma {:induction false} SearchWalkEnds(
    p: Platform, creds: Store, o: Options, lists: seq<seq<Credential>>, pages: seq<Page>)
    requires IsSearchWalk(p, creds, o, lists, pages) && o.sortBy == [ById] && !o.descending
    requires forall id :: id in creds ==> CredentialId(id)
    ensures PageSize(o.limit) * (|pages| - 1) <= |Survivors(p, creds, o)|
  {
    SearchWalkIsWalk(p, creds, o, lists, pages);
    forall k | 0 <= k < |lists| ensures lists[k] == lists[0] { SearchListsAgree(p, creds, o, lists, pages, k); }
    assert lists == seq(|pages|, _ => lists[0]);
    StaticWalkReturnsList(KeyOf(p, [ById]), PageSize(o.limit), lists[0], pages);
    assert Lists(lists[0], creds, Survivors(p, creds, o));
  }

  /** Searching page after page by id until no cursor is left returns every match once, in order, and nothing else. */
  lemma {:induction false} SearchWalkReturnsEveryMatchOnce(
    p: Platform, creds: Store, o: Options, lists: seq<seq<Credential>>, pages: seq<Page>)
    requires IsSearchWalk(p, creds, o, lists, pages) && o.sortBy == [ById] && !o.descending
    requires forall id :: id in creds ==> CredentialId(id)
    requires pages[|pages| - 1].next == ""
    ensures Ascending(Values(KeyOf(p, [ById]), Collected(pages)))
    ensures forall c :: c in Collected(pages) ==> c.id in Survivors(p, creds, o) && c == creds[c.id]
    ensures forall id :: id in Survivors(p, creds, o) ==> creds[id] in Collected(pages)
    ensures PageSize(o.limit) * (|pages| - 1) <= |Survivors(p, creds, o)|
  {
    SearchWalkEnds(p, creds, o, lists, pages);
    var size := PageSize(o.limit);
    SearchWalkIsWalk(p, creds, o, lists, pages);
    WalkAscends(KeyOf(p, [ById]), size, lists, pages);
    forall c | c in Collected(pages) ensures c.id in Survivors(p, creds, o) && c == creds[c.id] {
      var k := CollectedFromLists(KeyOf(p, [ById]), size, lists, pages, c);
      assert Lists(lists[k], creds, Survivors(p, creds, o));
      var i :| 0 <= i < |lists[k]| && lists[k][i] == c;
    }
    forall id | id in Survivors(p, creds, o) ensures creds[id] in Collected(pages) {
      FinishedWalkComplete(KeyOf(p, [ById]), size, lists, pages, creds[id]);
    }
  }

  /**
   By id descending, the page at the cursor of record k continues with record k + 1 if and only
   if k is the record in the middle, which the search probes first.
   */
  lemma DescendingContinuesExactly(
    p: Platform, creds: Store, o: Options, matched: seq<Credential>, page: Page, k: nat)
    requires k < |matched| && o.sortBy == [ById] && o.descending && forall id :: id in creds ==> CredentialId(id)
    ensures IsAnswer(p, creds, o, matched, page) && o.cursor == SortValue(p, matched[k], [ById]) ==>
      (page.start == k + 1 <==> k == (|matched| - 1) / 2)
  {
    if IsAnswer(p, creds, o, matched, page) && o.cursor == SortValue(p, matched[k], [ById]) {
      SortedByIdDescends(p, matched);
      PaddingKeepsValue(matched[k].id, 20);
      assert Values(KeyOf(p, [ById]), matched)[k] == o.cursor;
    }
  }

  /** The results of every request by descending id are one strictly descending list. */
  lemma {:induction false} SearchWalkIsDown(
    p: Platform, creds: Store, o: Options, lists: seq<seq<Credential>>, pages: seq<Page>, k: nat)
    requires IsSearchWalk(p, creds, o, lists, pages) && o.sortBy == [ById] && o.descending && k < |lists|
    requires forall id :: id in creds ==> CredentialId(id)
    ensures Lists(lists[k], creds, Survivors(p, creds, o))
    ensures Descending(Values(KeyOf(p, [ById]), lists[k])) && "" !in Values(KeyOf(p, [ById]), lists[k])
  {
    assert IsAnswer(p, creds, o.(cursor := CursorOf(pages, k)), lists[k], pages[k]);
    CursorKeepsMatches(p, creds, o, CursorOf(pages, k));
    ResultsByIdDown(p, creds, Survivors(p, creds, o), lists[k]);
  }

  lemma ResultsByIdDown(p: Platform, creds: Store, ids: set<string>, matched: seq<Credential>)
    requires Lists(matched, creds, ids) && Ordered(p, ByKeys([ById], true), matched)
    requires forall id :: id in creds ==> CredentialId(id)
    ensures Descending(Values(KeyOf(p, [ById]), matched)) && "" !in Values(KeyOf(p, [ById]), matched)
  {
    SortedByIdDescends(p, matched);
  }

  lemma {:induction false} SameResultsDown(
    p: Platform, creds: Store, o: Options, lists: seq<seq<Credential>>, pages: seq<Page>, k: nat)
    requires IsSearchWalk(p, creds, o, lists, pages) && o.sortBy == [ById] && o.descending && k < |lists|
    requires forall id :: id in creds ==> CredentialId(id)
    ensures lists[k] == lists[0]
  {
    SearchWalkIsDown(p, creds, o, lists, pages, 0);
    SearchWalkIsDown(p, creds, o, lists, pages, k);
    forall c ensures c in lists[0] <==> c in lists[k] {
      ListedExactly(lists[0], creds, Survivors(p, creds, o), c);
      ListedExactly(lists[k], creds, Survivors(p, creds, o), c);
    }
    SameStrict(KeyOf(p, [ById]), true, lists[k], lists[0]);
  }

  lemma {:induction false} SearchWalksDown(
    p: Platform, creds: Store, o: Options, lists: seq<seq<Credential>>, pages: seq<Page>)
    requires IsSearchWalk(p, creds, o, lists, pages) && o.sortBy == [ById] && o.descending
    requires forall id :: id in creds ==> CredentialId(id)
    ensures Lists(lists[0], creds, Survivors(p, creds, o))
    ensures IsWalkDown(KeyOf(p, [ById]), PageSize(o.limit), lists[0], pages)
  {
    var key, size := KeyOf(p, [ById]), PageSize(o.limit);
    SearchWalkIsDown(p, creds, o, lists, pages, 0);
    forall k | 0 <= k < |pages| ensures IsPageDown(key, size, lists[0], pages, k) {
      SameResultsDown(p, creds, o, lists, pages, k);
      assert IsAnswer(p, creds, o.(cursor := CursorOf(pages, k)), lists[k], pages[k]);
    }
  }

  /** The first records of a longer list do not hold all its records. */
  lemma {:induction false} FrontMisses(list: seq<Credential>, creds: Store, ids: set<string>, size: nat)
    requires Lists(list, creds, ids) && size < |list|
    ensures list[size].id in ids && creds[list[size].id] !in list[..size]
  {
  }

  /**
   Searching page after page by descending id: the walk over the matches goes as a walk down does,
   so one that ends has returned every match if and only if their number fits.
   */
  lemma {:induction false} DescendingWalkExactly(
    p: Platform, creds: Store, o: Options, lists: seq<seq<Credential>>, pages: seq<Page>)
    requires IsSearchWalk(p, creds, o, lists, pages) && o.sortBy == [ById] && o.descending
    requires forall id :: id in creds ==> CredentialId(id)
    ensures Lists(lists[0], creds, Survivors(p, creds, o)) && WalkedDown(PageSize(o.limit), lists[0], pages)
    ensures pages[|pages| - 1].next == "" ==>
      (AllCollected(creds, Survivors(p, creds, o), pages)
       <==> FitsWalkDown(PageSize(o.limit), |Survivors(p, creds, o)|))
  {
    SearchWalksDown(p, creds, o, lists, pages);
    WalkDownExactly(KeyOf(p, [ById]), PageSize(o.limit), lists[0], pages);
    WholeExactly(creds, Survivors(p, creds, o), PageSize(o.limit), lists[0], pages);
  }

  ghost predicate AllCollected(creds: Store, ids: set<string>, pages: seq<Page>) {
    forall id :: id in ids ==> id in creds && creds[id] in Collected(pages)
  }

  lemma {:induction false} WholeExactly(
    creds: Store, ids: set<string>, size: nat, list: seq<Credential>, pages: seq<Page>)
    requires size >= 1 && pages != [] && Lists(list, creds, ids) && WalkedDown(size, list, pages)
    ensures pages[|pages| - 1].next == "" ==> (AllCollected(creds, ids, pages) <==> FitsWalkDown(size, |list|))
  {
    if pages[|pages| - 1].next == "" && !FitsWalkDown(size, |list|) { FrontMisses(list, creds, ids, size); }
  }

  lemma ListsOneMore(list: seq<Credential>, creds: Store, ids: set<string>, id: string)
    requires Lists(list, creds, ids) && id in creds && creds[id].id == id && id !in ids
    ensures Lists(list + [creds[id]], creds, ids + {id})
  {
  }

  lemma ListsPermuted(a: seq<Credential>, b: seq<Credential>, creds: Store, ids: set<string>)
    requires Lists(a, creds, ids) && multiset(a) == multiset(b)
    ensures Lists(b, creds, ids)
  {
    assert |a| == |multiset(a)| && |b| == |multiset(b)|;
    forall c ensures c in a <==> c in b { assert c in multiset(a) <==> c in multiset(b); }
    forall c | c in a ensures multiset(a)[c] == 1 { OnceInList(a, c); }
    forall i | 0 <= i < |b| ensures b[i].id in ids && b[i].id in creds && b[i] == creds[b[i].id] {
      assert b[i] in a;
      var k :| 0 <= k < |a| && a[k] == b[i];
    }
    forall i, j | 0 <= i < j < |b| ensures b[i].id != b[j].id {
      assert b[i] in a && b[j] in a;
      if b[i] == b[j] { TwiceInList(b, i, j); }
    }
  }

  lemma {:induction false} OnceInList(list: seq<Credential>, c: Credential)
    requires forall i, j :: 0 <= i < j < |list| ==> list[i].id != list[j].id
    ensures multiset(list)[c] == if c in list then 1 else 0
  {
    if list != [] {
      var n := |list| - 1;
      OnceInList(list[..n], c);
      assert list == list[..n] + [list[n]];
      assert list[n] !in list[..n];
    }
  }

  lemma TwiceInList(list: seq<Credential>, i: nat, j: nat)
    requires i < j < |list| && list[i] == list[j]
    ensures multiset(list)[list[i]] >= 2
  {
    assert list == list[..j] + [list[j]] + list[j + 1..];
    assert list[i] in list[..j];
  }

  // ---- facet counts ----

  ghost function Tally(p: Platform, records: seq<Credential>, facet: Facet, v: string): nat {
    if records == [] then 0
    else
      var n := |records| - 1;
      Tally(p, records[..n], facet, v) + if FacetValue(p, records[n], facet) == v then 1 else 0
  }

  /** A count for each value that occurs, and for no other. */
  ghost predicate CountsOf(p: Platform, records: seq<Credential>, facet: Facet, counts: map<string, nat>) {
    forall v :: (if v in counts then counts[v] else 0) == Tally(p, records, facet, v) && (v in counts ==> counts[v] > 0)
  }

  /** Facet counts of a search, in terms of the stored records. */
  ghost predicate CountsMatches(p: Platform, creds: Store, o: Options, facet: Facet, counts: map<string, nat>) {
    forall v :: (if v in counts then counts[v] else 0) == |FacetMembers(p, creds, o, facet, v)|
      && (v in counts ==> counts[v] > 0)
  }

  lemma CountsOfMatches(
    p: Platform, list: seq<Credential>, creds: Store, o: Options, facet: Facet, counts: map<string, nat>)
    requires Lists(list, creds, Survivors(p, creds, o)) && CountsOf(p, list, facet, counts)
    ensures CountsMatches(p, creds, o, facet, counts)
  {
    forall v
      ensures (if v in counts then counts[v] else 0) == |FacetMembers(p, creds, o, facet, v)|
        && (v in counts ==> counts[v] > 0)
    {
      TallyIsFacetCount(p, list, creds, o, facet, v);
    }
  }

  ghost function Having(p: Platform, creds: Store, ids: set<string>, facet: Facet, v: string): set<string>
    requires ids <= creds.Keys
  {
    set id | id in ids && FacetValue(p, creds[id], facet) == v
  }

  lemma ListsOneLess(list: seq<Credential>, creds: Store, ids: set<string>)
    requires Lists(list, creds, ids) && list != []
    ensures Lists(list[..|list| - 1], creds, ids - {list[|list| - 1].id})
  {
    var n := |list| - 1;
    forall id | id in ids && id != list[n].id ensures creds[id] in list[..n] {
      var i :| 0 <= i < |list| && list[i] == creds[id];
      assert list[..n][i] == creds[id];
    }
  }

  lemma {:induction false} HavingOneLess(
    p: Platform, creds: Store, ids: set<string>, facet: Facet, v: string, id: string)
    requires ids <= creds.Keys && id in ids
    ensures |Having(p, creds, ids, facet, v)|
            == |Having(p, creds, ids - {id}, facet, v)| + if FacetValue(p, creds[id], facet) == v then 1 else 0
  {
    var fewer, all := Having(p, creds, ids - {id}, facet, v), Having(p, creds, ids, facet, v);
    if FacetValue(p, creds[id], facet) == v {
      assert all == fewer + {id};
    } else {
      assert all == fewer;
    }
  }

  /** Tallying a list counts the ids it lists that have the facet value. */
  lemma {:induction false} TallyCounts(
    p: Platform, list: seq<Credential>, creds: Store, ids: set<string>, facet: Facet, v: string)
    requires Lists(list, creds, ids) && ids <= creds.Keys
    ensures Tally(p, list, facet, v) == |Having(p, creds, ids, facet, v)|
  {
    if list == [] {
      assert ids == {};
      assert Having(p, creds, {}, facet, v) == {};
    } else {
      var last := list[|list| - 1].id;
      ListsOneLess(list, creds, ids);
      TallyCounts(p, list[..|list| - 1], creds, ids - {last}, facet, v);
      HavingOneLess(p, creds, ids, facet, v, last);
    }
  }

  lemma TallyIsFacetCount(p: Platform, list: seq<Credential>, creds: Store, o: Options, facet: Facet, v: string)
    requires Lists(list, creds, Survivors(p, creds, o))
    ensures Tally(p, list, facet, v) == |FacetMembers(p, creds, o, facet, v)|
  {
    var ids := Survivors(p, creds, o);
    assert ids <= creds.Keys;
    TallyCounts(p, list, creds, ids, facet, v);
    assert Having(p, creds, ids, facet, v) == FacetMembers(p, creds, o, facet, v);
  }

  ghost function SumOver(p: Platform, records: seq<Credential>, facet: Facet, values: set<string>): nat {
    if values == {} then 0
    else
      var v :| v in values;
      Tally(p, records, facet, v) + SumOver(p, records, facet, values - {v})
  }

  lemma {:induction false} SumOverOneMore(p: Platform, records: seq<Credential>, facet: Facet, values: set<string>)
    requires records != []
    ensures SumOver(p, records, facet, values) == SumOver(p, records[..|records| - 1], facet, values)
            + if FacetValue(p, records[|records| - 1], facet) in values then 1 else 0
    decreases values
  {
    if values != {} {
      var v :| v in values && SumOver(p, records, facet, values)
                              == Tally(p, records, facet, v) + SumOver(p, records, facet, values - {v});
      SumOverOneMore(p, records, facet, values - {v});
      SumOverPick(p, records[..|records| - 1], facet, values, v);
      assert Tally(p, records, facet, v) == Tally(p, records[..|records| - 1], facet, v)
        + if FacetValue(p, records[|records| - 1], facet) == v then 1 else 0;
    }
  }

  lemma {:induction false} SumOverPick(
    p: Platform, records: seq<Credential>, facet: Facet, values: set<string>, v: string)
    requires v in values
    ensures SumOver(p, records, facet, values) == Tally(p, records, facet, v) + SumOver(p, records, facet, values - {v})
    decreases values
  {
    var w :| w in values && SumOver(p, records, facet, values)
                            == Tally(p, records, facet, w) + SumOver(p, records, facet, values - {w});
    if w != v {
      SumOverPick(p, records, facet, values - {w}, v);
      SumOverPick(p, records, facet, values - {v}, w);
      assert values - {w} - {v} == values - {v} - {w};
    }
  }

  lemma {:induction false} SumOverAll(p: Platform, records: seq<Credential>, facet: Facet, values: set<string>)
    requires forall i :: 0 <= i < |records| ==> FacetValue(p, records[i], facet) in values
    ensures SumOver(p, records, facet, values) == |records|
  {
    if records == [] {
      SumOverNothing(p, facet, values);
    } else {
      var n := |records| - 1;
      SumOverAll(p, records[..n], facet, values);
      SumOverOneMore(p, records, facet, values);
    }
  }

  /** The counts under the given values added up. */
  ghost function SumOf(counts: map<string, nat>, values: set<string>): nat
    requires values <= counts.Keys
  {
    if values == {} then 0
    else
      var v :| v in values;
      counts[v] + SumOf(counts, values - {v})
  }

  lemma {:induction false} SumOfIsSumOver(
    p: Platform, records: seq<Credential>, facet: Facet, counts: map<string, nat>, values: set<string>)
    requires CountsOf(p, records, facet, counts) && values <= counts.Keys
    ensures SumOf(counts, values) == SumOver(p, records, facet, values)
    decreases values
  {
    if values != {} {
      var v :| v in values && SumOf(counts, values) == counts[v] + SumOf(counts, values - {v});
      SumOfIsSumOver(p, records, facet, counts, values - {v});
      SumOverPick(p, records, facet, values, v);
    }
  }

  lemma {:induction false} TallyPositive(p: Platform, records: seq<Credential>, facet: Facet, i: nat, v: string)
    requires i < |records| && FacetValue(p, records[i], facet) == v
    ensures Tally(p, records, facet, v) > 0
  {
    var n := |records| - 1;
    if i < n {
      assert records[..n][i] == records[i];
      TallyPositive(p, records[..n], facet, i, v);
    }
  }

  /** The counts of a facet, before any cut, add up to the number of records. */
  lemma {:induction false} FacetCountsSumToTotal(
    p: Platform, records: seq<Credential>, facet: Facet, counts: map<string, nat>)
    requires CountsOf(p, records, facet, counts)
    ensures SumOf(counts, counts.Keys) == |records|
  {
    SumOfIsSumOver(p, records, facet, counts, counts.Keys);
    forall i | 0 <= i < |records| ensures FacetValue(p, records[i], facet) in counts.Keys {
      TallyPositive(p, records, facet, i, FacetValue(p, records[i], facet));
    }
    SumOverAll(p, records, facet, counts.Keys);
  }

  lemma {:induction false} SumOverNothing(p: Platform, facet: Facet, values: set<string>)
    ensures SumOver(p, [], facet, values) == 0
    decreases values
  {
    if values != {} {
      var v :| v in values
        && SumOver(p, [], facet, values) == Tally(p, [], facet, v) + SumOver(p, [], facet, values - {v});
      SumOverNothing(p, facet, values - {v});
      assert Tally(p, [], facet, v) == 0;
    }
  }
}
