/**
 What a search asks for, stated twice: as a plain scan over single records, and as the
 narrowing through the indexes followed by the filter pass that the service performs.
 */
module Queries {
  import opened JsText
  import opened Credentials
  import opened SearchIndexes

  datatype SortKey = ById | ByType | ByCreated | ByUpdated | ByRecency | ByReputation | ByRelevance

  /** A single filter value is a list of one; texts are "" when the option is absent. */
  datatype Options = Options(
    query: string, types: Option<seq<int>>, issuers: Option<seq<string>>,
    issuerTypes: Option<seq<string>>, subject: Option<string>, status: Option<string>,
    jurisdictions: Option<seq<string>>, attestationMin: Option<int>, attestationMax: Option<int>,
    createdAfter: string, createdBefore: string, expiresAfter: string, expiresBefore: string,
    owner: string, filterTree: seq<FilterNode>,
    sortBy: seq<SortKey>, descending: bool, limit: int, cursor: string)

  function QueryTokens(p: Platform, o: Options): seq<string> {
    if o.query == "" then [] else Tokenize(p, o.query)
  }

  // ---- the conditions that only the filter pass checks ----

  function DateOf(p: Platform, s: string): Option<int> {
    if s == "" then None else p.parseDate(s)
  }

  predicate NotEarlier(p: Platform, date: string, bound: string) {
    bound == ""
    || (DateOf(p, date).Some? && DateOf(p, bound).Some? && DateOf(p, date).value >= DateOf(p, bound).value)
  }

  predicate NotLater(p: Platform, date: string, bound: string) {
    bound == ""
    || (DateOf(p, date).Some? && DateOf(p, bound).Some? && DateOf(p, date).value <= DateOf(p, bound).value)
  }

  predicate ScanOnly(p: Platform, cred: Credential, o: Options) {
    && (o.owner != "" && cred.owner != "" ==> cred.owner == o.owner)
    && (o.subject.Some? ==> cred.subject == o.subject.value)
    && (o.attestationMin.Some? ==> cred.attestationCount >= o.attestationMin.value)
    && (o.attestationMax.Some? ==> cred.attestationCount <= o.attestationMax.value)
    && NotEarlier(p, cred.createdAt, o.createdAfter) && NotLater(p, cred.createdAt, o.createdBefore)
    && NotEarlier(p, cred.expiresAt, o.expiresAfter) && NotLater(p, cred.expiresAt, o.expiresBefore)
    && forall i :: 0 <= i < |o.filterTree| ==> EvalFilter(p, o.filterTree[i], cred)
  }

  predicate InJurisdiction(p: Platform, cred: Credential, requested: seq<string>) {
    exists i :: 0 <= i < |requested| && NormalizeJurisdiction(p, requested[i]) in JurisdictionLevels(p, cred)
  }

  predicate TextWanted(p: Platform, cred: Credential, o: Options) {
    QueryTokens(p, o) != [] ==> TextMatch(p, cred, QueryTokens(p, o))
  }

  /** The plain scan: what a record must satisfy, with no index in sight. */
  predicate Wanted(p: Platform, cred: Credential, o: Options) {
    && TextWanted(p, cred, o)
    && (o.types.Some? ==> cred.credentialType in o.types.value)
    && (o.issuers.Some? ==> cred.issuer in o.issuers.value)
    && (o.issuerTypes.Some? ==>
          cred.issuerType in o.issuerTypes.value && (cred.issuerType == "" ==> "unknown" in o.issuerTypes.value))
    && (o.status.Some? ==> StatusOf(cred) == o.status.value)
    && (o.jurisdictions.Some? ==> InJurisdiction(p, cred, o.jurisdictions.value))
    && ScanOnly(p, cred, o)
  }

  // ---- the same through the indexes ----

  /** The filter pass, which re-checks the structural filters in its own way. */
  predicate FilterPass(p: Platform, cred: Credential, o: Options) {
    && (o.types.Some? ==> cred.credentialType in o.types.value)
    && (o.issuers.Some? ==> cred.issuer in o.issuers.value)
    && (o.issuerTypes.Some? ==> cred.issuerType in o.issuerTypes.value)
    && (o.jurisdictions.Some? ==> InJurisdiction(p, cred, o.jurisdictions.value))
    && (o.status == Some("revoked") ==> cred.revoked)
    && (o.status == Some("suspended") ==> cred.suspended)
    && (o.status == Some("active") ==> !cred.revoked && !cred.suspended)
    && ScanOnly(p, cred, o)
  }

  function TypeTexts(types: seq<int>): seq<string> {
    seq(|types|, i requires 0 <= i < |types| => IntText(types[i]))
  }

  function Normalized(p: Platform, codes: seq<string>): seq<string> {
    seq(|codes|, i requires 0 <= i < |codes| => NormalizeJurisdiction(p, codes[i]))
  }

  /** The structural filters as index lookups, in the order the service applies them. */
  datatype Narrowing = Narrowing(filing: Filing, values: Option<seq<string>>)

  function Narrowings(p: Platform, o: Options): seq<Narrowing> {
    [ Narrowing(ByField(CredentialType), if o.types.Some? then Some(TypeTexts(o.types.value)) else None),
      Narrowing(ByField(Issuer), o.issuers),
      Narrowing(ByField(IssuerType), o.issuerTypes),
      Narrowing(ByField(Status), if o.status.Some? then Some([o.status.value]) else None),
      Narrowing(ByJurisdiction, if o.jurisdictions.Some? then Some(Normalized(p, o.jurisdictions.value)) else None) ]
  }

  predicate KeyWanted(p: Platform, cred: Credential, n: Narrowing) {
    n.values.Some? ==> exists v :: v in n.values.value && v in KeysOf(p, n.filing, cred)
  }

  predicate Narrowed(p: Platform, cred: Credential, o: Options) {
    TextWanted(p, cred, o) && forall n :: n in Narrowings(p, o) ==> KeyWanted(p, cred, n)
  }

  /** A type filter compares printed numbers in the index and numbers in the filter pass. */
  lemma TypeLookupExact(p: Platform, cred: Credential, types: seq<int>)
    ensures IntText(cred.credentialType) in TypeTexts(types) <==> cred.credentialType in types
  {
    if IntText(cred.credentialType) in TypeTexts(types) {
      var i :| 0 <= i < |types| && TypeTexts(types)[i] == IntText(cred.credentialType);
      IntTextInjective(types[i], cred.credentialType);
    }
    if cred.credentialType in types {
      var i :| 0 <= i < |types| && types[i] == cred.credentialType;
      assert TypeTexts(types)[i] == IntText(cred.credentialType);
    }
  }

  lemma JurisdictionLookupExact(p: Platform, cred: Credential, codes: seq<string>)
    ensures KeyWanted(p, cred, Narrowing(ByJurisdiction, Some(Normalized(p, codes))))
      <==> InJurisdiction(p, cred, codes)
  {
    if InJurisdiction(p, cred, codes) {
      var i :| 0 <= i < |codes| && NormalizeJurisdiction(p, codes[i]) in JurisdictionLevels(p, cred);
      assert Normalized(p, codes)[i] in Normalized(p, codes);
    }
  }

  /** A record is found by jurisdiction exactly when its code lies within a requested one. */
  lemma InJurisdictionMeans(p: Platform, cred: Credential, requested: seq<string>)
    ensures InJurisdiction(p, cred, requested) <==>
      && JurisdictionOf(p, cred) != ""
      && exists i :: 0 <= i < |requested| &&
           Within(NormalizeJurisdiction(p, JurisdictionOf(p, cred)), NormalizeJurisdiction(p, requested[i]))
  {
    var j := JurisdictionOf(p, cred);
    forall i | 0 <= i < |requested| && j != ""
      ensures NormalizeJurisdiction(p, requested[i]) in JurisdictionLevels(p, cred)
        <==> Within(NormalizeJurisdiction(p, j), NormalizeJurisdiction(p, requested[i]))
    {
      AncestorsMean(p, j, NormalizeJurisdiction(p, requested[i]));
    }
  }

  lemma FieldLookupExact(p: Platform, cred: Credential, f: IndexedField, values: seq<string>)
    ensures KeyWanted(p, cred, Narrowing(ByField(f), Some(values))) <==> FieldIndexValue(cred, f) in values
  {
  }

  lemma EachNarrowing(p: Platform, cred: Credential, o: Options)
    ensures var ns := Narrowings(p, o);
            Narrowed(p, cred, o) <==>
              && TextWanted(p, cred, o) && KeyWanted(p, cred, ns[0]) && KeyWanted(p, cred, ns[1])
              && KeyWanted(p, cred, ns[2]) && KeyWanted(p, cred, ns[3]) && KeyWanted(p, cred, ns[4])
  {
    var ns := Narrowings(p, o);
    assert forall n :: n in ns <==> n == ns[0] || n == ns[1] || n == ns[2] || n == ns[3] || n == ns[4];
  }

  /** What index narrowing keeps, written out filter by filter. */
  lemma NarrowedMeans(p: Platform, cred: Credential, o: Options)
    ensures Narrowed(p, cred, o) <==>
      && TextWanted(p, cred, o)
      && (o.types.Some? ==> cred.credentialType in o.types.value)
      && (o.issuers.Some? ==> cred.issuer in o.issuers.value)
      && (o.issuerTypes.Some? ==> FieldIndexValue(cred, IssuerType) in o.issuerTypes.value)
      && (o.status.Some? ==> StatusOf(cred) == o.status.value)
      && (o.jurisdictions.Some? ==> InJurisdiction(p, cred, o.jurisdictions.value))
  {
    EachNarrowing(p, cred, o);
    if o.types.Some? {
      TypeLookupExact(p, cred, o.types.value);
      FieldLookupExact(p, cred, CredentialType, TypeTexts(o.types.value));
    }
    if o.issuers.Some? { FieldLookupExact(p, cred, Issuer, o.issuers.value); }
    if o.issuerTypes.Some? { FieldLookupExact(p, cred, IssuerType, o.issuerTypes.value); }
    if o.status.Some? { FieldLookupExact(p, cred, Status, [o.status.value]); }
    if o.jurisdictions.Some? { JurisdictionLookupExact(p, cred, o.jurisdictions.value); }
  }

  /** Narrowing and filter pass together keep exactly what the plain scan keeps. */
  lemma NarrowThenFilterIsScan(p: Platform, cred: Credential, o: Options)
    ensures Narrowed(p, cred, o) && FilterPass(p, cred, o) <==> Wanted(p, cred, o)
  {
    NarrowedMeans(p, cred, o);
  }

  // ---- what the plain scan keeps ----

  /** Both bounds at one date keep the records of that date; later records pass whatever earlier ones do. */
  lemma DateBoundsMean(p: Platform, date: string, later: string, bound: string)
    requires bound != "" && DateOf(p, date).Some? && DateOf(p, later).Some? && DateOf(p, bound).Some?
    requires DateOf(p, date).value <= DateOf(p, later).value
    ensures NotEarlier(p, date, bound) || NotLater(p, date, bound)
    ensures NotEarlier(p, date, bound) && NotLater(p, date, bound) <==> DateOf(p, date) == DateOf(p, bound)
    ensures NotEarlier(p, date, bound) ==> NotEarlier(p, later, bound)
    ensures NotLater(p, later, bound) ==> NotLater(p, date, bound)
  {
  }

  /** A bound on a date that cannot be read, or that is missing, keeps nothing; no bound keeps everything. */
  lemma UnreadableDates(p: Platform, date: string, bound: string)
    ensures bound == "" ==> NotEarlier(p, date, bound) && NotLater(p, date, bound)
    ensures bound != "" && (DateOf(p, date).None? || DateOf(p, bound).None?) ==>
      !NotEarlier(p, date, bound) && !NotLater(p, date, bound)
  {
  }

  /** Attestation bounds split the records: at least k or below k, never both, and between k and k exactly k. */
  lemma AttestationBoundsMean(p: Platform, cred: Credential, o: Options, k: int)
    requires o.attestationMin.None? && o.attestationMax.None?
    ensures var atLeast := ScanOnly(p, cred, o.(attestationMin := Some(k)));
            var below := ScanOnly(p, cred, o.(attestationMax := Some(k - 1)));
            (ScanOnly(p, cred, o) <==> atLeast || below) && !(atLeast && below)
    ensures ScanOnly(p, cred, o.(attestationMin := Some(k), attestationMax := Some(k)))
            <==> ScanOnly(p, cred, o) && cred.attestationCount == k
    ensures cred.attestationCount > k && ScanOnly(p, cred, o) ==> ScanOnly(p, cred, o.(attestationMin := Some(k)))
  {
    KeepsOthers(p, cred, o, o.(attestationMin := Some(k)));
    KeepsOthers(p, cred, o, o.(attestationMax := Some(k - 1)));
    KeepsOthers(p, cred, o, o.(attestationMin := Some(k), attestationMax := Some(k)));
  }

  /** Options that differ in their attestation bounds only share every other condition. */
  lemma KeepsOthers(p: Platform, cred: Credential, o: Options, q: Options)
    requires o.attestationMin.None? && o.attestationMax.None?
    requires q == o.(attestationMin := q.attestationMin, attestationMax := q.attestationMax)
    ensures ScanOnly(p, cred, q) <==>
      && ScanOnly(p, cred, o)
      && (q.attestationMin.Some? ==> cred.attestationCount >= q.attestationMin.value)
      && (q.attestationMax.Some? ==> cred.attestationCount <= q.attestationMax.value)
  {
  }

  /** Filter trees are all applied, in any grouping. */
  lemma FilterTreesMean(p: Platform, cred: Credential, o: Options, a: seq<FilterNode>, b: seq<FilterNode>)
    ensures ScanOnly(p, cred, o.(filterTree := a + b))
            <==> ScanOnly(p, cred, o.(filterTree := a)) && ScanOnly(p, cred, o.(filterTree := b))
    ensures ScanOnly(p, cred, o.(filterTree := [And(a)])) <==> ScanOnly(p, cred, o.(filterTree := a))
  {
    ConjunctionSplits(p, cred, a, b);
    assert [And(a)][0] == And(a);
  }

  /** A search as an owner never returns what belongs to another, and hides nothing that belongs to nobody. */
  lemma OwnersSeeTheirOwn(p: Platform, cred: Credential, o: Options)
    ensures o.owner != "" && ScanOnly(p, cred, o) ==> cred.owner in {"", o.owner}
    ensures cred.owner in {"", o.owner} ==> (ScanOnly(p, cred, o) <==> ScanOnly(p, cred, o.(owner := "")))
  {
  }

  /** A subject filter keeps the records of that subject. */
  lemma SubjectFilterMeans(p: Platform, cred: Credential, o: Options, subject: string)
    requires o.subject.None?
    ensures ScanOnly(p, cred, o.(subject := Some(subject))) <==> ScanOnly(p, cred, o) && cred.subject == subject
  {
  }

  /** Date bounds read the date they are named after, and no other. */
  lemma DateBoundsReadTheirDate(p: Platform, cred: Credential, o: Options, date: string)
    requires o.filterTree == []
    ensures o.expiresAfter == "" && o.expiresBefore == "" ==>
      (ScanOnly(p, cred, o) <==> ScanOnly(p, cred.(expiresAt := date), o))
    ensures o.createdAfter == "" && o.createdBefore == "" ==>
      (ScanOnly(p, cred, o) <==> ScanOnly(p, cred.(createdAt := date), o))
    ensures o.createdAfter == "" ==>
      (ScanOnly(p, cred, o.(createdAfter := date)) <==> ScanOnly(p, cred, o) && NotEarlier(p, cred.createdAt, date))
    ensures o.createdBefore == "" ==>
      (ScanOnly(p, cred, o.(createdBefore := date)) <==> ScanOnly(p, cred, o) && NotLater(p, cred.createdAt, date))
    ensures o.expiresAfter == "" ==>
      (ScanOnly(p, cred, o.(expiresAfter := date)) <==> ScanOnly(p, cred, o) && NotEarlier(p, cred.expiresAt, date))
    ensures o.expiresBefore == "" ==>
      (ScanOnly(p, cred, o.(expiresBefore := date)) <==> ScanOnly(p, cred, o) && NotLater(p, cred.expiresAt, date))
  {
  }

  // ---- whole result sets ----

  ghost function Survivors(p: Platform, creds: Store, o: Options): set<string> {
    set id | id in creds && Wanted(p, creds[id], o)
  }

  /** The ids the filter pass alone would keep, had no index narrowed the candidates. */
  ghost function FilterPassSurvivors(p: Platform, creds: Store, o: Options): set<string> {
    set id | id in creds && TextWanted(p, creds[id], o) && FilterPass(p, creds[id], o)
  }

  /** A record the filter pass accepts and the index lookup does not offer. */
  predicate IndexDisagrees(cred: Credential, o: Options) {
    || (o.status == Some("suspended") && cred.revoked)
    || (o.status.Some? && o.status.value !in {"revoked", "suspended", "active"})
    || (o.issuerTypes.Some? && cred.issuerType == "" && "unknown" !in o.issuerTypes.value)
  }

  /**
   Narrowing is a pure optimisation of the filter pass exactly when no record that the
   filter pass accepts is filed differently from how the filter pass reads it.
   */
  lemma NarrowingOnlyOptimises(p: Platform, creds: Store, o: Options)
    ensures Survivors(p, creds, o) == FilterPassSurvivors(p, creds, o)
            <==> forall id :: id in FilterPassSurvivors(p, creds, o) ==> !IndexDisagrees(creds[id], o)
  {
    forall id | id in creds
      ensures Wanted(p, creds[id], o) <==>
        TextWanted(p, creds[id], o) && FilterPass(p, creds[id], o) && !IndexDisagrees(creds[id], o)
    {
      DisagreementExactly(p, creds[id], o);
    }
    assert Survivors(p, creds, o) <= FilterPassSurvivors(p, creds, o);
  }

  lemma DisagreementExactly(p: Platform, cred: Credential, o: Options)
    ensures Wanted(p, cred, o) <==> TextWanted(p, cred, o) && FilterPass(p, cred, o) && !IndexDisagrees(cred, o)
  {
  }

  /** A search for everything with the status word "suspended". */
  const SUSPENDED := Options(
    "", None, None, None, None, Some("suspended"), None, None, None, "", "", "", "", "", [], [ById], false, 20, "")

  /** A record both revoked and suspended passes the filter for suspended ones and is not found through the index. */
  lemma RevokedIsNotFoundAsSuspended(p: Platform, cred: Credential)
    requires cred.revoked && cred.suspended
    ensures TextWanted(p, cred, SUSPENDED) && FilterPass(p, cred, SUSPENDED) && !Wanted(p, cred, SUSPENDED)
  {
  }

  // ---- facets ----

  datatype Facet = IssuerFacet | TypeFacet | StatusFacet | IssuerTypeFacet | JurisdictionFacet

  function FacetValue(p: Platform, cred: Credential, facet: Facet): string {
    match facet
    case IssuerFacet => cred.issuer
    case TypeFacet => IntText(cred.credentialType)
    case StatusFacet => if cred.revoked then "revoked" else if cred.suspended then "suspended" else "active"
    case IssuerTypeFacet => if cred.issuerType == "" then "unknown" else cred.issuerType
    case JurisdictionFacet => if JurisdictionOf(p, cred) == "" then "unknown" else JurisdictionOf(p, cred)
  }

  ghost function FacetMembers(p: Platform, creds: Store, o: Options, facet: Facet, v: string): set<string> {
    set id | id in Survivors(p, creds, o) && FacetValue(p, creds[id], facet) == v
  }

  /** The matches behind a facet value are the matches of the search with that filter added. */
  lemma IssuerFacetExact(p: Platform, creds: Store, o: Options, v: string)
    requires o.issuers.None?
    ensures FacetMembers(p, creds, o, IssuerFacet, v) == Survivors(p, creds, o.(issuers := Some([v])))
  {
    forall cred
      ensures Wanted(p, cred, o.(issuers := Some([v]))) <==> Wanted(p, cred, o) && cred.issuer == v
    {
      assert ScanOnly(p, cred, o) <==> ScanOnly(p, cred, o.(issuers := Some([v])));
    }
  }

  lemma TypeFacetExact(p: Platform, creds: Store, o: Options, n: int)
    requires o.types.None?
    ensures FacetMembers(p, creds, o, TypeFacet, IntText(n)) == Survivors(p, creds, o.(types := Some([n])))
  {
    forall cred: Credential
      ensures Wanted(p, cred, o.(types := Some([n])))
        <==> Wanted(p, cred, o) && IntText(cred.credentialType) == IntText(n)
    {
      assert ScanOnly(p, cred, o) <==> ScanOnly(p, cred, o.(types := Some([n])));
      if IntText(cred.credentialType) == IntText(n) { IntTextInjective(cred.credentialType, n); }
    }
  }

  lemma StatusFacetExact(p: Platform, creds: Store, o: Options, v: string)
    requires o.status.None?
    ensures FacetMembers(p, creds, o, StatusFacet, v) == Survivors(p, creds, o.(status := Some(v)))
  {
    forall cred
      ensures Wanted(p, cred, o.(status := Some(v))) <==> Wanted(p, cred, o) && StatusOf(cred) == v
    {
      assert ScanOnly(p, cred, o) <==> ScanOnly(p, cred, o.(status := Some(v)));
    }
  }

  /**
   A search by jurisdiction finds the records whose code lies within it, so those behind the facet
   value of a normal code and those of all codes within.
   */
  lemma JurisdictionFacetIncluded(p: Platform, creds: Store, o: Options, v: string)
    requires o.jurisdictions.None? && v !in {"", "unknown"} && NormalizeJurisdiction(p, v) == v
    ensures FacetMembers(p, creds, o, JurisdictionFacet, v) <= Survivors(p, creds, o.(jurisdictions := Some([v])))
    ensures forall id :: id in Survivors(p, creds, o.(jurisdictions := Some([v]))) <==>
      && id in Survivors(p, creds, o) && JurisdictionOf(p, creds[id]) != ""
      && Within(NormalizeJurisdiction(p, JurisdictionOf(p, creds[id])), v)
  {
    forall cred
      ensures Wanted(p, cred, o.(jurisdictions := Some([v]))) <==>
        && Wanted(p, cred, o) && JurisdictionOf(p, cred) != ""
        && Within(NormalizeJurisdiction(p, JurisdictionOf(p, cred)), v)
    {
      WantedInJurisdiction(p, cred, o, v);
    }
  }

  lemma WantedInJurisdiction(p: Platform, cred: Credential, o: Options, v: string)
    requires o.jurisdictions.None? && NormalizeJurisdiction(p, v) == v
    ensures Wanted(p, cred, o.(jurisdictions := Some([v]))) <==>
      && Wanted(p, cred, o) && JurisdictionOf(p, cred) != ""
      && Within(NormalizeJurisdiction(p, JurisdictionOf(p, cred)), v)
  {
    assert ScanOnly(p, cred, o) <==> ScanOnly(p, cred, o.(jurisdictions := Some([v])));
    InJurisdictionMeans(p, cred, [v]);
    assert [v][0] == v;
  }

  /**
   The issuer-type facet agrees with its filter exactly when it does not lump records
   without an issuer type under "unknown".
   */
  lemma IssuerTypeFacetExact(p: Platform, creds: Store, o: Options, v: string)
    requires o.issuerTypes.None?
    ensures FacetMembers(p, creds, o, IssuerTypeFacet, v) == Survivors(p, creds, o.(issuerTypes := Some([v])))
            <==> (v == "unknown" ==> forall id :: id in Survivors(p, creds, o) ==> creds[id].issuerType != "")
  {
    var o' := o.(issuerTypes := Some([v]));
    var members, narrower := FacetMembers(p, creds, o, IssuerTypeFacet, v), Survivors(p, creds, o');
    forall cred ensures ScanOnly(p, cred, o) <==> ScanOnly(p, cred, o') {}
    forall cred
      ensures Wanted(p, cred, o') <==> Wanted(p, cred, o) && cred.issuerType == v && v != ""
    {
    }
    forall id ensures id in narrower <==> id in members && creds[id].issuerType != "" {
    }
  }
}
