/** Sorting search results and walking them page by page with a cursor. */
module Pages {
  import opened JsText
  import opened Credentials
  import opened Queries

  // ---- sorting ----

  /** The number or collation rank a record is compared by. */
  function SortRank(p: Platform, cred: Credential, key: SortKey): real {
    match key
    case ByType => cred.credentialType as real
    case ByCreated => p.collation(cred.createdAt)
    case ByUpdated => p.collation(cred.updatedAt)
    case ByRecency => RecencyOf(p, cred) as real
    case ByReputation => Reputation(p, cred) as real
    case ByRelevance => 0.0
    case ById => if AllDigits(cred.id) && cred.id != "" then Numeral(cred.id) as real else p.collation(cred.id)
  }

  function RecencyOf(p: Platform, cred: Credential): int {
    match DateOf(p, if cred.createdAt != "" then cred.createdAt else cred.updatedAt)
    case Some(t) => t
    case None => 0
  }

  /** Sign of the comparison: the first key that tells the records apart decides. */
  function CompareByKeys(p: Platform, a: Credential, b: Credential, keys: seq<SortKey>, descending: bool): real {
    if keys == [] then 0.0
    else
      var cmp := SortRank(p, a, keys[0]) - SortRank(p, b, keys[0]);
      if cmp != 0.0 then (if descending then -cmp else cmp)
      else CompareByKeys(p, a, b, keys[1..], descending)
  }

  /** How a result list is ordered: by sort keys, or by relevance to the query, best first. */
  datatype Order = ByKeys(keys: seq<SortKey>, descending: bool) | BestMatch(queries: seq<string>)

  function OrderOf(p: Platform, o: Options): Order {
    var queries := QueryTokens(p, o);
    if o.sortBy == [ByRelevance] && queries != [] then BestMatch(queries)
    else ByKeys(if o.sortBy == [] then [ById] else o.sortBy, o.descending)
  }

  predicate InOrder(p: Platform, order: Order, a: Credential, b: Credential) {
    match order
    case ByKeys(keys, descending) => CompareByKeys(p, a, b, keys, descending) <= 0.0
    case BestMatch(queries) => Score(p, a, queries) >= Score(p, b, queries)
  }

  lemma {:induction false} CompareTransitive(
    p: Platform, a: Credential, b: Credential, c: Credential, keys: seq<SortKey>, descending: bool)
    ensures CompareByKeys(p, a, b, keys, descending) == -CompareByKeys(p, b, a, keys, descending)
    ensures CompareByKeys(p, a, b, keys, descending) <= 0.0 && CompareByKeys(p, b, c, keys, descending) <= 0.0
            ==> CompareByKeys(p, a, c, keys, descending) <= 0.0
  {
    if keys != [] { CompareTransitive(p, a, b, c, keys[1..], descending); }
  }

  /** The comparator is a total preorder, so sorting by it is well defined. */
  lemma OrderIsTotalPreorder(p: Platform, order: Order, a: Credential, b: Credential, c: Credential)
    ensures InOrder(p, order, a, b) || InOrder(p, order, b, a)
    ensures InOrder(p, order, a, b) && InOrder(p, order, b, c) ==> InOrder(p, order, a, c)
  {
    if order.ByKeys? { CompareTransitive(p, a, b, c, order.keys, order.descending); }
  }

  predicate Ordered(p: Platform, order: Order, s: seq<Credential>) {
    forall i, j :: 0 <= i < j < |s| ==> InOrder(p, order, s[i], s[j])
  }

  /** A comparison of records: whether the first may stand before the second. */
  type AtMost = (Credential, Credential) -> bool

  function Comparison(p: Platform, order: Order): AtMost { (a, b) => InOrder(p, order, a, b) }

  ghost predicate TotalPreorder(le: AtMost) {
    && (forall a, b :: le(a, b) || le(b, a))
    && (forall a, b, c :: le(a, b) && le(b, c) ==> le(a, c))
  }

  lemma ComparisonIsTotalPreorder(p: Platform, order: Order)
    ensures TotalPreorder(Comparison(p, order))
  {
    forall a, b, c ensures InOrder(p, order, a, b) || InOrder(p, order, b, a)
      ensures InOrder(p, order, a, b) && InOrder(p, order, b, c) ==> InOrder(p, order, a, c)
    {
      OrderIsTotalPreorder(p, order, a, b, c);
    }
  }

  predicate Sorted(le: AtMost, s: seq<Credential>) {
    forall i, j :: 0 <= i < j < |s| ==> le(s[i], s[j])
  }

  function Insert(le: AtMost, c: Credential, s: seq<Credential>): seq<Credential> {
    if s == [] || le(c, s[0]) then [c] + s else [s[0]] + Insert(le, c, s[1..])
  }

  function InsertionSort(le: AtMost, s: seq<Credential>): seq<Credential> {
    if s == [] then [] else Insert(le, s[0], InsertionSort(le, s[1..]))
  }

  /** `Array.prototype.sort`, which is stable. */
  function Sort(p: Platform, order: Order, s: seq<Credential>): seq<Credential> {
    InsertionSort(Comparison(p, order), s)
  }

  lemma ConsMembers(c: Credential, s: seq<Credential>)
    ensures multiset([c] + s) == multiset{c} + multiset(s)
  {
  }

  lemma {:induction false} InsertMembers(le: AtMost, c: Credential, s: seq<Credential>)
    ensures multiset(Insert(le, c, s)) == multiset(s) + multiset{c}
  {
    if s == [] || le(c, s[0]) {
      ConsMembers(c, s);
    } else {
      InsertMembers(le, c, s[1..]);
      ConsMembers(s[0], Insert(le, c, s[1..]));
      ConsMembers(s[0], s[1..]);
      assert s == [s[0]] + s[1..];
    }
  }

  lemma {:induction false} ConsSorted(le: AtMost, c: Credential, s: seq<Credential>)
    requires Sorted(le, s) && forall d :: d in s ==> le(c, d)
    ensures Sorted(le, [c] + s)
  {
  }

  lemma {:induction false} InsertKeepsOrder(le: AtMost, c: Credential, s: seq<Credential>)
    requires TotalPreorder(le) && Sorted(le, s)
    ensures Sorted(le, Insert(le, c, s))
  {
    if s != [] && le(c, s[0]) {
      forall d | d in s ensures le(c, d) {
        var j :| 0 <= j < |s| && s[j] == d;
        assert j == 0 || le(s[0], s[j]);
      }
      ConsSorted(le, c, s);
    } else if s != [] {
      var rest := Insert(le, c, s[1..]);
      InsertKeepsOrder(le, c, s[1..]);
      InsertMembers(le, c, s[1..]);
      forall d | d in rest ensures le(s[0], d) {
        assert d in multiset(s[1..]) + multiset{c};
        if d in s[1..] {
          var j :| 0 <= j < |s[1..]| && s[1..][j] == d;
          assert le(s[0], s[j + 1]);
        }
      }
      ConsSorted(le, s[0], rest);
    }
  }

  lemma {:induction false} InsertionSortSorts(le: AtMost, s: seq<Credential>)
    requires TotalPreorder(le)
    ensures Sorted(le, InsertionSort(le, s))
    ensures multiset(InsertionSort(le, s)) == multiset(s)
  {
    if s != [] {
      InsertionSortSorts(le, s[1..]);
      InsertKeepsOrder(le, s[0], InsertionSort(le, s[1..]));
      InsertMembers(le, s[0], InsertionSort(le, s[1..]));
      ConsMembers(s[0], s[1..]);
      assert s == [s[0]] + s[1..];
    }
  }

  lemma {:induction false} SortSorts(p: Platform, order: Order, s: seq<Credential>)
    ensures Ordered(p, order, Sort(p, order, s))
    ensures multiset(Sort(p, order, s)) == multiset(s)
  {
    ComparisonIsTotalPreorder(p, order);
    InsertionSortSorts(Comparison(p, order), s);
    assert Sorted(Comparison(p, order), Sort(p, order, s));
  }

  /** The records of a list that a comparison does not tell apart from a given one, in their order. */
  function Ties(le: AtMost, s: seq<Credential>, c: Credential): seq<Credential> {
    if s == [] then [] else (if le(s[0], c) && le(c, s[0]) then [s[0]] else []) + Ties(le, s[1..], c)
  }

  lemma {:induction false} TiesCons(le: AtMost, x: Credential, s: seq<Credential>, c: Credential)
    ensures Ties(le, [x] + s, c) == (if le(x, c) && le(c, x) then [x] else []) + Ties(le, s, c)
  {
    assert ([x] + s)[1..] == s;
  }

  lemma {:induction false} InsertKeepsTies(le: AtMost, x: Credential, s: seq<Credential>, c: Credential)
    requires TotalPreorder(le)
    ensures Ties(le, Insert(le, x, s), c) == Ties(le, [x] + s, c)
  {
    if s != [] && !le(x, s[0]) {
      InsertKeepsTies(le, x, s[1..], c);
      TiesCons(le, s[0], Insert(le, x, s[1..]), c);
      TiesCons(le, x, s[1..], c);
      TiesCons(le, x, s, c);
    }
  }

  lemma {:induction false} InsertionSortIsStable(le: AtMost, s: seq<Credential>, c: Credential)
    requires TotalPreorder(le)
    ensures Ties(le, InsertionSort(le, s), c) == Ties(le, s, c)
  {
    if s != [] {
      InsertionSortIsStable(le, s[1..], c);
      InsertKeepsTies(le, s[0], InsertionSort(le, s[1..]), c);
      TiesCons(le, s[0], InsertionSort(le, s[1..]), c);
    }
  }

  /** Sorting is stable: records that compare equal keep the order they came in. */
  lemma SortIsStable(p: Platform, order: Order, s: seq<Credential>, c: Credential)
    ensures Ties(Comparison(p, order), Sort(p, order, s), c) == Ties(Comparison(p, order), s, c)
  {
    ComparisonIsTotalPreorder(p, order);
    InsertionSortIsStable(Comparison(p, order), s, c);
  }

  /** Records agree on all keys before k, and k puts a strictly before b. */
  predicate FirstDifference(p: Platform, a: Credential, b: Credential, keys: seq<SortKey>, descending: bool, k: nat) {
    && k < |keys| && (forall i :: 0 <= i < k ==> SortRank(p, a, keys[i]) == SortRank(p, b, keys[i]))
    && if descending then SortRank(p, a, keys[k]) > SortRank(p, b, keys[k])
       else SortRank(p, a, keys[k]) < SortRank(p, b, keys[k])
  }

  /** The order is lexicographic: the first key on which two records differ decides, in the wanted direction. */
  lemma {:induction false} FirstDifferenceDecides(
    p: Platform, a: Credential, b: Credential, keys: seq<SortKey>, descending: bool)
    ensures CompareByKeys(p, a, b, keys, descending) < 0.0
            <==> exists k :: FirstDifference(p, a, b, keys, descending, k)
  {
    if keys != [] {
      var rest := keys[1..];
      FirstDifferenceDecides(p, a, b, rest, descending);
      if SortRank(p, a, keys[0]) == SortRank(p, b, keys[0]) {
        if k: nat :| FirstDifference(p, a, b, rest, descending, k) {
          assert FirstDifference(p, a, b, keys, descending, k + 1);
        }
        forall k: nat | FirstDifference(p, a, b, keys, descending, k)
          ensures k > 0 && FirstDifference(p, a, b, rest, descending, k - 1)
        {
        }
      } else if CompareByKeys(p, a, b, keys, descending) < 0.0 {
        assert FirstDifference(p, a, b, keys, descending, 0);
      }
    }
  }

  /** Each sort key reads its own field; recency falls back to the last update when there is no creation date. */
  lemma RanksReadTheirField(p: Platform, a: Credential, b: Credential)
    ensures a.createdAt == b.createdAt ==> SortRank(p, a, ByCreated) == SortRank(p, b, ByCreated)
    ensures a.updatedAt == b.updatedAt ==> SortRank(p, a, ByUpdated) == SortRank(p, b, ByUpdated)
    ensures a.createdAt == b.createdAt != "" ==> SortRank(p, a, ByRecency) == SortRank(p, b, ByRecency)
    ensures a.createdAt == "" && a.updatedAt == b.createdAt ==>
      SortRank(p, a, ByRecency) == SortRank(p, b.(updatedAt := a.updatedAt), ByRecency)
    ensures a.credentialType < b.credentialType <==> SortRank(p, a, ByType) < SortRank(p, b, ByType)
  {
  }

  /** A search by relevance lists the best scores first; without a query, or without a sort key, ids decide. */
  lemma RelevanceOrders(p: Platform, o: Options, s: seq<Credential>)
    ensures o.sortBy == [ByRelevance] && QueryTokens(p, o) != [] ==>
      (Ordered(p, OrderOf(p, o), s) <==>
        forall i, j :: 0 <= i < j < |s| ==> Score(p, s[i], QueryTokens(p, o)) >= Score(p, s[j], QueryTokens(p, o)))
    ensures o.sortBy == [] ==> OrderOf(p, o) == OrderOf(p, o.(sortBy := [ById])) == ByKeys([ById], o.descending)
    ensures o.sortBy != [ByRelevance] && o.sortBy != [] ==> OrderOf(p, o) == ByKeys(o.sortBy, o.descending)
  {
  }

  /** One more attestation outweighs every issuer type; among equals government, bank and private rank in this order. */
  lemma ReputationRanks(p: Platform, a: Credential, b: Credential)
    ensures a.attestationCount < b.attestationCount ==> SortRank(p, a, ByReputation) < SortRank(p, b, ByReputation)
    ensures a.attestationCount == b.attestationCount ==>
      (SortRank(p, a, ByReputation) < SortRank(p, b, ByReputation)
       <==> TypeStanding(p.lower(a.issuerType)) < TypeStanding(p.lower(b.issuerType)))
  {
  }

  const STANDING: seq<string> := ["private", "bank", "government"]

  /** One more than the position in the list of types, from the lowest, and 0 for all others. */
  function TypeStanding(t: string): nat {
    if t == STANDING[2] then 3 else if t == STANDING[1] then 2 else if t == STANDING[0] then 1 else 0
  }

  // ---- cursors ----

  function Clamp0(n: int): nat { if n < 0 then 0 else n }

  /** The text a record is found by on the next page: its value of the first sort key. */
  function SortValue(p: Platform, cred: Credential, sortBy: seq<SortKey>): string {
    match if sortBy == [] then ById else sortBy[0]
    case ByType => PadZeros(IntText(cred.credentialType), 20)
    case ByCreated => cred.createdAt
    case ByUpdated => cred.updatedAt
    case ByRecency => PadZeros(IntText(Clamp0(RecencyOf(p, cred))), 20)
    case ByReputation => PadZeros(IntText(Clamp0(Reputation(p, cred))), 20)
    case ByRelevance => PadZeros("0", 20)
    case ById => PadZeros(cred.id, 20)
  }

  /** For a number that fits, the cursor text of a record is ordered as the rank it is sorted by. */
  lemma CursorTextsFollowRanks(p: Platform, a: Credential, b: Credential, key: SortKey)
    requires key in {ByType, ByRecency, ByReputation} && RankFits(p, a, key) && RankFits(p, b, key)
    ensures Before(SortValue(p, a, [key]), SortValue(p, b, [key])) <==> SortRank(p, a, key) < SortRank(p, b, key)
  {
    var m, n := RankNumber(p, a, key), RankNumber(p, b, key);
    NatTextReadsBack(m);
    NatTextReadsBack(n);
    PaddedOrder(NatText(m), NatText(n), 20);
  }

  /** The cursor text of a date tells exactly that date. */
  lemma CursorTextsTellDates(p: Platform, a: Credential, b: Credential)
    ensures SortValue(p, a, [ByCreated]) == SortValue(p, b, [ByCreated]) <==> a.createdAt == b.createdAt
    ensures SortValue(p, a, [ByUpdated]) == SortValue(p, b, [ByUpdated]) <==> a.updatedAt == b.updatedAt
  {
  }

  function RankNumber(p: Platform, cred: Credential, key: SortKey): int {
    match key
    case ByType => cred.credentialType
    case ByRecency => RecencyOf(p, cred)
    case _ => Reputation(p, cred)
  }

  predicate RankFits(p: Platform, cred: Credential, key: SortKey) {
    RankNumber(p, cred, key) >= 0 && |NatText(RankNumber(p, cred, key))| <= 20
  }

  /** What a walk sorts and pages by: a text for every record. */
  type Key = Credential -> string

  function KeyOf(p: Platform, sortBy: seq<SortKey>): Key { c => SortValue(p, c, sortBy) }

  function Values(key: Key, s: seq<Credential>): (values: seq<string>)
    ensures |values| == |s|
    ensures forall i :: 0 <= i < |s| ==> values[i] == key(s[i])
  {
    seq(|s|, i requires 0 <= i < |s| => key(s[i]))
  }

  predicate Ascending(values: seq<string>) {
    forall i, j {:trigger Before(values[i], values[j])} :: 0 <= i < j < |values| ==> Before(values[i], values[j])
  }

  /** Ids as the chain issues them, small enough for a double to hold exactly. */
  predicate CredentialId(id: string) { Canonical(id) && |id| <= 15 }

  /** Sorting distinct numeric ids by id gives strictly ascending cursor texts. */
  lemma SortedByIdAscends(p: Platform, s: seq<Credential>)
    requires Ordered(p, ByKeys([ById], false), s)
    requires forall i :: 0 <= i < |s| ==> CredentialId(s[i].id)
    requires forall i, j :: 0 <= i < j < |s| ==> s[i].id != s[j].id
    ensures Ascending(Values(KeyOf(p, [ById]), s))
    ensures "" !in Values(KeyOf(p, [ById]), s)
  {
    NoEmptyText(p, s);
    var values := Values(KeyOf(p, [ById]), s);
    forall i, j | 0 <= i < j < |s| ensures Before(values[i], values[j]) {
      var a, b := s[i], s[j];
      assert InOrder(p, ByKeys([ById], false), a, b);
      assert CompareByKeys(p, a, b, [ById][1..], false) == 0.0;
      assert Numeral(a.id) <= Numeral(b.id);
      if Numeral(a.id) == Numeral(b.id) { CanonicalInjective(a.id, b.id); }
      PaddedOrder(a.id, b.id, 20);
    }
  }

  lemma NoEmptyText(p: Platform, s: seq<Credential>)
    requires forall i :: 0 <= i < |s| ==> CredentialId(s[i].id)
    ensures "" !in Values(KeyOf(p, [ById]), s)
  {
    forall i | 0 <= i < |s| ensures Values(KeyOf(p, [ById]), s)[i] != "" { PaddingKeepsValue(s[i].id, 20); }
  }

  /** Sorted by id descending, the cursor texts strictly descend. */
  lemma SortedByIdDescends(p: Platform, s: seq<Credential>)
    requires Ordered(p, ByKeys([ById], true), s)
    requires forall i :: 0 <= i < |s| ==> CredentialId(s[i].id)
    requires forall i, j :: 0 <= i < j < |s| ==> s[i].id != s[j].id
    ensures Descending(Values(KeyOf(p, [ById]), s))
    ensures "" !in Values(KeyOf(p, [ById]), s)
  {
    NoEmptyText(p, s);
    var values := Values(KeyOf(p, [ById]), s);
    forall i, j | 0 <= i < j < |s| ensures Before(values[j], values[i]) {
      var a, b := s[i], s[j];
      assert InOrder(p, ByKeys([ById], true), a, b);
      assert CompareByKeys(p, a, b, [ById][1..], true) == 0.0;
      assert Numeral(a.id) >= Numeral(b.id);
      if Numeral(a.id) == Numeral(b.id) { CanonicalInjective(a.id, b.id); }
      PaddedOrder(b.id, a.id, 20);
    }
  }

  // ---- one page ----

  predicate AtOrBefore(v: string, cursor: string) { v == cursor || Before(v, cursor) }

  /** Where a page starts: past exactly the records at or before the cursor. */
  ghost predicate StartsAfter(values: seq<string>, cursor: string, start: nat) {
    && start <= |values|
    && (forall i :: 0 <= i < start ==> AtOrBefore(values[i], cursor))
    && (forall i :: start <= i < |values| ==> Before(cursor, values[i]))
  }

  lemma StartUnique(values: seq<string>, cursor: string, a: nat, b: nat)
    requires StartsAfter(values, cursor, a) && StartsAfter(values, cursor, b)
    ensures a == b
  {
    if a < b { BeforeTrichotomy(values[a], cursor); }
    if b < a { BeforeTrichotomy(values[b], cursor); }
  }

  lemma BelowIsAtOrBefore(values: seq<string>, cursor: string, mid: nat)
    requires Ascending(values) && mid < |values| && AtOrBefore(values[mid], cursor)
    ensures forall i :: 0 <= i <= mid ==> AtOrBefore(values[i], cursor)
  {
    forall i | 0 <= i < mid ensures AtOrBefore(values[i], cursor) {
      if Before(values[mid], cursor) { BeforeTransitive(values[i], values[mid], cursor); }
    }
  }

  lemma AboveIsAfter(values: seq<string>, cursor: string, mid: nat)
    requires Ascending(values) && mid < |values| && AtOrBefore(cursor, values[mid])
    ensures forall i :: mid < i < |values| ==> Before(cursor, values[i])
  {
    forall i | mid < i < |values| ensures Before(cursor, values[i]) {
      if Before(cursor, values[mid]) { BeforeTransitive(cursor, values[mid], values[i]); }
    }
  }

  /** The interval the search holds on an ascending list: nothing before it is past the cursor, all behind it is. */
  ghost predicate AscendingInterval(values: seq<string>, cursor: string, low: int, high: int) {
    && (forall i :: 0 <= i < low && i < |values| ==> AtOrBefore(values[i], cursor))
    && (forall i :: 0 <= i && high < i < |values| ==> Before(cursor, values[i]))
  }

  lemma AscendingProbe(values: seq<string>, cursor: string, low: nat, high: int)
    requires Ascending(values) && low <= high < |values| && AscendingInterval(values, cursor, low, high)
    ensures var mid := (low + high) / 2;
            && (Before(values[mid], cursor) ==> AscendingInterval(values, cursor, mid + 1, high))
            && (Before(cursor, values[mid]) ==> AscendingInterval(values, cursor, low, mid - 1))
            && (values[mid] == cursor ==> StartsAfter(values, cursor, mid + 1))
  {
    var mid := (low + high) / 2;
    if AtOrBefore(values[mid], cursor) { BelowIsAtOrBefore(values, cursor, mid); }
    if AtOrBefore(cursor, values[mid]) { AboveIsAfter(values, cursor, mid); }
  }

  predicate Descending(values: seq<string>) {
    forall i, j {:trigger Before(values[j], values[i])} :: 0 <= i < j < |values| ==> Before(values[j], values[i])
  }

  /** Where the search lands on a descending list of n records for the text of record k. */
  function DescendingStart(n: nat, k: nat): nat
    requires k < n
  {
    if k == (n - 1) / 2 then k + 1 else if k > (n - 1) / 2 then 0 else n
  }

  /** The interval the search holds while looking for record k of a descending list. */
  ghost predicate DescendingInterval(values: seq<string>, cursor: string, low: int, high: int) {
    forall k :: 0 <= k < |values| && values[k] == cursor ==>
      || (low == 0 && high == |values| - 1)
      || (k > (|values| - 1) / 2 && low == 0 && high < k)
      || (k < (|values| - 1) / 2 && high == |values| - 1 && k < low)
  }

  lemma DescendingProbe(values: seq<string>, cursor: string, low: nat, high: int)
    requires Descending(values) && low <= high < |values| && DescendingInterval(values, cursor, low, high)
    ensures var mid := (low + high) / 2;
            && (Before(values[mid], cursor) ==> DescendingInterval(values, cursor, mid + 1, high))
            && (Before(cursor, values[mid]) ==> DescendingInterval(values, cursor, low, mid - 1))
            && (values[mid] == cursor ==> forall k :: 0 <= k < |values| && values[k] == cursor ==>
              k == mid == (|values| - 1) / 2)
  {
    var mid := (low + high) / 2;
    forall k | 0 <= k < |values|
      ensures k < mid ==> Before(values[mid], values[k]) && !Before(values[k], values[mid]) && values[k] != values[mid]
      ensures k > mid ==> Before(values[k], values[mid]) && !Before(values[mid], values[k]) && values[k] != values[mid]
      ensures !Before(values[k], values[k])
    {
      BeforeTrichotomy(values[k], values[mid]);
      BeforeTrichotomy(values[mid], values[k]);
      BeforeTrichotomy(values[k], values[k]);
    }
  }

  /**
   The binary search for the first record past the cursor. On a list whose cursor texts
   ascend it finds it. On a descending list it continues after record k only when k is the
   record probed first; from any later record it starts over, from any earlier one it ends.
   */
  method FindStart(key: Key, records: seq<Credential>, cursor: string) returns (start: nat)
    ensures start <= |records|
    ensures cursor == "" ==> start == 0
    ensures cursor != "" && Ascending(Values(key, records)) ==>
      StartsAfter(Values(key, records), cursor, start)
    ensures cursor != "" && Descending(Values(key, records)) ==>
      forall k :: 0 <= k < |records| && Values(key, records)[k] == cursor ==>
        start == DescendingStart(|records|, k)
  {
    ghost var values := Values(key, records);
    start := 0;
    if cursor != "" {
      var low, high := 0, |records| - 1;
      while low <= high
        invariant 0 <= low <= high + 1 <= |records|
        invariant Ascending(values) ==> AscendingInterval(values, cursor, low, high)
        invariant Descending(values) ==> DescendingInterval(values, cursor, low, high)
      {
        var mid := (low + high) / 2;
        var midValue := key(records[mid]);
        BeforeTrichotomy(midValue, cursor);
        if Ascending(values) { AscendingProbe(values, cursor, low, high); }
        if Descending(values) { DescendingProbe(values, cursor, low, high); }
        if Before(midValue, cursor) {
          low := mid + 1;
        } else if Before(cursor, midValue) {
          high := mid - 1;
        } else {
          start := mid + 1;
          break;
        }
      }
      if start == 0 { start := low; }
    }
  }

  function PageSize(limit: int): (size: nat)
    ensures 1 <= size <= 100
    ensures 1 <= limit <= 100 ==> size == limit
    ensures limit < 1 ==> size == 1
    ensures limit > 100 ==> size == 100
  {
    var atLeastOne := if limit < 1 then 1 else limit;
    if atLeastOne > 100 then 100 else atLeastOne
  }

  /** A page and the cursor of the next one, "" when there is none. */
  datatype Page = Page(start: nat, data: seq<Credential>, next: string, hasMore: bool)

  /** Where the page at a cursor starts: past the cursor if the texts ascend, and where it lands if they descend. */
  ghost predicate IsStart(values: seq<string>, cursor: string, start: nat) {
    && (cursor == "" ==> start == 0)
    && (cursor != "" && Ascending(values) ==> StartsAfter(values, cursor, start))
    && (cursor != "" && Descending(values) ==>
          forall k :: 0 <= k < |values| && values[k] == cursor ==> start == DescendingStart(|values|, k))
  }

  /** The records of a page, and what it says about the next one. */
  ghost predicate IsCut(key: Key, records: seq<Credential>, size: nat, page: Page) {
    && page.start <= |records|
    && page.data == records[page.start..Least(page.start + size, |records|)]
    && page.hasMore == (page.start + size < |records|)
    && page.next == if page.hasMore && page.data != [] then key(page.data[|page.data| - 1]) else ""
  }

  /** What a page over a list must be. */
  ghost predicate IsPage(
    key: Key, records: seq<Credential>, cursor: string, size: nat, page: Page)
  {
    IsStart(Values(key, records), cursor, page.start) && IsCut(key, records, size, page)
  }

  function Least(a: nat, b: nat): nat { if a <= b then a else b }

  method TakePage(key: Key, records: seq<Credential>, cursor: string, limit: int) returns (page: Page)
    ensures IsPage(key, records, cursor, PageSize(limit), page)
  {
    var size := PageSize(limit);
    var start := FindStart(key, records, cursor);
    var end := if start + size <= |records| then start + size else |records|;
    var data := records[start..end];
    var hasMore := start + size < |records|;
    var next := if hasMore && |data| > 0 then key(data[|data| - 1]) else "";
    page := Page(start, data, next, hasMore);
  }

  // ---- walks ----

  /** Page k answers the cursor of page k - 1 and is cut from list k; only the last page may end the walk. */
  ghost predicate IsWalkPage(key: Key, size: nat, lists: seq<seq<Credential>>, pages: seq<Page>, k: nat)
    requires k < |pages| == |lists|
  {
    var values := Values(key, lists[k]);
    && Ascending(values) && "" !in values
    && IsPage(key, lists[k], if k == 0 then "" else pages[k - 1].next, size, pages[k])
    && (k < |pages| - 1 ==> pages[k].next != "")
  }

  /**
   A client following `next_cursor`: page k is cut from lists[k], the result list at the
   time of request k. Records may come and go between requests.
   */
  ghost predicate IsWalk(key: Key, size: nat, lists: seq<seq<Credential>>, pages: seq<Page>) {
    |pages| == |lists| && forall k :: 0 <= k < |pages| ==> IsWalkPage(key, size, lists, pages, k)
  }

  function Collected(pages: seq<Page>): seq<Credential> {
    if pages == [] then [] else Collected(pages[..|pages| - 1]) + pages[|pages| - 1].data
  }

  lemma WalkPrefix(key: Key, size: nat, lists: seq<seq<Credential>>, pages: seq<Page>)
    requires size >= 1 && IsWalk(key, size, lists, pages) && pages != []
    ensures IsWalk(key, size, lists[..|lists| - 1], pages[..|pages| - 1])
    ensures |pages| > 1 ==> pages[|pages| - 2].next != ""
  {
    var n := |pages| - 1;
    forall k | 0 <= k < n ensures IsWalkPage(key, size, lists[..n], pages[..n], k) {
      assert IsWalkPage(key, size, lists, pages, k);
    }
    if n > 0 { assert IsWalkPage(key, size, lists, pages, n - 1); }
  }

  /** Everything collected so far is at or before the cursor handed out last. */
  lemma {:induction false} CollectedBeforeCursor(key: Key, size: nat, lists: seq<seq<Credential>>, pages: seq<Page>)
    requires size >= 1 && IsWalk(key, size, lists, pages)
    requires pages != [] && pages[|pages| - 1].next != ""
    ensures forall c :: c in Collected(pages) ==> AtOrBefore(key(c), pages[|pages| - 1].next)
  {
    var n := |pages| - 1;
    var page, records := pages[n], lists[n];
    assert IsWalkPage(key, size, lists, pages, n);
    var cursor := if n == 0 then "" else pages[n - 1].next;
    PageEndsAtCursor(key, records, cursor, size, page);
    WalkPrefix(key, size, lists, pages);
    if n > 0 { CollectedBeforeCursor(key, size, lists[..n], pages[..n]); }
    forall c | c in Collected(pages) && c !in page.data ensures AtOrBefore(key(c), page.next) {
      assert c in Collected(pages[..n]);
      if Before(key(c), cursor) {
        BeforeTransitive(key(c), cursor, page.next);
      }
    }
  }

  /** A page that hands out a cursor ends at it, and the cursor has moved on. */
  lemma {:induction false} PageEndsAtCursor(key: Key, records: seq<Credential>, cursor: string, size: nat, page: Page)
    requires size >= 1 && IsPage(key, records, cursor, size, page) && page.next != ""
    requires Ascending(Values(key, records)) && "" !in Values(key, records)
    ensures forall c :: c in page.data ==> AtOrBefore(key(c), page.next)
    ensures cursor != "" ==> Before(cursor, page.next)
  {
    var values := Values(key, records);
    var last := page.start + |page.data| - 1;
    assert values[last] == page.next;
    BelowIsAtOrBefore(values, page.next, last);
    forall c | c in page.data ensures AtOrBefore(key(c), page.next) {
      var i :| 0 <= i < |page.data| && page.data[i] == c;
      assert records[page.start + i] == c;
      assert AtOrBefore(values[page.start + i], page.next);
    }
  }

  lemma {:induction false} AscendingValues(a: seq<string>, b: seq<string>, cursor: string)
    requires Ascending(a) && Ascending(b)
    requires forall v :: v in a ==> AtOrBefore(v, cursor)
    requires forall v :: v in b ==> Before(cursor, v)
    ensures Ascending(a + b)
  {
    forall v, w | v in a && w in b ensures Before(v, w) {
      if Before(v, cursor) { BeforeTransitive(v, cursor, w); }
    }
  }

  lemma {:induction false} AscendingJoin(key: Key, a: seq<Credential>, b: seq<Credential>, cursor: string)
    requires Ascending(Values(key, a)) && Ascending(Values(key, b))
    requires forall c :: c in a ==> AtOrBefore(key(c), cursor)
    requires forall c :: c in b ==> Before(cursor, key(c))
    ensures Ascending(Values(key, a + b))
  {
    AscendingValues(Values(key, a), Values(key, b), cursor);
    assert Values(key, a + b) == Values(key, a) + Values(key, b);
  }

  lemma {:induction false} PageAscends(key: Key, records: seq<Credential>, cursor: string, size: nat, page: Page)
    requires Ascending(Values(key, records)) && IsPage(key, records, cursor, size, page)
    ensures Ascending(Values(key, page.data))
    ensures cursor != "" ==> forall c :: c in page.data ==> Before(cursor, key(c))
  {
    var values, mine := Values(key, records), Values(key, page.data);
    assert mine == values[page.start..page.start + |page.data|];
    forall c | c in page.data && cursor != "" ensures Before(cursor, key(c)) {
      var i :| 0 <= i < |page.data| && page.data[i] == c;
      assert Before(cursor, values[page.start + i]);
    }
  }

  /** No record is returned twice, and the whole walk is in order, whatever changes in between. */
  lemma {:induction false} WalkAscends(key: Key, size: nat, lists: seq<seq<Credential>>, pages: seq<Page>)
    requires size >= 1 && IsWalk(key, size, lists, pages)
    ensures Ascending(Values(key, Collected(pages)))
  {
    if pages != [] {
      var n := |pages| - 1;
      var front := pages[..n];
      assert IsWalkPage(key, size, lists, pages, n);
      var cursor := if n == 0 then "" else pages[n - 1].next;
      PageAscends(key, lists[n], cursor, size, pages[n]);
      WalkPrefix(key, size, lists, pages);
      WalkAscends(key, size, lists[..n], front);
      if n == 0 {
        assert Collected(pages) == pages[n].data;
      } else {
        assert front[n - 1] == pages[n - 1];
        CollectedBeforeCursor(key, size, lists[..n], front);
        AscendingJoin(key, Collected(front), pages[n].data, cursor);
      }
    }
  }

  /** A record of the list is on the page, past its end, or at or before the cursor it answered. */
  lemma {:induction false} CutCovers(
    key: Key, records: seq<Credential>, size: nat, page: Page, i: nat)
    requires Ascending(Values(key, records)) && "" !in Values(key, records)
    requires size >= 1 && IsCut(key, records, size, page) && page.start <= i < |records|
    ensures records[i] in page.data || (page.next != "" && Before(page.next, key(records[i])))
  {
    var values, end := Values(key, records), page.start + |page.data|;
    if i < end {
      assert page.data[i - page.start] == records[i];
    } else {
      assert page.next == values[end - 1] && values[end - 1] in values;
      assert Before(values[end - 1], values[i]);
    }
  }

  /** Every record of the list is on the page, ahead of its cursor, or at or before the cursor it answers. */
  lemma {:induction false} PageCovers(
    key: Key, records: seq<Credential>, cursor: string, size: nat, page: Page, c: Credential)
    requires Ascending(Values(key, records)) && "" !in Values(key, records)
    requires size >= 1 && IsPage(key, records, cursor, size, page) && c in records
    ensures c in page.data
      || (page.next != "" && Before(page.next, key(c)))
      || (cursor != "" && AtOrBefore(key(c), cursor))
  {
    var values := Values(key, records);
    var i :| 0 <= i < |records| && records[i] == c;
    if page.start <= i {
      CutCovers(key, records, size, page, i);
    } else {
      assert AtOrBefore(values[i], cursor);
    }
  }

  /** A record that stays in the results throughout is collected, or still lies ahead of the cursor. */
  lemma {:induction false} NothingSkipped(
    key: Key, size: nat, lists: seq<seq<Credential>>, pages: seq<Page>, c: Credential)
    requires size >= 1 && IsWalk(key, size, lists, pages) && pages != []
    requires forall k :: 0 <= k < |lists| ==> c in lists[k]
    ensures c in Collected(pages)
            || (pages[|pages| - 1].next != "" && Before(pages[|pages| - 1].next, key(c)))
  {
    var n := |pages| - 1;
    assert IsWalkPage(key, size, lists, pages, n);
    var cursor := if n == 0 then "" else pages[n - 1].next;
    PageCovers(key, lists[n], cursor, size, pages[n], c);
    if n > 0 {
      WalkPrefix(key, size, lists, pages);
      assert forall k :: 0 <= k < n ==> lists[..n][k] == lists[k];
      NothingSkipped(key, size, lists[..n], pages[..n], c);
      assert pages[..n][n - 1] == pages[n - 1];
      BeforeTrichotomy(cursor, key(c));
    }
    assert Collected(pages) == Collected(pages[..n]) + pages[n].data;
  }

  /** A walk that has ended collected every record that stayed in the results throughout. */
  lemma FinishedWalkComplete(key: Key, size: nat, lists: seq<seq<Credential>>, pages: seq<Page>, c: Credential)
    requires size >= 1 && IsWalk(key, size, lists, pages) && pages != []
    requires pages[|pages| - 1].next == ""
    requires forall k :: 0 <= k < |lists| ==> c in lists[k]
    ensures c in Collected(pages)
  {
    NothingSkipped(key, size, lists, pages, c);
  }

  /** A walk over a list that does not change. */
  ghost predicate IsStaticWalk(key: Key, size: nat, list: seq<Credential>, pages: seq<Page>) {
    IsWalk(key, size, seq(|pages|, _ => list), pages)
  }

  /** A page with a next cursor ends at a record of the list, whose text is the cursor. */
  lemma {:induction false} PageEnd(
    key: Key, list: seq<Credential>, size: nat, page: Page)
    requires size >= 1 && IsCut(key, list, size, page) && page.next != ""
    ensures page.start + size < |list| && page.next == Values(key, list)[page.start + size - 1]
  {
    assert page.data[|page.data| - 1] == list[page.start + size - 1];
  }

  lemma {:induction false} StartFollows(values: seq<string>, last: nat, start: nat)
    requires Ascending(values) && last < |values| && StartsAfter(values, values[last], start)
    ensures start == last + 1
  {
    BelowIsAtOrBefore(values, values[last], last);
    AboveIsAfter(values, values[last], last);
    StartUnique(values, values[last], last + 1, start);
  }

  function Offset(size: nat, k: nat): nat { if k == 0 then 0 else Offset(size, k - 1) + size }

  lemma {:induction false} OffsetIsProduct(size: nat, k: nat)
    ensures Offset(size, k) == size * k
  {
    if k > 0 {
      OffsetIsProduct(size, k - 1);
      assert size * k == size * (k - 1) + size;
    }
  }

  lemma {:induction false} StaticIsPage(
    key: Key, size: nat, list: seq<Credential>, pages: seq<Page>, k: nat)
    requires size >= 1 && k < |pages| && IsStaticWalk(key, size, list, pages)
    ensures IsPage(key, list, if k == 0 then "" else pages[k - 1].next, size, pages[k])
    ensures Ascending(Values(key, list)) && "" !in Values(key, list)
    ensures k < |pages| - 1 ==> pages[k].next != ""
  {
    var lists := seq(|pages|, _ => list);
    assert lists[k] == list;
    assert IsWalkPage(key, size, lists, pages, k);
  }

  lemma {:induction false} StaticCut(
    key: Key, size: nat, list: seq<Credential>, pages: seq<Page>, k: nat)
    requires size >= 1 && k < |pages| && IsStaticWalk(key, size, list, pages)
    ensures IsCut(key, list, size, pages[k]) && (k == 0 ==> pages[k].start == 0)
    ensures k < |pages| - 1 ==> pages[k].next != ""
  {
    StaticIsPage(key, size, list, pages, k);
  }

  lemma {:induction false} StaticEnd(
    key: Key, size: nat, list: seq<Credential>, pages: seq<Page>, k: nat)
    requires size >= 1 && k < |pages| - 1 && IsStaticWalk(key, size, list, pages)
    ensures pages[k].start + size < |list| && pages[k].next == Values(key, list)[pages[k].start + size - 1]
  {
    StaticCut(key, size, list, pages, k);
    PageEnd(key, list, size, pages[k]);
  }

  lemma {:induction false} StaticFollows(
    key: Key, size: nat, list: seq<Credential>, pages: seq<Page>, k: nat)
    requires size >= 1 && 0 < k < |pages| && IsStaticWalk(key, size, list, pages)
    ensures Ascending(Values(key, list)) && pages[k - 1].next != ""
    ensures StartsAfter(Values(key, list), pages[k - 1].next, pages[k].start)
  {
    StaticIsPage(key, size, list, pages, k);
    StaticCut(key, size, list, pages, k - 1);
  }

  /** Each page starts right behind the one before. */
  lemma {:induction false} StaticNext(
    key: Key, size: nat, list: seq<Credential>, pages: seq<Page>, k: nat)
    requires size >= 1 && 0 < k < |pages| && IsStaticWalk(key, size, list, pages)
    ensures pages[k].start == pages[k - 1].start + size < |list|
  {
    StaticEnd(key, size, list, pages, k - 1);
    StaticFollows(key, size, list, pages, k);
    StartFollows(Values(key, list), pages[k - 1].start + size - 1, pages[k].start);
  }

  /** Page k of such a walk starts after k full pages. */
  lemma {:induction false} StaticStart(key: Key, size: nat, list: seq<Credential>, pages: seq<Page>, k: nat)
    requires size >= 1 && k < |pages| && IsStaticWalk(key, size, list, pages)
    ensures pages[k].start == Offset(size, k) <= |list|
    ensures pages[k].data == list[Offset(size, k)..Least(Offset(size, k + 1), |list|)]
  {
    StaticCut(key, size, list, pages, k);
    if k > 0 {
      StaticStart(key, size, list, pages, k - 1);
      StaticNext(key, size, list, pages, k);
    }
  }

  lemma Halves(list: seq<Credential>, start: nat, end: nat)
    requires start <= end <= |list|
    ensures list[..start] + list[start..end] == list[..end]
  {
  }

  lemma {:induction false} StaticCollected(key: Key, size: nat, list: seq<Credential>, pages: seq<Page>, k: nat)
    requires size >= 1 && k <= |pages| && IsStaticWalk(key, size, list, pages)
    ensures Collected(pages[..k]) == list[..Least(Offset(size, k), |list|)]
  {
    if k > 0 {
      StaticCollected(key, size, list, pages, k - 1);
      StaticStart(key, size, list, pages, k - 1);
      Halves(list, Offset(size, k - 1), Least(Offset(size, k), |list|));
      CollectedSnoc(pages, k);
    }
  }

  lemma CollectedSnoc(pages: seq<Page>, k: nat)
    requires 0 < k <= |pages|
    ensures Collected(pages[..k]) == Collected(pages[..k - 1]) + pages[k - 1].data
  {
    assert pages[..k][..k - 1] == pages[..k - 1];
  }

  /**
   Following the cursor over a fixed list until there is no next page returns the list
   itself, every record once and in order, and takes at most |list| / size + 1 pages.
   */
  lemma {:induction false} StaticWalkReturnsList(key: Key, size: nat, list: seq<Credential>, pages: seq<Page>)
    requires size >= 1 && pages != [] && IsStaticWalk(key, size, list, pages)
    ensures size * (|pages| - 1) <= |list|
    ensures pages[|pages| - 1].next == "" ==> Collected(pages) == list
  {
    var n := |pages| - 1;
    StaticStart(key, size, list, pages, n);
    StaticIsPage(key, size, list, pages, n);
    StaticCollected(key, size, list, pages, |pages|);
    OffsetIsProduct(size, n);
    assert pages[..|pages|] == pages;
    LastPageHasNoMore(key, list, size, pages[n]);
  }

  /** Strictly ordered one way or the other. */
  predicate Strict(values: seq<string>, down: bool) {
    if down then Descending(values) else Ascending(values)
  }

  predicate Precedes(x: string, y: string, down: bool) { if down then Before(y, x) else Before(x, y) }

  lemma StrictMeans(values: seq<string>, down: bool, i: nat, j: nat)
    requires Strict(values, down) && i < j < |values|
    ensures Precedes(values[i], values[j], down) && values[i] != values[j]
  {
    BeforeTrichotomy(values[i], values[i]);
    if down { assert Before(values[j], values[i]); } else { assert Before(values[i], values[j]); }
  }

  /** The last record of one list is the last of the other. */
  lemma {:induction false} SameLast(key: Key, down: bool, a: seq<Credential>, b: seq<Credential>)
    requires a != [] && b != [] && (forall c :: c in a <==> c in b)
    requires Strict(Values(key, a), down) && Strict(Values(key, b), down)
    ensures a[|a| - 1] == b[|b| - 1]
  {
    var m, n := |a| - 1, |b| - 1;
    assert a[m] in b && b[n] in a;
    var i :| 0 <= i <= n && b[i] == a[m];
    var j :| 0 <= j <= m && a[j] == b[n];
    if i < n && j < m {
      StrictMeans(Values(key, b), down, i, n);
      StrictMeans(Values(key, a), down, j, m);
      BeforeTrichotomy(key(a[m]), key(b[n]));
    }
  }

  lemma {:induction false} FrontMembers(key: Key, down: bool, a: seq<Credential>, c: Credential)
    requires a != [] && Strict(Values(key, a), down)
    ensures c in a[..|a| - 1] <==> c in a && c != a[|a| - 1]
  {
    var m := |a| - 1;
    assert a == a[..m] + [a[m]];
    forall i | 0 <= i < m ensures a[i] != a[m] { StrictMeans(Values(key, a), down, i, m); }
  }

  lemma SomeMember(s: seq<Credential>)
    ensures s != [] ==> exists c :: c in s
  {
    if s != [] { assert s[0] in s; }
  }

  /** Two lists in the same strict order with the same records are the same list. */
  lemma {:induction false} SameStrict(key: Key, down: bool, a: seq<Credential>, b: seq<Credential>)
    requires forall c :: c in a <==> c in b
    requires Strict(Values(key, a), down) && Strict(Values(key, b), down)
    ensures a == b
  {
    if a == [] || b == [] {
      SomeMember(a);
      SomeMember(b);
    } else {
      var m, n := |a| - 1, |b| - 1;
      SameLast(key, down, a, b);
      StrictFront(key, down, a);
      StrictFront(key, down, b);
      forall c ensures c in a[..m] <==> c in b[..n] {
        FrontMembers(key, down, a, c);
        FrontMembers(key, down, b, c);
      }
      SameStrict(key, down, a[..m], b[..n]);
      assert a == a[..m] + [a[m]] && b == b[..n] + [b[n]];
    }
  }

  lemma StrictFront(key: Key, down: bool, a: seq<Credential>)
    requires a != [] && Strict(Values(key, a), down)
    ensures Strict(Values(key, a[..|a| - 1]), down)
  {
    var u, w := Values(key, a), Values(key, a[..|a| - 1]);
    forall i, j | 0 <= i < j < |w| ensures Precedes(w[i], w[j], down) { StrictMeans(u, down, i, j); }
  }

  // ---- walks down ----

  /** A client following `next_cursor` over a fixed descending list. */
  ghost predicate IsWalkDown(key: Key, size: nat, list: seq<Credential>, pages: seq<Page>) {
    && pages != [] && Descending(Values(key, list)) && "" !in Values(key, list)
    && (forall k :: 0 <= k < |pages| ==> IsPageDown(key, size, list, pages, k))
  }

  ghost predicate IsPageDown(key: Key, size: nat, list: seq<Credential>, pages: seq<Page>, k: nat)
    requires k < |pages|
  {
    && IsPage(key, list, if k == 0 then "" else pages[k - 1].next, size, pages[k])
    && (k < |pages| - 1 ==> pages[k].next != "")
  }

  /** The page of a list that starts at a given record. */
  function PageFrom(key: Key, list: seq<Credential>, size: nat, start: nat): Page
    requires start <= |list|
  {
    var end := Least(start + size, |list|);
    var hasMore := start + size < |list|;
    Page(start, list[start..end], if hasMore && start < end then key(list[end - 1]) else "", hasMore)
  }

  lemma CutIsPageFrom(key: Key, list: seq<Credential>, size: nat, page: Page)
    requires IsCut(key, list, size, page)
    ensures page == PageFrom(key, list, size, page.start)
  {
  }

  lemma {:induction false} FirstPage(key: Key, size: nat, list: seq<Credential>, pages: seq<Page>)
    requires size >= 1 && IsWalkDown(key, size, list, pages)
    ensures pages[0] == PageFrom(key, list, size, 0)
    ensures pages[0].next == "" <==> |list| <= size
  {
    assert IsPageDown(key, size, list, pages, 0);
    CutIsPageFrom(key, list, size, pages[0]);
    LastPageHasNoMore(key, list, size, pages[0]);
  }

  /** The page asked for with the cursor of the first page. */
  lemma {:induction false} SecondPage(key: Key, list: seq<Credential>, size: nat, page: Page)
    requires 1 <= size < |list| && Descending(Values(key, list)) && PageFrom(key, list, size, 0).next != ""
    requires IsPage(key, list, PageFrom(key, list, size, 0).next, size, page)
    ensures page == PageFrom(key, list, size, DescendingStart(|list|, size - 1))
  {
    assert Values(key, list)[size - 1] == PageFrom(key, list, size, 0).next;
    CutIsPageFrom(key, list, size, page);
  }

  /** With too few records for two pages, every page is the first one again. */
  lemma {:induction false} WalkDownRepeats(key: Key, size: nat, list: seq<Credential>, pages: seq<Page>, k: nat)
    requires size >= 1 && IsWalkDown(key, size, list, pages) && size < |list| < 2 * size - 1 && k < |pages|
    ensures pages[k] == pages[0] && pages[k].next != ""
  {
    FirstPage(key, size, list, pages);
    if k > 0 {
      WalkDownRepeats(key, size, list, pages, k - 1);
      assert IsPageDown(key, size, list, pages, k);
      SecondPage(key, list, size, pages[k]);
    }
  }

  /** Otherwise there are at most two pages. */
  lemma {:induction false} WalkDownIsShort(key: Key, size: nat, list: seq<Credential>, pages: seq<Page>)
    requires size >= 1 && IsWalkDown(key, size, list, pages) && !(size < |list| < 2 * size - 1)
    ensures pages[0] == PageFrom(key, list, size, 0)
    ensures |list| <= size ==> |pages| == 1
    ensures |list| > size ==> |pages| <= 2
    ensures |pages| == 2 ==> pages[1] == PageFrom(key, list, size, if |list| <= 2 * size then size else |list|)
  {
    FirstPage(key, size, list, pages);
    if |pages| >= 2 {
      assert IsPageDown(key, size, list, pages, 0);
      assert IsPageDown(key, size, list, pages, 1);
      SecondPage(key, list, size, pages[1]);
    }
  }

  /**
   How a walk down ends. Whole, if the list fits one page, or two up to one record. With fewer
   records than that every page repeats the first, and it does not end; with more the second page
   is empty and the rest is lost.
   */
  ghost predicate WalkedDown(size: nat, list: seq<Credential>, pages: seq<Page>)
    requires pages != []
  {
    && (size < |list| < 2 * size - 1 ==>
          forall k :: 0 <= k < |pages| ==> pages[k] == pages[0] && pages[k].next != "")
    && (!(size < |list| < 2 * size - 1) ==> |pages| <= 2)
    && (pages[|pages| - 1].next == "" ==>
          Collected(pages) == if FitsWalkDown(size, |list|) then list else list[..Least(size, |list|)])
  }

  /** The numbers of records that a walk down returns completely. */
  predicate FitsWalkDown(size: nat, n: nat) { n <= size || n == 2 * size - 1 || n == 2 * size }

  /** Every walk down a fixed list ends that way. */
  lemma {:induction false} WalkDownExactly(key: Key, size: nat, list: seq<Credential>, pages: seq<Page>)
    requires size >= 1 && IsWalkDown(key, size, list, pages)
    ensures WalkedDown(size, list, pages)
  {
    if size < |list| < 2 * size - 1 {
      forall k | 0 <= k < |pages| ensures pages[k] == pages[0] && pages[k].next != "" {
        WalkDownRepeats(key, size, list, pages, k);
      }
    } else {
      FirstPage(key, size, list, pages);
      WalkDownIsShort(key, size, list, pages);
      CollectedTwo(pages);
    }
  }

  lemma {:induction false} CollectedTwo(pages: seq<Page>)
    requires 1 <= |pages| <= 2
    ensures Collected(pages) == pages[0].data + if |pages| == 2 then pages[1].data else []
  {
    CollectedSnoc(pages, 1);
    if |pages| == 2 { CollectedSnoc(pages, 2); }
    assert pages[..|pages|] == pages && Collected(pages[..0]) == [];
  }

  lemma {:induction false} LastPageHasNoMore(
    key: Key, records: seq<Credential>, size: nat, page: Page)
    requires size >= 1 && IsCut(key, records, size, page) && "" !in Values(key, records)
    ensures page.next == "" <==> !page.hasMore
  {
    if page.hasMore {
      var last := page.start + |page.data| - 1;
      assert page.data[|page.data| - 1] == records[last];
      assert Values(key, records)[last] in Values(key, records);
    }
  }
}
