/** Deduplication of search results: one credential per subject and issuer, the newest. */
module Deduplication {
  import opened JsText
  import opened Credentials

  function KeyText(subject: string, issuer: string): string { subject + "::" + issuer }

  function Key(c: Credential): string { KeyText(c.subject, c.issuer) }

  function UpdatedAt(p: Platform, c: Credential): int {
    match p.parseDate(c.updatedAt)
    case None => 0
    case Some(t) => t
  }

  /** a is at most as new as b. */
  predicate AtMost(p: Platform, a: Credential, b: Credential) {
    a.version < b.version || (a.version == b.version && UpdatedAt(p, a) <= UpdatedAt(p, b))
  }

  // ---- what deduplication means ----

  /** The keys in order of first appearance. */
  function Keys(records: seq<Credential>): seq<string> {
    if records == [] then []
    else
      var n := |records| - 1;
      var before := Keys(records[..n]);
      if Key(records[n]) in before then before else before + [Key(records[n])]
  }

  lemma {:induction false} KeysMembers(records: seq<Credential>)
    ensures forall k :: k in Keys(records) <==> Group(records, k) != []
    ensures forall i, j :: 0 <= i < j < |Keys(records)| ==> Keys(records)[i] != Keys(records)[j]
  {
    if records != [] { KeysMembers(records[..|records| - 1]); }
  }

  function Group(records: seq<Credential>, key: string): seq<Credential> {
    if records == [] then []
    else
      var n := |records| - 1;
      Group(records[..n], key) + if Key(records[n]) == key then [records[n]] else []
  }

  /** The newest of a group, the last one among equals. */
  function Newest(p: Platform, group: seq<Credential>): Credential
    requires group != []
  {
    if |group| == 1 then group[0]
    else
      var n := |group| - 1;
      var best := Newest(p, group[..n]);
      if AtMost(p, best, group[n]) then group[n] else best
  }

  /** Position i holds the newest record of its key: none is newer, and none as new comes later. */
  ghost predicate IsNewestAt(p: Platform, records: seq<Credential>, i: nat) {
    && i < |records|
    && (forall j :: 0 <= j < |records| && Key(records[j]) == Key(records[i]) ==>
          if j <= i then AtMost(p, records[j], records[i]) else !AtMost(p, records[i], records[j]))
  }

  lemma {:induction false} GroupMembers(records: seq<Credential>, key: string)
    ensures Group(records, key) != [] <==> exists i :: 0 <= i < |records| && Key(records[i]) == key
  {
    if records != [] {
      var n := |records| - 1;
      GroupMembers(records[..n], key);
      assert forall i :: 0 <= i < n ==> records[..n][i] == records[i];
    }
  }

  /** The winner of a group is the newest record of its key in the whole list. */
  lemma {:induction false} NewestIsNewest(p: Platform, records: seq<Credential>, key: string) returns (i: nat)
    requires Group(records, key) != []
    ensures IsNewestAt(p, records, i) && Key(records[i]) == key && records[i] == Newest(p, Group(records, key))
  {
    var n := |records| - 1;
    var before := records[..n];
    if Key(records[n]) != key {
      assert Group(records, key) == Group(before, key);
      i := NewestIsNewest(p, before, key);
      assert forall j :: 0 <= j < n ==> before[j] == records[j];
    } else if Group(before, key) == [] {
      i := n;
      GroupMembers(before, key);
      assert Group(records, key) == [records[n]];
      assert forall j :: 0 <= j < n ==> before[j] == records[j];
    } else {
      var b := NewestIsNewest(p, before, key);
      var group := Group(records, key);
      assert group[..|group| - 1] == Group(before, key) && group[|group| - 1] == records[n];
      NewestExtends(p, records, b);
      i := if AtMost(p, records[b], records[n]) then n else b;
    }
  }

  lemma {:induction false} NewestExtends(p: Platform, records: seq<Credential>, b: nat)
    requires records != [] && IsNewestAt(p, records[..|records| - 1], b)
    requires Key(records[b]) == Key(records[|records| - 1])
    ensures IsNewestAt(p, records, if AtMost(p, records[b], records[|records| - 1]) then |records| - 1 else b)
  {
    var n := |records| - 1;
    forall j | 0 <= j < n && Key(records[j]) == Key(records[b])
      ensures if j <= b then AtMost(p, records[j], records[b]) else !AtMost(p, records[b], records[j])
    {
      assert records[..n][j] == records[j] && records[..n][b] == records[b];
    }
  }

  function Deduped(p: Platform, records: seq<Credential>): (r: seq<Credential>)
    ensures |r| == |Keys(records)|
  {
    var keys := Keys(records);
    seq(|keys|, i requires 0 <= i < |keys| =>
      KeysMembers(records);
      assert keys[i] in keys;
      Newest(p, Group(records, keys[i])))
  }

  /** One record per key, in order of first appearance, each the newest of its key. */
  lemma {:induction false} DedupedMeans(p: Platform, records: seq<Credential>, k: nat) returns (i: nat)
    requires k < |Keys(records)|
    ensures Key(Deduped(p, records)[k]) == Keys(records)[k]
    ensures IsNewestAt(p, records, i) && records[i] == Deduped(p, records)[k]
  {
    var key := Keys(records)[k];
    assert key in Keys(records);
    KeysMembers(records);
    i := NewestIsNewest(p, records, key);
  }

  // ---- deduplicating twice ----

  lemma {:induction false} DistinctKeys(records: seq<Credential>, keys: seq<string>)
    requires |keys| == |records| && forall i :: 0 <= i < |keys| ==> Key(records[i]) == keys[i]
    requires forall i, j :: 0 <= i < j < |keys| ==> keys[i] != keys[j]
    ensures Keys(records) == keys
  {
    if records != [] {
      var n := |records| - 1;
      DistinctKeys(records[..n], keys[..n]);
      assert keys == keys[..n] + [keys[n]];
      assert keys[n] !in keys[..n];
    }
  }

  lemma {:induction false} SingleGroup(records: seq<Credential>, keys: seq<string>, k: nat)
    requires |keys| == |records| && forall i :: 0 <= i < |keys| ==> Key(records[i]) == keys[i]
    requires forall i, j :: 0 <= i < j < |keys| ==> keys[i] != keys[j]
    requires k < |keys|
    ensures Group(records, keys[k]) == [records[k]]
  {
    var n := |records| - 1;
    if k == n {
      GroupMembers(records[..n], keys[n]);
      assert forall i :: 0 <= i < n ==> Key(records[..n][i]) != keys[n];
    } else {
      SingleGroup(records[..n], keys[..n], k);
    }
  }

  lemma {:induction false} DedupeIsIdempotent(p: Platform, records: seq<Credential>)
    ensures Deduped(p, Deduped(p, records)) == Deduped(p, records)
  {
    var keys, once := Keys(records), Deduped(p, records);
    KeysMembers(records);
    forall k | 0 <= k < |keys| ensures Key(once[k]) == keys[k] {
      var _ := DedupedMeans(p, records, k);
    }
    DistinctKeys(once, keys);
    forall k | 0 <= k < |keys| ensures Deduped(p, once)[k] == once[k] {
      SingleGroup(once, keys, k);
    }
  }

  // ---- the key ----

  /** The separator occurs in the key only where it was put. */
  predicate OneSeparator(subject: string, issuer: string) {
    var key := KeyText(subject, issuer);
    forall k :: 0 <= k < |key| - 1 && key[k] == ':' && key[k + 1] == ':' ==> k == |subject|
  }

  /** A key stands for one subject and issuer exactly when the separator occurs in it once. */
  lemma {:induction false} KeyIdentifiesExactly(subject: string, issuer: string)
    ensures (forall s, i :: KeyText(s, i) == KeyText(subject, issuer) ==> s == subject && i == issuer)
            <==> OneSeparator(subject, issuer)
  {
    var key := KeyText(subject, issuer);
    if OneSeparator(subject, issuer) {
      forall s, i | KeyText(s, i) == key ensures s == subject && i == issuer {
        assert key[|s|] == ':' && key[|s| + 1] == ':';
        assert s == key[..|s|] && i == key[|s| + 2..];
        assert subject == key[..|subject|] && issuer == key[|subject| + 2..];
      }
    } else {
      var k :| 0 <= k < |key| - 1 && key[k] == ':' && key[k + 1] == ':' && k != |subject|;
      var s, i := key[..k], key[k + 2..];
      assert key == s + key[k..k + 2] + i && key[k..k + 2] == "::";
      assert KeyText(s, i) == key && |s| != |subject|;
    }
  }

  /** Records of such a subject and issuer are merged with exactly those of the same subject and issuer. */
  lemma SameKeyExactly(a: Credential, b: Credential)
    requires OneSeparator(a.subject, a.issuer)
    ensures Key(a) == Key(b) <==> a.subject == b.subject && a.issuer == b.issuer
  {
    KeyIdentifiesExactly(a.subject, a.issuer);
  }

  /** The version decides which record is newer, and among equal versions the date of the last update. */
  lemma VersionThenDate(p: Platform, a: Credential, b: Credential)
    ensures a.version < b.version ==> AtMost(p, a, b) && !AtMost(p, b, a)
    ensures a.version == b.version && p.parseDate(a.updatedAt).Some? && p.parseDate(b.updatedAt).Some? ==>
      (AtMost(p, a, b) <==> p.parseDate(a.updatedAt).value <= p.parseDate(b.updatedAt).value)
    ensures AtMost(p, a, b) || AtMost(p, b, a)
  {
  }

  lemma SeparatorInIssuerCollides()
    ensures KeyText("a", "b::c") == KeyText("a::b", "c")
  {
  }

  // ---- the two passes ----

  lemma OneMoreRecord(records: seq<Credential>, n: nat)
    requires n < |records|
    ensures var key, keys := Key(records[n]), Keys(records[..n]);
            && Keys(records[..n + 1]) == (if key in keys then keys else keys + [key])
            && Group(records[..n + 1], key) == Group(records[..n], key) + [records[n]]
            && forall k :: k != key ==> Group(records[..n + 1], k) == Group(records[..n], k)
  {
    assert records[..n + 1][..n] == records[..n];
  }

  ghost predicate Grouped(records: seq<Credential>, keys: seq<string>, groups: map<string, seq<Credential>>) {
    keys == Keys(records) && HoldsGroups(k => Group(records, k), keys, groups)
  }

  /** The map holds the group of each listed key, and other groups are empty. */
  ghost predicate HoldsGroups(
    group: string -> seq<Credential>, keys: seq<string>, groups: map<string, seq<Credential>>)
  {
    && (forall k :: k in groups <==> k in keys)
    && (forall k :: k in groups ==> groups[k] == group(k) && groups[k] != [])
    && (forall k :: k !in groups ==> group(k) == [])
  }

  lemma GroupGrows(
    before: string -> seq<Credential>, after: string -> seq<Credential>, key: string, record: Credential,
    keys: seq<string>, groups: map<string, seq<Credential>>)
    requires HoldsGroups(before, keys, groups) && key in groups && after(key) == before(key) + [record]
    requires forall k :: k != key ==> after(k) == before(k)
    ensures HoldsGroups(after, keys, groups[key := groups[key] + [record]])
  {
  }

  lemma GroupStarts(
    before: string -> seq<Credential>, after: string -> seq<Credential>, key: string, record: Credential,
    keys: seq<string>, groups: map<string, seq<Credential>>)
    requires HoldsGroups(before, keys, groups) && key !in groups && after(key) == before(key) + [record]
    requires forall k :: k != key ==> after(k) == before(k)
    ensures HoldsGroups(after, keys + [key], groups[key := [record]])
  {
    assert [] + [record] == [record];
  }

  method GroupRecords(records: seq<Credential>) returns (keys: seq<string>, groups: map<string, seq<Credential>>)
    ensures Grouped(records, keys, groups)
  {
    keys, groups := [], map[];
    for n := 0 to |records|
      invariant Grouped(records[..n], keys, groups)
    {
      var record := records[n];
      var key := Key(record);
      OneMoreRecord(records, n);
      if key in groups {
        GroupGrows(k => Group(records[..n], k), k => Group(records[..n + 1], k), key, record, keys, groups);
        groups := groups[key := groups[key] + [record]];
      } else {
        GroupStarts(k => Group(records[..n], k), k => Group(records[..n + 1], k), key, record, keys, groups);
        groups := groups[key := [record]];
        keys := keys + [key];
      }
    }
    assert records[..|records|] == records;
  }

  method NewestOf(p: Platform, group: seq<Credential>) returns (best: Credential)
    requires group != []
    ensures best == Newest(p, group)
  {
    best := group[0];
    for n := 1 to |group|
      invariant best == Newest(p, group[..n])
    {
      var candidate := group[n];
      assert group[..n + 1][..n] == group[..n];
      if candidate.version > best.version {
        best := candidate;
      } else if candidate.version == best.version {
        if UpdatedAt(p, candidate) >= UpdatedAt(p, best) { best := candidate; }
      }
    }
    assert group[..|group|] == group;
  }

  datatype Stats = Stats(totalBefore: nat, totalAfter: nat, duplicatesRemoved: int)

  method DeduplicateRecords(p: Platform, records: seq<Credential>) returns (deduped: seq<Credential>, stats: Stats)
    ensures deduped == Deduped(p, records)
    ensures stats.totalBefore == |records| && stats.totalAfter == |Keys(records)|
    ensures stats.totalAfter + stats.duplicatesRemoved == stats.totalBefore
  {
    var keys, groups := GroupRecords(records);
    deduped := [];
    for k := 0 to |keys|
      invariant |deduped| == k
      invariant forall i :: 0 <= i < k ==> keys[i] in groups && deduped[i] == Newest(p, groups[keys[i]])
    {
      assert keys[k] in keys;
      var best := NewestOf(p, groups[keys[k]]);
      deduped := deduped + [best];
    }
    WinnersAreDeduped(p, records, groups, deduped);
    stats := Stats(|records|, |deduped|, |records| - |deduped|);
  }

  lemma {:induction false} WinnersAreDeduped(
    p: Platform, records: seq<Credential>, groups: map<string, seq<Credential>>, winners: seq<Credential>)
    requires |winners| == |Keys(records)|
    requires forall k :: k in groups ==> groups[k] == Group(records, k) && groups[k] != []
    requires forall i :: 0 <= i < |winners| ==>
      Keys(records)[i] in groups && winners[i] == Newest(p, groups[Keys(records)[i]])
    ensures winners == Deduped(p, records)
  {
    forall i | 0 <= i < |winners| ensures winners[i] == Deduped(p, records)[i] {
      assert Keys(records)[i] in groups;
    }
  }
}
