/**
 Credential records and the per-record functions of the search service: tokens,
 searchable fields, relevance, jurisdiction levels, status and filter trees.
 Case folding, trimming, date parsing, collation and single filter tests belong to
 the JavaScript platform; every result holds for any choice of them.
 */
module Credentials {
  import opened JsText

  /** `Null` stands for null and undefined, `Other` for numbers and booleans with their text. */
  datatype Json =
    | Null
    | Text(s: string)
    | Other(shown: string)
    | Items(items: seq<Json>)
    | Object(entries: seq<Entry>)

  datatype Entry = Entry(key: string, value: Json)

  /** Optional texts are "" when missing: the source reads each through `|| ''`. */
  datatype Credential = Credential(
    id: string, subject: string, issuer: string, issuerType: string, credentialType: int,
    metadata: seq<Entry>, revoked: bool, suspended: bool, attestationCount: int,
    expiresAt: string, createdAt: string, updatedAt: string, version: int, owner: string,
    jurisdiction: Option<string>)

  datatype FilterOp = Eq | Gte | Lte | Gt | Lt | Regex
  datatype FilterTest = FilterTest(field: string, op: FilterOp, value: Json)
  datatype FilterNode =
    | And(nodes: seq<FilterNode>)
    | Or(nodes: seq<FilterNode>)
    | Not(node: FilterNode)
    | Test(test: FilterTest)

  datatype Platform = Platform(
    lower: string -> string, upper: string -> string, trim: string -> string,
    parseDate: string -> Option<int>, collation: string -> real,
    passes: (Credential, FilterTest) -> bool)

  // ---- tokens ----

  predicate IsWordChar(c: char) {
    'a' <= c <= 'z' || 'A' <= c <= 'Z' || '0' <= c <= '9' || c == '_'
  }

  predicate IsToken(t: string) {
    |t| >= 2 && forall i :: 0 <= i < |t| ==> IsWordChar(t[i])
  }

  /** The maximal runs of word characters, those of length at least two. */
  function WordsFrom(text: string, run: string): (words: seq<string>)
    requires forall i :: 0 <= i < |run| ==> IsWordChar(run[i])
    ensures forall w :: w in words ==> IsToken(w)
    decreases |text|
  {
    var closed := if |run| >= 2 then [run] else [];
    if text == [] then closed
    else if IsWordChar(text[0]) then WordsFrom(text[1..], run + [text[0]])
    else closed + WordsFrom(text[1..], "")
  }

  function Tokenize(p: Platform, text: string): (tokens: seq<string>)
    ensures forall t :: t in tokens ==> IsToken(t)
  {
    WordsFrom(p.lower(text), "")
  }

  /** Characters a to b - 1 are a maximal run of at least two word characters. */
  predicate IsRun(s: string, a: nat, b: nat) {
    && a + 2 <= b <= |s| && (forall k :: a <= k < b ==> IsWordChar(s[k]))
    && (a == 0 || !IsWordChar(s[a - 1])) && (b == |s| || !IsWordChar(s[b]))
  }

  datatype Span = Span(from: nat, to: nat)

  /** All maximal runs that start at `from` or later, from left to right. */
  ghost predicate RunsInOrder(s: string, from: nat, spans: seq<Span>) {
    && (forall k :: 0 <= k < |spans| ==> from <= spans[k].from && IsRun(s, spans[k].from, spans[k].to))
    && (forall j, k :: 0 <= j < k < |spans| ==> spans[j].to < spans[k].from)
    && (forall a: nat, b: nat :: from <= a && IsRun(s, a, b) ==> Span(a, b) in spans)
  }

  ghost function Texts(s: string, spans: seq<Span>): seq<string>
    requires forall k :: 0 <= k < |spans| ==> IsRun(s, spans[k].from, spans[k].to)
  {
    seq(|spans|, k requires 0 <= k < |spans| && IsRun(s, spans[k].from, spans[k].to) => s[spans[k].from..spans[k].to])
  }

  /** The word characters before i, from a start on, are a run that ends there. */
  ghost predicate EndsAt(s: string, start: nat, i: nat) {
    && start <= i <= |s| && (forall k :: start <= k < i ==> IsWordChar(s[k]))
    && (start == 0 || !IsWordChar(s[start - 1])) && (i == |s| || !IsWordChar(s[i]))
  }

  lemma {:induction false} FirstRun(s: string, i: nat, start: nat, a: nat, b: nat)
    requires EndsAt(s, start, i) && start <= a && IsRun(s, a, b)
    ensures (a == start && b == i && i - start >= 2) || a >= i + 1
  {
  }

  /** A run that ends at i comes before all later ones. */
  lemma {:induction false} RunEnds(s: string, i: nat, start: nat, later: seq<Span>) returns (spans: seq<Span>)
    requires EndsAt(s, start, i) && RunsInOrder(s, i + 1, later)
    ensures RunsInOrder(s, start, spans)
    ensures Texts(s, spans) == (if i - start >= 2 then [s[start..i]] else []) + Texts(s, later)
  {
    forall a: nat, b: nat | start <= a && IsRun(s, a, b)
      ensures (a == start && b == i && i - start >= 2) || Span(a, b) in later
    {
      FirstRun(s, i, start, a, b);
    }
    if i - start >= 2 {
      spans := [Span(start, i)] + later;
      PrependRun(s, i, start, later);
      TextsCons(s, Span(start, i), later);
    } else {
      spans := later;
    }
  }

  lemma {:induction false} PrependRun(s: string, i: nat, start: nat, later: seq<Span>)
    requires EndsAt(s, start, i) && i - start >= 2 && RunsInOrder(s, i + 1, later)
    requires forall a: nat, b: nat ::
      start <= a && IsRun(s, a, b) ==> (a == start && b == i) || Span(a, b) in later
    ensures RunsInOrder(s, start, [Span(start, i)] + later)
  {
    var spans := [Span(start, i)] + later;
    assert IsRun(s, start, i);
    forall a: nat, b: nat | start <= a && IsRun(s, a, b) ensures Span(a, b) in spans {
      if a == start && b == i { assert spans[0] == Span(a, b); } else { assert Span(a, b) in later; }
    }
    forall k | 0 <= k < |spans| ensures start <= spans[k].from && IsRun(s, spans[k].from, spans[k].to) {
      if k > 0 { assert spans[k] == later[k - 1]; }
    }
  }

  lemma {:induction false} TextsCons(s: string, span: Span, later: seq<Span>)
    requires IsRun(s, span.from, span.to)
    requires forall k :: 0 <= k < |later| ==> IsRun(s, later[k].from, later[k].to)
    ensures forall k :: 0 <= k <= |later| ==>
      IsRun(s, ([span] + later)[k].from, ([span] + later)[k].to)
    ensures Texts(s, [span] + later) == [s[span.from..span.to]] + Texts(s, later)
  {
  }

  lemma {:induction false} WordsAreRuns(s: string, i: nat, start: nat) returns (spans: seq<Span>)
    requires start <= i <= |s| && (forall k :: start <= k < i ==> IsWordChar(s[k]))
    requires start == 0 || !IsWordChar(s[start - 1])
    ensures RunsInOrder(s, start, spans) && WordsFrom(s[i..], s[start..i]) == Texts(s, spans)
    decreases |s| - i
  {
    if i == |s| {
      spans := RunEnds(s, i, start, []);
    } else if IsWordChar(s[i]) {
      spans := WordsAreRuns(s, i + 1, start);
      OneMoreChar(s, start, i);
    } else {
      var later := WordsAreRuns(s, i + 1, i + 1);
      spans := RunEnds(s, i, start, later);
      OneMoreChar(s, start, i);
      assert s[i + 1..i + 1] == "";
    }
  }

  lemma OneMoreChar(s: string, start: nat, i: nat)
    requires start <= i < |s|
    ensures s[i..][1..] == s[i + 1..] && s[i..][0] == s[i] && s[start..i] + [s[i]] == s[start..i + 1]
  {
  }

  /**
   The tokens are the maximal runs of at least two word characters, all of them, each as often
   as it occurs, from left to right.
   */
  lemma {:induction false} TokensAreMaximalRuns(p: Platform, text: string)
    ensures exists spans :: RunsInOrder(p.lower(text), 0, spans) && Tokenize(p, text) == Texts(p.lower(text), spans)
  {
    var s := p.lower(text);
    var spans := WordsAreRuns(s, 0, 0);
    assert s[0..] == s && s[0..0] == "";
  }

  // ---- jurisdiction ----

  const EU_MEMBERS: set<string> := {
    "AT", "BE", "BG", "HR", "CY", "CZ", "DK", "EE", "FI", "FR", "DE", "GR", "HU", "IE",
    "IT", "LV", "LT", "LU", "MT", "NL", "PL", "PT", "RO", "SK", "SI", "ES", "SE" }

  function NormalizeJurisdiction(p: Platform, code: string): string {
    p.upper(p.trim(code))
  }

  function Lookup(entries: seq<Entry>, key: string): Json {
    if entries == [] then Null
    else if entries[0].key == key then entries[0].value
    else Lookup(entries[1..], key)
  }

  /** The credential's own code, else the one in its metadata; "" when there is none. */
  function JurisdictionOf(p: Platform, cred: Credential): string {
    var raw := match cred.jurisdiction
      case Some(j) => Text(j)
      case None => Lookup(cred.metadata, "jurisdiction");
    if raw.Text? && |p.trim(raw.s)| > 0 then NormalizeJurisdiction(p, raw.s) else ""
  }

  function BeforeDash(code: string): string {
    if code == [] || code[0] == '-' then [] else [code[0]] + BeforeDash(code[1..])
  }

  /** A code, its country if it is a subdivision, and the groups of that country. */
  function JurisdictionAncestors(p: Platform, code: string): seq<string> {
    var normalized := NormalizeJurisdiction(p, code);
    var country := if '-' in normalized then BeforeDash(normalized) else normalized;
    [normalized]
    + (if '-' in normalized then [country] else [])
    + (if country in EU_MEMBERS then ["EU"] else [])
  }

  /** A code lies within a code without a dash that it continues with a dash, and within itself. */
  predicate Below(code: string, level: string) {
    code == level || ('-' !in level && level + "-" <= code)
  }

  /** Within a code, or within a member state for the group of them. */
  ghost predicate Within(code: string, level: string) {
    Below(code, level) || (level == "EU" && exists c :: c in EU_MEMBERS && Below(code, c))
  }

  lemma {:induction false} CountryIsBelow(code: string, level: string)
    requires '-' in code
    ensures '-' !in level && level + "-" <= code <==> level == BeforeDash(code)
  {
    if code[0] == '-' {
      if level != "" && level + "-" <= code { assert level[0] == (level + "-")[0] == code[0]; }
      assert "" + "-" == "-";
    } else {
      assert code == [code[0]] + code[1..];
      if level != "" {
        assert level == [level[0]] + level[1..];
        CountryIsBelow(code[1..], level[1..]);
        PrefixTail(level, code);
      } else {
        CountryIsBelow(code[1..], "");
        assert "" + "-" == "-";
      }
    }
  }

  lemma PrefixTail(level: string, code: string)
    requires level != "" && code != ""
    ensures level + "-" <= code <==> level[0] == code[0] && level[1..] + "-" <= code[1..]
  {
    assert (level + "-")[1..] == level[1..] + "-";
    if level[0] == code[0] && level[1..] + "-" <= code[1..] {
      assert code == [code[0]] + code[1..] && level + "-" == [level[0]] + (level[1..] + "-");
    }
  }

  lemma MembersHaveNoDash(c: string)
    requires c in EU_MEMBERS
    ensures '-' !in c
  {
  }

  /** A credential is filed under exactly the levels its code lies within. */
  lemma {:induction false} AncestorsMean(p: Platform, code: string, level: string)
    ensures level in JurisdictionAncestors(p, code) <==> Within(NormalizeJurisdiction(p, code), level)
  {
    var n := NormalizeJurisdiction(p, code);
    if '-' in n {
      CountryIsBelow(n, level);
      forall c | c in EU_MEMBERS ensures Below(n, c) <==> c == BeforeDash(n) {
        MembersHaveNoDash(c);
        CountryIsBelow(n, c);
      }
    } else {
      NothingBelow(n, level);
      forall c | c in EU_MEMBERS ensures Below(n, c) <==> c == n { NothingBelow(n, c); }
    }
  }

  lemma NothingBelow(code: string, level: string)
    requires '-' !in code
    ensures Below(code, level) <==> code == level
  {
    assert (level + "-")[|level|] == '-';
  }

  /** The code at the top wins, whatever the metadata holds; without one the metadata's text counts as the code. */
  lemma JurisdictionSource(p: Platform, cred: Credential, other: seq<Entry>, code: string)
    ensures cred.jurisdiction.Some? ==> JurisdictionOf(p, cred) == JurisdictionOf(p, cred.(metadata := other))
    ensures cred.jurisdiction.None? && Lookup(cred.metadata, "jurisdiction") == Text(code) ==>
      JurisdictionOf(p, cred) == JurisdictionOf(p, cred.(jurisdiction := Some(code)))
    ensures cred.jurisdiction.None? && !Lookup(cred.metadata, "jurisdiction").Text? ==> JurisdictionOf(p, cred) == ""
    ensures cred.jurisdiction == Some(code) && p.trim(code) != "" ==>
      JurisdictionOf(p, cred) == NormalizeJurisdiction(p, code)
    ensures cred.jurisdiction == Some(code) && p.trim(code) == "" ==> JurisdictionOf(p, cred) == ""
  {
  }

  lemma {:induction false} LookupFindsFirst(entries: seq<Entry>, i: nat)
    requires i < |entries| && forall j :: 0 <= j < i ==> entries[j].key != entries[i].key
    ensures Lookup(entries, entries[i].key) == entries[i].value
  {
    if i > 0 {
      assert entries[0].key != entries[i].key;
      LookupFindsFirst(entries[1..], i - 1);
    }
  }

  /** Every level a credential is filed under; empty when it has no jurisdiction. */
  function JurisdictionLevels(p: Platform, cred: Credential): set<string> {
    var j := JurisdictionOf(p, cred);
    if j == "" then {} else set level | level in JurisdictionAncestors(p, j)
  }

  // ---- searchable fields ----

  datatype Field = Field(name: string, text: string)

  function FlattenMetadata(entries: seq<Entry>, prefix: string): seq<Field>
    decreases entries
  {
    if entries == [] then []
    else
      var e := entries[0];
      [Field("metadata", if prefix == "" then e.key else prefix + "_" + e.key)]
      + FlattenValue(e)
      + FlattenMetadata(entries[1..], prefix)
  }

  function FlattenValue(e: Entry): seq<Field>
    decreases e
  {
    match e.value
    case Null => []
    case Text(s) => [Field("metadata", s)]
    case Other(shown) => [Field("metadata", shown)]
    case Items(items) => FlattenItems(items)
    case Object(entries) => FlattenMetadata(entries, e.key)
  }

  /** Array members that are themselves objects or arrays are not searchable. */
  function FlattenItems(items: seq<Json>): seq<Field> {
    if items == [] then []
    else
      (match items[0]
       case Text(s) => [Field("metadata", s)]
       case Other(shown) => [Field("metadata", shown)]
       case _ => [])
      + FlattenItems(items[1..])
  }

  /** The entry found by following a path of positions down through nested objects. */
  function EntryAt(entries: seq<Entry>, path: seq<nat>): Option<Entry>
    decreases |path|
  {
    if path == [] || path[0] >= |entries| then None
    else if |path| == 1 then Some(entries[path[0]])
    else if entries[path[0]].value.Object? then EntryAt(entries[path[0]].value.entries, path[1..])
    else None
  }

  /** The key of an entry, with that of the object it stands in. */
  function Label(prefix: string, e: Entry): string { if prefix == "" then e.key else prefix + "_" + e.key }

  function PrefixAt(entries: seq<Entry>, path: seq<nat>, prefix: string): string {
    if |path| <= 1 then prefix
    else match EntryAt(entries, path[..|path| - 1])
      case Some(parent) => parent.key
      case None => ""
  }

  /** The texts a value shows: its own, or those of the plain members of an array. */
  predicate Shows(value: Json, text: string) {
    match value
    case Text(s) => s == text
    case Other(shown) => shown == text
    case Items(items) => Text(text) in items || Other(text) in items
    case _ => false
  }

  ghost predicate SearchableAt(entries: seq<Entry>, path: seq<nat>, prefix: string, text: string) {
    && EntryAt(entries, path).Some?
    && var e := EntryAt(entries, path).value;
       text == Label(PrefixAt(entries, path, prefix), e) || Shows(e.value, text)
  }

  lemma {:induction false} ItemsShow(items: seq<Json>, text: string)
    ensures Field("metadata", text) in FlattenItems(items) <==> Text(text) in items || Other(text) in items
  {
    if items != [] {
      ItemsShow(items[1..], text);
      assert items == [items[0]] + items[1..];
    }
  }

  lemma {:induction false} PathFromRest(entries: seq<Entry>, path: seq<nat>, prefix: string, text: string)
    requires entries != [] && path != []
    ensures SearchableAt(entries[1..], path, prefix, text)
            <==> SearchableAt(entries, [path[0] + 1] + path[1..], prefix, text)
  {
    var longer := [path[0] + 1] + path[1..];
    assert longer[1..] == path[1..];
    if |path| > 1 {
      assert longer[..|path| - 1] == [path[0] + 1] + path[..|path| - 1][1..];
      assert longer[..|path| - 1][1..] == path[..|path| - 1][1..];
    }
  }

  lemma {:induction false} PathIntoObject(entries: seq<Entry>, path: seq<nat>, prefix: string, text: string)
    requires |path| > 1 && path[0] < |entries| && entries[path[0]].value.Object?
    ensures SearchableAt(entries, path, prefix, text)
            <==> SearchableAt(entries[path[0]].value.entries, path[1..], entries[path[0]].key, text)
  {
    if |path| == 2 {
      assert path[..1] == [path[0]];
    } else {
      assert path[..|path| - 1][1..] == path[1..][..|path| - 2];
    }
  }

  /**
   A text is searchable metadata exactly when it labels an entry somewhere in the metadata,
   however deep, or is shown by its value.
   */
  lemma {:induction false} MetadataIsSearchable(entries: seq<Entry>, prefix: string, text: string)
    ensures Field("metadata", text) in FlattenMetadata(entries, prefix)
            <==> exists path :: SearchableAt(entries, path, prefix, text)
    decreases entries
  {
    var found := Field("metadata", text) in FlattenMetadata(entries, prefix);
    if entries != [] {
      MetadataIsSearchable(entries[1..], prefix, text);
      ValueIsSearchable(entries, prefix, text);
      assert found <==>
        || text == Label(prefix, entries[0]) || Field("metadata", text) in FlattenValue(entries[0])
        || Field("metadata", text) in FlattenMetadata(entries[1..], prefix);
      if path :| SearchableAt(entries[1..], path, prefix, text) { PathFromRest(entries, path, prefix, text); }
      if path :| FindsInFirst(entries, path, prefix, text) { assert SearchableAt(entries, path, prefix, text); }
      if path :| SearchableAt(entries, path, prefix, text) { SplitPath(entries, path, prefix, text); }
    }
  }

  /** Everything found at a path is found in the first entry or in the rest. */
  lemma {:induction false} SplitPath(entries: seq<Entry>, path: seq<nat>, prefix: string, text: string)
    requires entries != [] && SearchableAt(entries, path, prefix, text)
    ensures FindsInFirst(entries, path, prefix, text)
            || exists shorter :: SearchableAt(entries[1..], shorter, prefix, text)
  {
    if path[0] > 0 {
      var shorter := [path[0] - 1] + path[1..];
      PathFromRest(entries, shorter, prefix, text);
      assert [shorter[0] + 1] + shorter[1..] == path;
    }
  }

  /** What the first entry contributes is what paths through it find. */
  lemma {:induction false} ValueIsSearchable(entries: seq<Entry>, prefix: string, text: string)
    requires entries != []
    ensures text == Label(prefix, entries[0]) || Field("metadata", text) in FlattenValue(entries[0])
            <==> exists path :: FindsInFirst(entries, path, prefix, text)
    decreases entries, 0
  {
    if entries[0].value.Object? {
      MetadataIsSearchable(entries[0].value.entries, entries[0].key, text);
      ObjectIsSearchable(entries, prefix, text);
    } else {
      PlainIsSearchable(entries, prefix, text);
    }
  }

  ghost predicate FindsInFirst(entries: seq<Entry>, path: seq<nat>, prefix: string, text: string) {
    path != [] && path[0] == 0 && SearchableAt(entries, path, prefix, text)
  }

  lemma {:induction false} FirstAlone(entries: seq<Entry>, prefix: string, text: string)
    requires entries != []
    ensures FindsInFirst(entries, [0], prefix, text)
            <==> text == Label(prefix, entries[0]) || Shows(entries[0].value, text)
  {
  }

  lemma {:induction false} PlainIsSearchable(entries: seq<Entry>, prefix: string, text: string)
    requires entries != [] && !entries[0].value.Object?
    ensures text == Label(prefix, entries[0]) || Field("metadata", text) in FlattenValue(entries[0])
            <==> exists path :: FindsInFirst(entries, path, prefix, text)
  {
    FirstAlone(entries, prefix, text);
    if entries[0].value.Items? { ItemsShow(entries[0].value.items, text); }
    assert Field("metadata", text) in FlattenValue(entries[0]) <==> Shows(entries[0].value, text);
    forall path | FindsInFirst(entries, path, prefix, text) ensures path == [0] {}
  }

  lemma {:induction false} ObjectIsSearchable(entries: seq<Entry>, prefix: string, text: string)
    requires entries != [] && entries[0].value.Object?
    ensures text == Label(prefix, entries[0])
            || (exists path :: SearchableAt(entries[0].value.entries, path, entries[0].key, text))
            <==> exists path :: FindsInFirst(entries, path, prefix, text)
  {
    var inner, key := entries[0].value.entries, entries[0].key;
    FirstAlone(entries, prefix, text);
    if path :| SearchableAt(inner, path, key, text) {
      PathIntoObject(entries, [0] + path, prefix, text);
      assert ([0] + path)[1..] == path;
      assert FindsInFirst(entries, [0] + path, prefix, text);
    }
    if path :| FindsInFirst(entries, path, prefix, text) {
      if |path| == 1 {
        assert path == [0];
      } else {
        PathIntoObject(entries, path, prefix, text);
      }
    }
  }

  function ExtractFields(p: Platform, cred: Credential): seq<Field> {
    [ Field("issuer", cred.issuer), Field("subject", cred.subject),
      Field("issuer_type", cred.issuerType), Field("jurisdiction", JurisdictionOf(p, cred)),
      Field("id", cred.id), Field("credential_type", IntText(cred.credentialType)) ]
    + FlattenMetadata(cred.metadata, "")
  }

  const NAME_LENGTHS: seq<nat> := [6, 7, 11, 12, 2, 15]

  /** Six named fields and then metadata, told apart by the lengths of their names. */
  ghost predicate FieldsTold(fields: seq<Field>) {
    && |fields| >= 6
    && (forall k :: 0 <= k < 6 ==> |fields[k].name| == NAME_LENGTHS[k])
    && (forall k :: 6 <= k < |fields| ==> |fields[k].name| == 8)
  }

  lemma {:induction false} FieldsAreTold(p: Platform, cred: Credential)
    ensures FieldsTold(ExtractFields(p, cred)) && |"metadata"| == 8
    ensures ExtractFields(p, cred)[6..] == FlattenMetadata(cred.metadata, "")
  {
    OnlyMetadata(cred.metadata, "");
    var all, metadata := ExtractFields(p, cred), FlattenMetadata(cred.metadata, "");
    forall k | 6 <= k < |all| ensures |all[k].name| == 8 { assert all[k] == metadata[k - 6]; }
  }

  lemma {:induction false} NamedField(fields: seq<Field>, k: nat, text: string)
    requires FieldsTold(fields) && k < 6
    ensures Field(fields[k].name, text) in fields <==> text == fields[k].text
  {
    assert text == fields[k].text ==> fields[k] == Field(fields[k].name, text);
  }

  lemma {:induction false} MetadataField(fields: seq<Field>, f: Field)
    requires FieldsTold(fields) && |f.name| == 8
    ensures f in fields <==> f in fields[6..]
  {
    assert fields == fields[..6] + fields[6..];
    assert forall k :: 0 <= k < 6 ==> fields[..6][k] != f;
  }

  /** The fields of the parties hold their text and no other. */
  lemma {:induction false} PartyFieldsAre(p: Platform, cred: Credential, text: string)
    ensures Field("issuer", text) in ExtractFields(p, cred) <==> text == cred.issuer
    ensures Field("subject", text) in ExtractFields(p, cred) <==> text == cred.subject
    ensures Field("issuer_type", text) in ExtractFields(p, cred) <==> text == cred.issuerType
  {
    FieldsAreTold(p, cred);
    NamedField(ExtractFields(p, cred), 0, text);
    NamedField(ExtractFields(p, cred), 1, text);
    NamedField(ExtractFields(p, cred), 2, text);
  }

  /** So do the other named fields. */
  lemma {:induction false} KindFieldsAre(p: Platform, cred: Credential, text: string)
    ensures Field("jurisdiction", text) in ExtractFields(p, cred) <==> text == JurisdictionOf(p, cred)
    ensures Field("id", text) in ExtractFields(p, cred) <==> text == cred.id
    ensures Field("credential_type", text) in ExtractFields(p, cred) <==> text == IntText(cred.credentialType)
  {
    FieldsAreTold(p, cred);
    NamedField(ExtractFields(p, cred), 3, text);
    NamedField(ExtractFields(p, cred), 4, text);
    NamedField(ExtractFields(p, cred), 5, text);
  }

  /** Searchable metadata is what the paths through it find. */
  lemma {:induction false} MetadataFieldIs(p: Platform, cred: Credential, text: string)
    ensures Field("metadata", text) in ExtractFields(p, cred)
            <==> exists path :: SearchableAt(cred.metadata, path, "", text)
  {
    FieldsAreTold(p, cred);
    MetadataField(ExtractFields(p, cred), Field("metadata", text));
    MetadataIsSearchable(cred.metadata, "", text);
  }

  lemma {:induction false} OnlyMetadata(entries: seq<Entry>, prefix: string)
    ensures forall f :: f in FlattenMetadata(entries, prefix) ==> f.name == "metadata" && |f.name| == 8
    decreases entries
  {
    if entries != [] {
      OnlyMetadata(entries[1..], prefix);
      match entries[0].value {
        case Items(items) => OnlyMetadataItems(items);
        case Object(inner) => OnlyMetadata(inner, entries[0].key);
        case _ =>
      }
    }
  }

  lemma {:induction false} OnlyMetadataItems(items: seq<Json>)
    ensures forall f :: f in FlattenItems(items) ==> f.name == "metadata"
  {
    if items != [] { OnlyMetadataItems(items[1..]); }
  }

  /** A token seen in a field. */
  datatype Occurrence = Occurrence(token: string, field: string)

  function Tagged(tokens: seq<string>, field: string): set<Occurrence> {
    set t | t in tokens :: Occurrence(t, field)
  }

  function OccurrencesIn(p: Platform, fields: seq<Field>): set<Occurrence> {
    if fields == [] then {}
    else
      var f := fields[|fields| - 1];
      OccurrencesIn(p, fields[..|fields| - 1]) + Tagged(Tokenize(p, f.text), f.name)
  }

  /** The (token, field) pairs under which a credential is posted. */
  function Occurrences(p: Platform, cred: Credential): set<Occurrence> {
    OccurrencesIn(p, ExtractFields(p, cred))
  }

  /** A credential is posted under a token and a field exactly when a text of that field has the token. */
  lemma {:induction false} OccurrencesMean(p: Platform, fields: seq<Field>, o: Occurrence)
    ensures o in OccurrencesIn(p, fields)
            <==> exists k :: 0 <= k < |fields| && fields[k].name == o.field && o.token in Tokenize(p, fields[k].text)
  {
    if fields != [] {
      var n := |fields| - 1;
      OccurrencesMean(p, fields[..n], o);
      if o in OccurrencesIn(p, fields[..n]) {
        var k :| 0 <= k < n && fields[..n][k].name == o.field && o.token in Tokenize(p, fields[..n][k].text);
        assert fields[k] == fields[..n][k];
      }
      forall k | 0 <= k < n && fields[k].name == o.field && o.token in Tokenize(p, fields[k].text)
        ensures o in OccurrencesIn(p, fields[..n])
      {
        assert fields[..n][k] == fields[k];
      }
    }
  }

  // ---- relevance ----

  /** A query token and an indexed token match exactly, or one contains the other. */
  predicate Related(token: string, query: string) {
    token == query || Includes(token, query) || Includes(query, token)
  }

  function FieldWeight(field: string): (w: real)
    ensures w > 0.0
  {
    match field
    case "issuer" => 3.0
    case "subject" => 2.0
    case "issuer_type" => 2.0
    case "jurisdiction" => 2.0
    case "id" => 1.5
    case "credential_type" => 1.0
    case _ => 0.5
  }

  function TokenScore(weight: real, token: string, query: string): real {
    if token == query then weight * 2.0
    else if Includes(token, query) || Includes(query, token) then weight
    else 0.0
  }

  function QueryTokenScore(weight: real, tokens: seq<string>, query: string): real {
    if tokens == [] then 0.0
    else
      var n := |tokens| - 1;
      QueryTokenScore(weight, tokens[..n], query) + TokenScore(weight, tokens[n], query)
  }

  function FieldScore(weight: real, tokens: seq<string>, queries: seq<string>): real {
    if queries == [] then 0.0
    else
      var n := |queries| - 1;
      FieldScore(weight, tokens, queries[..n]) + QueryTokenScore(weight, tokens, queries[n])
  }

  function FieldsScore(p: Platform, fields: seq<Field>, queries: seq<string>): real {
    if fields == [] then 0.0
    else
      var n := |fields| - 1;
      FieldsScore(p, fields[..n], queries)
      + FieldScore(FieldWeight(fields[n].name), Tokenize(p, fields[n].text), queries)
  }

  function Score(p: Platform, cred: Credential, queries: seq<string>): real {
    FieldsScore(p, ExtractFields(p, cred), queries)
  }

  method ScoreCredential(p: Platform, cred: Credential, queries: seq<string>) returns (score: real)
    ensures score == Score(p, cred, queries)
    ensures score > 0.0 <==> TextMatch(p, cred, queries)
  {
    ScorePositive(p, cred, queries);
    score := 0.0;
    if |queries| == 0 {
      NoQueryNoScore(p, ExtractFields(p, cred));
      return;
    }
    var fields := ExtractFields(p, cred);
    for i := 0 to |fields|
      invariant score == FieldsScore(p, fields[..i], queries)
    {
      var weight, tokens := FieldWeight(fields[i].name), Tokenize(p, fields[i].text);
      var before := score;
      for j := 0 to |queries|
        invariant score == before + FieldScore(weight, tokens, queries[..j])
      {
        var sofar := score;
        for k := 0 to |tokens|
          invariant score == sofar + QueryTokenScore(weight, tokens[..k], queries[j])
        {
          assert tokens[..k + 1][..k] == tokens[..k];
          if tokens[k] == queries[j] {
            score := score + weight * 2.0;
          } else if Includes(tokens[k], queries[j]) || Includes(queries[j], tokens[k]) {
            score := score + weight;
          }
        }
        assert tokens[..|tokens|] == tokens;
        assert queries[..j + 1][..j] == queries[..j];
      }
      assert queries[..|queries|] == queries;
      assert fields[..i + 1][..i] == fields[..i];
    }
    assert fields[..|fields|] == fields;
  }

  lemma {:induction false} NoQueryNoScore(p: Platform, fields: seq<Field>)
    ensures FieldsScore(p, fields, []) == 0.0
  {
    if fields != [] { NoQueryNoScore(p, fields[..|fields| - 1]); }
  }

  /** Some token of the credential is related to some query token. */
  predicate TextMatch(p: Platform, cred: Credential, queries: seq<string>) {
    exists o, q :: o in Occurrences(p, cred) && q in queries && Related(o.token, q)
  }

  lemma {:induction false} QueryTokenScoreSign(weight: real, tokens: seq<string>, query: string)
    requires weight > 0.0
    ensures QueryTokenScore(weight, tokens, query) >= 0.0
    ensures QueryTokenScore(weight, tokens, query) > 0.0 <==> exists t :: t in tokens && Related(t, query)
  {
    if tokens != [] {
      var n := |tokens| - 1;
      QueryTokenScoreSign(weight, tokens[..n], query);
      assert tokens == tokens[..n] + [tokens[n]];
      assert TokenScore(weight, tokens[n], query) > 0.0 <==> Related(tokens[n], query);
      assert forall t :: t in tokens <==> t in tokens[..n] || t == tokens[n];
    }
  }

  lemma {:induction false} FieldScoreSign(weight: real, tokens: seq<string>, queries: seq<string>)
    requires weight > 0.0
    ensures FieldScore(weight, tokens, queries) >= 0.0
    ensures FieldScore(weight, tokens, queries) > 0.0
            <==> exists t, q :: t in tokens && q in queries && Related(t, q)
  {
    if queries != [] {
      var n := |queries| - 1;
      FieldScoreSign(weight, tokens, queries[..n]);
      QueryTokenScoreSign(weight, tokens, queries[n]);
      assert queries == queries[..n] + [queries[n]];
    }
  }

  lemma {:induction false} FieldsScoreSign(p: Platform, fields: seq<Field>, queries: seq<string>)
    ensures FieldsScore(p, fields, queries) >= 0.0
    ensures FieldsScore(p, fields, queries) > 0.0
            <==> exists o, q :: o in OccurrencesIn(p, fields) && q in queries && Related(o.token, q)
  {
    if fields != [] {
      var n := |fields| - 1;
      var f := fields[n];
      var tokens := Tokenize(p, f.text);
      FieldsScoreSign(p, fields[..n], queries);
      FieldScoreSign(FieldWeight(f.name), tokens, queries);
      if t, q :| t in tokens && q in queries && Related(t, q) {
        assert Occurrence(t, f.name) in OccurrencesIn(p, fields);
      }
    }
  }

  /** A credential scores above zero exactly when its text matches the query. */
  lemma ScorePositive(p: Platform, cred: Credential, queries: seq<string>)
    ensures Score(p, cred, queries) > 0.0 <==> TextMatch(p, cred, queries)
  {
    FieldsScoreSign(p, ExtractFields(p, cred), queries);
  }

  // ---- what the score counts ----

  /** Tokens that are not the query but contain it or are contained in it. */
  ghost function PartialAt(tokens: seq<string>, query: string): set<nat> {
    set k: nat | k < |tokens| && tokens[k] != query && Related(tokens[k], query)
  }

  ghost function Matches(tokens: seq<string>, query: string): nat {
    2 * multiset(tokens)[query] + |PartialAt(tokens, query)|
  }

  lemma {:induction false} MatchesSnoc(tokens: seq<string>, token: string, query: string)
    ensures Matches(tokens + [token], query)
            == Matches(tokens, query) + if token == query then 2 else if Related(token, query) then 1 else 0
  {
    var all, front := tokens + [token], PartialAt(tokens, query);
    assert PartialAt(all, query) == if token != query && Related(token, query) then front + {|tokens|} else front;
  }

  function Scaled(weight: real, count: nat): real { weight * count as real }

  lemma ScaledMore(weight: real, count: nat)
    ensures Scaled(weight, 0) == 0.0
    ensures Scaled(weight, count + 1) == Scaled(weight, count) + weight
    ensures Scaled(weight, count + 2) == Scaled(weight, count) + weight * 2.0
  {
  }

  /** In one field, an exact match counts twice and a partial match once. */
  lemma {:induction false} TokensCount(weight: real, tokens: seq<string>, query: string)
    ensures QueryTokenScore(weight, tokens, query) == Scaled(weight, Matches(tokens, query))
  {
    if tokens == [] {
      assert PartialAt(tokens, query) == {};
      ScaledMore(weight, 0);
    } else {
      var n := |tokens| - 1;
      TokensCount(weight, tokens[..n], query);
      TokenCounts(weight, tokens[..n], tokens[n], query);
      assert tokens == tokens[..n] + [tokens[n]];
    }
  }

  lemma {:induction false} TokenCounts(weight: real, tokens: seq<string>, token: string, query: string)
    ensures Scaled(weight, Matches(tokens + [token], query))
            == Scaled(weight, Matches(tokens, query)) + TokenScore(weight, token, query)
  {
    MatchesSnoc(tokens, token, query);
    ScaledMore(weight, Matches(tokens, query));
  }

  lemma {:induction false} FieldScoreAdds(weight: real, tokens: seq<string>, a: seq<string>, b: seq<string>)
    ensures FieldScore(weight, tokens, a + b) == FieldScore(weight, tokens, a) + FieldScore(weight, tokens, b)
  {
    if b == [] {
      assert a + b == a;
    } else {
      var n := |b| - 1;
      FieldScoreAdds(weight, tokens, a, b[..n]);
      assert (a + b)[..|a + b| - 1] == a + b[..n];
    }
  }

  lemma {:induction false} FieldsScoreAdds(p: Platform, a: seq<Field>, b: seq<Field>, queries: seq<string>)
    ensures FieldsScore(p, a + b, queries) == FieldsScore(p, a, queries) + FieldsScore(p, b, queries)
  {
    if b == [] {
      assert a + b == a;
    } else {
      var n := |b| - 1;
      FieldsScoreAdds(p, a, b[..n], queries);
      assert (a + b)[..|a + b| - 1] == a + b[..n];
    }
  }

  /** One query token against one field: its weight times the matches, exact ones counted twice. */
  lemma {:induction false} OneFieldScore(p: Platform, field: Field, query: string)
    ensures FieldsScore(p, [field], [query])
            == Scaled(FieldWeight(field.name), Matches(Tokenize(p, field.text), query))
  {
    var weight, tokens := FieldWeight(field.name), Tokenize(p, field.text);
    assert [field][..0] == [] && [query][..0] == [];
    assert FieldsScore(p, [field], [query]) == FieldScore(weight, tokens, [query]);
    assert FieldScore(weight, tokens, [query]) == QueryTokenScore(weight, tokens, query);
    TokensCount(weight, tokens, query);
  }

  /** Which field a match is in decides: issuer, then subject, issuer type and jurisdiction, id, type, metadata. */
  lemma FieldRanks(other: string)
    requires other !in {"issuer", "subject", "issuer_type", "jurisdiction", "id", "credential_type"}
    ensures FieldWeight("issuer") > FieldWeight("subject") > FieldWeight("id") > FieldWeight("credential_type")
            > FieldWeight(other) == FieldWeight("metadata")
    ensures FieldWeight("subject") == FieldWeight("issuer_type") == FieldWeight("jurisdiction")
    ensures FieldWeight("issuer") == FieldWeight("id") * 2.0 == FieldWeight("credential_type") * 3.0
    ensures FieldWeight("subject") == FieldWeight("credential_type") * 2.0 == FieldWeight(other) * 4.0
  {
  }

  // ---- status, indexed fields, filter trees ----

  function StatusOf(cred: Credential): string {
    if cred.revoked then "revoked" else if cred.suspended then "suspended" else "active"
  }

  datatype IndexedField = Issuer | IssuerType | CredentialType | Status

  function FieldIndexValue(cred: Credential, field: IndexedField): string {
    match field
    case Issuer => cred.issuer
    case IssuerType => if cred.issuerType == "" then "unknown" else cred.issuerType
    case CredentialType => IntText(cred.credentialType)
    case Status => StatusOf(cred)
  }

  predicate EvalFilter(p: Platform, node: FilterNode, cred: Credential) {
    match node
    case And(nodes) => forall i :: 0 <= i < |nodes| ==> EvalFilter(p, nodes[i], cred)
    case Or(nodes) => exists i :: 0 <= i < |nodes| && EvalFilter(p, nodes[i], cred)
    case Not(n) => !EvalFilter(p, n, cred)
    case Test(t) => p.passes(cred, t)
  }

  function Negated(nodes: seq<FilterNode>): seq<FilterNode> {
    seq(|nodes|, i requires 0 <= i < |nodes| => Not(nodes[i]))
  }

  /** Filter trees follow the laws of logic, the empty conjunction and disjunction included. */
  lemma FilterLaws(p: Platform, cred: Credential, a: seq<FilterNode>, b: seq<FilterNode>, n: FilterNode)
    ensures EvalFilter(p, And([]), cred) && !EvalFilter(p, Or([]), cred)
    ensures EvalFilter(p, And([n]), cred) == EvalFilter(p, Or([n]), cred) == EvalFilter(p, n, cred)
    ensures EvalFilter(p, And(a + b), cred) <==> EvalFilter(p, And(a), cred) && EvalFilter(p, And(b), cred)
    ensures EvalFilter(p, Or(a + b), cred) <==> EvalFilter(p, Or(a), cred) || EvalFilter(p, Or(b), cred)
    ensures EvalFilter(p, Not(n), cred) != EvalFilter(p, n, cred)
    ensures EvalFilter(p, Not(And(a)), cred) <==> EvalFilter(p, Or(Negated(a)), cred)
  {
    assert [n][0] == n;
    ConjunctionSplits(p, cred, a, b);
    DisjunctionSplits(p, cred, a, b);
    DeMorgan(p, cred, a);
  }

  lemma ConjunctionSplits(p: Platform, cred: Credential, a: seq<FilterNode>, b: seq<FilterNode>)
    ensures EvalFilter(p, And(a + b), cred) <==> EvalFilter(p, And(a), cred) && EvalFilter(p, And(b), cred)
  {
    assert forall i :: 0 <= i < |a| ==> (a + b)[i] == a[i];
    assert forall i :: 0 <= i < |b| ==> (a + b)[|a| + i] == b[i];
  }

  lemma DisjunctionSplits(p: Platform, cred: Credential, a: seq<FilterNode>, b: seq<FilterNode>)
    ensures EvalFilter(p, Or(a + b), cred) <==> EvalFilter(p, Or(a), cred) || EvalFilter(p, Or(b), cred)
  {
    assert forall i :: 0 <= i < |a| ==> (a + b)[i] == a[i];
    assert forall i :: 0 <= i < |b| ==> (a + b)[|a| + i] == b[i];
  }

  lemma DeMorgan(p: Platform, cred: Credential, a: seq<FilterNode>)
    ensures EvalFilter(p, Not(And(a)), cred) <==> EvalFilter(p, Or(Negated(a)), cred)
  {
    assert forall i :: 0 <= i < |a| ==> Negated(a)[i] == Not(a[i]);
  }

  function Reputation(p: Platform, cred: Credential): int {
    var t := p.lower(cred.issuerType);
    cred.attestationCount * 10
    + (if t == "government" then 3 else if t == "bank" then 2 else if t == "private" then 1 else 0)
  }
}
