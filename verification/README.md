# Verified model of QuorumProof's hard core

QuorumProof issues and verifies credentials on Stellar. This project models the parts of the
repository whose behaviour is hardest to see from the code, and proves what they promise, in
Dafny 4.11. `dafny verify dfyconfig.toml` checks everything.

| file | module | what it models |
|---|---|---|
| `js_text.dfy` | `JsText` | string order, decimal text, zero padding |
| `credentials.dfy` | `Credentials` | credential records, tokens, relevance score, filter trees |
| `search_index.dfy` | `SearchIndexes` | the inverted, field and jurisdiction indexes as maps |
| `queries.dfy` | `Queries` | what a query means, and the same through the indexes; facets |
| `pages.dfy` | `Pages` | sorting, cursors, the binary search, walks over pages |
| `search_engine.dfy` | `SearchEngine` | the mutable search index object and its `search` |
| `deduplication.dfy` | `Deduplication` | one credential per subject and issuer |
| `rate_limiter.dfy` | `RateLimiter` | the window limiter with backoff and block |
| `adaptive_limiter.dfy` | `AdaptiveLimiter` | the limiter with anomaly detection |
| `semaphores.dfy` | `FifoSemaphore`, `PromiseSemaphore`, `CallbackLimiter`, `LimitersAgree` | one abstract semaphore and its two implementations |
| `coalescing.dfy` | `Coalescing` | request coalescing with a response cache |
| `chunked_migration.dfy` | `ChunkedMigration` | the on-chain chunked migration and its off-chain driver |
| `schema_migrations.dfy` | `SchemaMigrations` | the database migration runner |
| `csv.dfy`, `xml.dfy` | `Csv`, `Xml` | the two text serialisers, with a strict reader for each |
| `proof_of_work.dfy` | `ProofOfWork` | leading zero bits and the life of a challenge |
| `least_squares.dfy`, `real_facts.dfy` | `LeastSquares`, `RealFacts` | the two least-squares fits |
| `state_compat.dfy` | `StateCompat` | the upgrade-compatibility check |

Objects whose methods update fields are classes; their methods are proved against pure
specification functions, and the properties of whole runs are lemmas about those functions.
Clocks, random nonces, digests, logarithms, date parsing and locale collation are parameters.

## What turned out false of the code

Each of these is kept as the code has it, with a failing input and the exact condition under which
the promise holds.

- A bulk load with a repeated id leaves stale entries behind (`ReloadLeavesStale`) unless the
  replaced records had nothing of their own to leave (`LoadedInStep`).
- Index narrowing is called an optimisation. It also decides: a record both revoked and suspended
  passes the filter for suspended ones and is never offered by the index
  (`RevokedIsNotFoundAsSuspended`); when the two agree is `NarrowingOnlyOptimises`.
- Paging by descending id: the page at the cursor of a record continues with the next one only for
  the record in the middle (`DescendingContinuesExactly`). With pages of s records, following the
  cursor returns all n matches if and only if n <= s, n == 2s - 1 or n == 2s
  (`DescendingWalkExactly`). For s < n < 2s - 1 every page is the first one again and the walk does
  not end; for n > 2s it ends after the first s.
- A window-long interval admits up to `2 * max - 1` requests, not `max` (`AtMostTwiceMaxMinusOne`,
  `BoundIsReached`), and with `max <= 0` one request is still admitted (`NothingAllowedAdmitsOnce`).
  For windows of positive length, no interval admits more than `max` if and only if `max` is one
  (`EveryIntervalWithinMaxExactly`). Intervals that start where a counting window starts keep to
  every positive `max` (`AlignedIntervalWithinMax`).
- A backoff may end before its counting window (`ShortBackoffsFallShort`,
  `BackoffsCoverWindowExactly`); with `maxViolations <= 0` the block flag and the violation count
  disagree (`BlockedExactly`).
- A reset while a handler is at work lets a second handler run for the same key
  (`ResetAllowsSecondHandler`, `ResetKeepsSingleFlightExactly`).
- A completed migration job does not mean that every credential is at the target version. Direct
  issue stores no schema marker (`DirectIssueIsLeftBehind`), and writes while an older version is
  active store an older one (`LoweredVersionIsLeftBehind`). Which calls break the promise is
  `StepKeepsUpExactly` and `RunKeepsUpExactly`; from which states the job ends with every
  credential at the target is `CompletionReachesTargetExactly`.
- Two write paths set the marker of outdated metadata without transforming it, and the job then
  leaves it alone (`RelabelSkipsTransform`). Every transform is applied exactly once if and only if
  no call does that (`StepKeepsOrderExactly`, `RunKeepsOrderExactly`).
- The single-transaction migration and the chunked one differ on items without metadata
  (`EntryPointsCompatible`).
- Ledger rows with equal commit times make the rollback query ambiguous (`TiesAreAmbiguous`); it has
  one answer if and only if each row it reads is strictly newer than all before it
  (`QueryIsBackwardsExactly`, `EveryQueryIsBackwardsExactly`).
- A list of empty objects does not read back from CSV (`EmptyObjectDoesNotReadBack`); a list reads
  back if and only if it has a column (`CsvReadsBackExactly`).
- XML element names given by the caller are not sanitised (`SpacedNameDoesNotReadBack`); the document
  reads back if and only if those it uses are names (`DocumentReadsBackExactly`).
- The deduplication key can merge two different subject and issuer pairs
  (`SeparatorInIssuerCollides`, `KeyIdentifiesExactly`).
- For constant values the two R squared formulas give 0 and 1 (`ProgramsAgreeExactly`); for two
  different values the short-cut line is not the best one (`ShortFitBestExactly`).

Comments and code differ in four more places, where the model follows the code: the migration job's
description expects later items to be written at the target version, which direct issue does not
do; the orchestrator's description polls the job before each chunk while the code uses the returned
job; the power-law fit's description counts points with positive n while the code also drops points
of zero cost; the proof-of-work header gives difficulties 1 to 32 while the bounds are configured.

## Model

| member | source | states |
|---|---|---|
| `JsText.PaddedOrder` | api-server/src/searchIndex.ts:783-805 | zero padding to 20 digits makes string order equal numeric order, for all canonical decimals that fit |
| `JsText.CanonicalInjective` | api-server/src/searchIndex.ts:783-805 | two canonical decimals with the same value are the same text |
| `JsText.IntTextInjective` | api-server/src/searchIndex.ts:507-518 | printing an integer loses nothing, so a printed type number stands for one type |
| `JsText.BeforeTrichotomy` | api-server/src/searchIndex.ts:1016-1036 | string order is total and irreflexive, so each probe of the search takes exactly one branch |
| `Credentials.TokensAreMaximalRuns` | api-server/src/searchIndex.ts:244-250 | the tokens of a text are its maximal runs of at least two word characters: all of them, each as often as it occurs, from left to right |
| `Credentials.ScoreCredential` | api-server/src/searchIndex.ts:302-324 | the accumulated score equals the weighted sum and is positive exactly when some query token is related to some token of the record |
| `Credentials.ScorePositive` | api-server/src/searchIndex.ts:302-324 | the same equivalence for the score as a function, on all records and queries |
| `Credentials.OneFieldScore` | api-server/src/searchIndex.ts:302-324 | one query token scores in one field its weight times the matches there, an exact match counted twice and a partial one once |
| `Credentials.FieldScoreAdds` | api-server/src/searchIndex.ts:302-324 | scores of query tokens add up |
| `Credentials.FieldsScoreAdds` | api-server/src/searchIndex.ts:302-324 | scores of fields add up |
| `Credentials.FieldRanks` | api-server/src/searchIndex.ts:302-324 | which field a match is in decides its weight: issuer, then subject, issuer type and jurisdiction, then id, type, metadata |
| `Credentials.AncestorsMean` | api-server/src/searchIndex.ts:221-232 | a credential is filed under a level if and only if its code is that level, continues it with a dash, or lies so within a member state for "EU" |
| `Credentials.JurisdictionSource` | api-server/src/searchIndex.ts:210-214 | the code at the top wins whatever the metadata holds; without one the metadata's text counts; a blank one is none |
| `Credentials.MetadataIsSearchable` | api-server/src/searchIndex.ts:269-289 | a text is searchable metadata if and only if it labels an entry at some depth or is shown by its value, plain members of arrays included |
| `Credentials.PartyFieldsAre` | api-server/src/searchIndex.ts:256-264 | the fields issuer, subject and issuer type hold their text and no other |
| `Credentials.KindFieldsAre` | api-server/src/searchIndex.ts:256-264 | the fields jurisdiction, id and credential type hold their text and no other |
| `Credentials.OccurrencesMean` | api-server/src/searchIndex.ts:256-292 | a credential is posted under a token and a field if and only if a text of that field has the token |
| `Credentials.FilterLaws` | api-server/src/searchIndex.ts:360-363 | filter trees obey the laws of logic, empty and single lists, concatenation and negation included |
| `SearchIndexes.InStepIsRebuilt` | api-server/src/searchIndex.ts:670-718 | a bucket map is in step with the store if and only if it equals the map rebuilt from the store: no stale id, no empty bucket |
| `SearchIndexes.InvertedUnique` | api-server/src/searchIndex.ts:624-666 | being in step determines the postings of every token up to order, each occurrence once |
| `SearchIndexes.SeenKeyInjective` | api-server/src/searchIndex.ts:624-644 | the joined text used to skip repeated (token, field) pairs never confuses two pairs |
| `SearchIndexes.DistinctLeavesNothingStale` | api-server/src/searchIndex.ts:564-577 | a load with distinct ids always meets the condition of `LoadedInStep` |
| `SearchIndexes.LoadedPostingsInStep` | api-server/src/searchIndex.ts:564-577 | after a load the postings match the store if and only if replaced records had no token |
| `SearchIndexes.LoadedBucketsInStep` | api-server/src/searchIndex.ts:564-577 | after a load a bucket map matches the store if and only if replaced records shared their keys with their replacement |
| `SearchIndexes.LoadedInStep` | api-server/src/searchIndex.ts:564-577 | after a load all indexes match the store if and only if no replaced record leaves anything behind |
| `SearchIndexes.ReloadLeavesStale` | api-server/src/searchIndex.ts:564-577 | a two-record load that does leave something behind |
| `Queries.TypeLookupExact` | api-server/src/searchIndex.ts:845-849 | looking a type up by its printed number finds exactly the records of that type |
| `Queries.JurisdictionLookupExact` | api-server/src/searchIndex.ts:205-232 | the index lookup by level finds the records the ancestor test accepts |
| `Queries.InJurisdictionMeans` | api-server/src/searchIndex.ts:901-909 | a record is found by jurisdiction if and only if its code lies within a requested one |
| `Queries.DateBoundsMean` | api-server/src/searchIndex.ts:921-940 | both bounds at one date keep exactly that date; later records pass a lower bound that earlier ones pass |
| `Queries.UnreadableDates` | api-server/src/searchIndex.ts:921-940 | a bound keeps nothing whose date, or that itself, cannot be read; no bound keeps everything |
| `Queries.DateBoundsReadTheirDate` | api-server/src/searchIndex.ts:921-940 | bounds on creation and expiry each read their own date |
| `Queries.AttestationBoundsMean` | api-server/src/searchIndex.ts:917-919 | attestation bounds split the records, and equal bounds keep exactly that count |
| `Queries.FilterTreesMean` | api-server/src/searchIndex.ts:943-945 | all filter trees of a query are applied, in any grouping |
| `Queries.OwnersSeeTheirOwn` | api-server/src/searchIndex.ts:876-877 | a search as an owner returns nothing that belongs to another and hides nothing that belongs to nobody |
| `Queries.SubjectFilterMeans` | api-server/src/searchIndex.ts:899 | a subject filter keeps the records of that subject |
| `Queries.NarrowedMeans` | api-server/src/searchIndex.ts:834-872 | what candidate selection keeps, filter by filter, in terms of the record |
| `Queries.NarrowThenFilterIsScan` | api-server/src/searchIndex.ts:834-948 | narrowing followed by the filter pass keeps exactly what a plain scan of the record would |
| `Queries.NarrowingOnlyOptimises` | api-server/src/searchIndex.ts:834-948 | the filter pass alone gives the same result set if and only if no record it keeps is one where the index disagrees (revoked under suspended, unknown status words, empty issuer type) |
| `Queries.RevokedIsNotFoundAsSuspended` | api-server/src/searchIndex.ts:875-948 | every record both revoked and suspended is such a record under the filter for suspended ones |
| `Queries.IssuerFacetExact` | api-server/src/searchIndex.ts:988-1013 | the records counted under an issuer are the result of the search with that issuer filter added |
| `Queries.TypeFacetExact` | api-server/src/searchIndex.ts:988-1013 | the same for a credential type |
| `Queries.StatusFacetExact` | api-server/src/searchIndex.ts:988-1013 | the same for a status |
| `Queries.IssuerTypeFacetExact` | api-server/src/searchIndex.ts:988-1013 | the same for an issuer type, with the exact condition for the word unknown |
| `Queries.JurisdictionFacetIncluded` | api-server/src/searchIndex.ts:1008-1011 | the records behind a jurisdiction facet value are among those found by it, which are all whose code lies within it |
| `Pages.OrderIsTotalPreorder` | api-server/src/searchIndex.ts:425-433 | the multi-key comparator is total and transitive in both directions, so sorting by it is well defined |
| `Pages.SortSorts` | api-server/src/searchIndex.ts:979-985 | sorting gives an ordered permutation |
| `Pages.SortIsStable` | api-server/src/searchIndex.ts:979-985 | records that compare equal keep the order they came in |
| `Pages.FirstDifferenceDecides` | api-server/src/searchIndex.ts:425-433 | the first key on which two records differ decides, in the wanted direction |
| `Pages.RanksReadTheirField` | api-server/src/searchIndex.ts:405-423 | each sort key reads its own field; recency falls back to the last update |
| `Pages.ReputationRanks` | api-server/src/searchIndex.ts:167-171 | one more attestation outweighs every issuer type; among equals government, bank and private rank in this order |
| `Pages.RelevanceOrders` | api-server/src/searchIndex.ts:957-985 | a search by relevance with a query lists the best scores first; without a sort key ids decide |
| `Pages.CursorTextsFollowRanks` | api-server/src/searchIndex.ts:783-805 | for numbers that fit the width, cursor texts are ordered as the ranks the records are sorted by |
| `Pages.CursorTextsTellDates` | api-server/src/searchIndex.ts:783-805 | the cursor text of a date sort tells exactly that date |
| `Pages.SortedByIdAscends` | api-server/src/searchIndex.ts:783-805 | distinct canonical ids of at most 15 digits sorted by id have strictly ascending, non-empty cursor texts |
| `Pages.SortedByIdDescends` | api-server/src/searchIndex.ts:783-805 | sorted by id descending, strictly descending ones |
| `Pages.SameStrict` | api-server/src/searchIndex.ts:979-985 | two lists of the same records in the same strict order, ascending or descending, are the same list |
| `Pages.FindStart` | api-server/src/searchIndex.ts:1016-1036 | on ascending texts the search finds the first record past the cursor, also when the cursor's record is gone; on descending texts, where it lands for every record |
| `Pages.TakePage` | api-server/src/searchIndex.ts:1038-1062 | page contents, next cursor and has-more flag for every list, cursor and limit |
| `Pages.CollectedBeforeCursor` | api-server/src/searchIndex.ts:1044-1062 | in any walk, everything returned so far lies at or before the cursor handed out last |
| `Pages.WalkAscends` | api-server/src/searchIndex.ts:1016-1062 | no walk returns a record twice or out of order, even if records come and go between requests |
| `Pages.NothingSkipped` | api-server/src/searchIndex.ts:1016-1062 | a record that stays in the results is returned or still lies ahead of the cursor |
| `Pages.FinishedWalkComplete` | api-server/src/searchIndex.ts:1016-1062 | a finished walk returned every record that stayed in the results |
| `Pages.StaticWalkReturnsList` | api-server/src/searchIndex.ts:1016-1062 | over an unchanged list a finished walk returns exactly the list, in at most length / size + 1 pages |
| `Pages.WalkDownExactly` | api-server/src/searchIndex.ts:1016-1036 | how a walk over a fixed descending list goes, by the number of records: whole, repeating its first page for ever, or cut off after the first page |
| `SearchEngine.SearchIndex.AddToInvertedIndex` | api-server/src/searchIndex.ts:624-644 | adds one posting per distinct (token, field) pair of the record and changes nothing else |
| `SearchEngine.SearchIndex.RemoveFromInvertedIndex` | api-server/src/searchIndex.ts:646-666 | removes the record's postings and every list that becomes empty |
| `SearchEngine.SearchIndex.AddToFieldIndex` | api-server/src/searchIndex.ts:670-681 | files the record under its value of every indexed field |
| `SearchEngine.SearchIndex.RemoveFromFieldIndex` | api-server/src/searchIndex.ts:683-692 | unfiles it from every field and drops emptied buckets |
| `SearchEngine.SearchIndex.AddToJurisdictionIndex` | api-server/src/searchIndex.ts:696-707 | files the record under its jurisdiction and all ancestors |
| `SearchEngine.SearchIndex.RemoveFromJurisdictionIndex` | api-server/src/searchIndex.ts:709-718 | unfiles it from all levels and drops emptied buckets |
| `SearchEngine.SearchIndex.IndexCredentials` | api-server/src/searchIndex.ts:564-577 | the last record per id is stored, and the indexes are consistent if and only if the list leaves nothing stale |
| `SearchEngine.SearchIndex.IndexCredential` | api-server/src/searchIndex.ts:584-596 | an upsert keeps every index equal to the rebuilt one |
| `SearchEngine.SearchIndex.RemoveCredential` | api-server/src/searchIndex.ts:601-609 | a removal, of a known or unknown id, keeps every index equal to the rebuilt one |
| `SearchEngine.SearchIndex.ClearAll` | api-server/src/searchIndex.ts:614-620 | clearing gives the consistent empty index |
| `SearchEngine.SearchIndex.Replay` | api-server/src/searchIndex.ts:564-718 | after every history of loads, upserts, removals and clears, all indexes equal those rebuilt from the store |
| `SearchEngine.LatestOpDecides` | api-server/src/searchIndex.ts:564-622 | after any history the store holds for each id what the latest operation concerning it said |
| `SearchEngine.SearchIndex.LookupTokens` | api-server/src/searchIndex.ts:730-766 | the lookup returns exactly the ids with a positive score, or in all-tokens mode those matching every token |
| `SearchEngine.SearchIndex.NarrowByField` | api-server/src/searchIndex.ts:520-536 | union over the wanted values, intersected with the candidates so far |
| `SearchEngine.SearchIndex.SelectCandidates` | api-server/src/searchIndex.ts:834-872 | candidate selection keeps exactly the records the query narrows to |
| `SearchEngine.SearchIndex.Matches` | api-server/src/searchIndex.ts:875-964 | after filter pass and zero-score drop the survivors of a plain scan remain, each once |
| `SearchEngine.SearchIndex.Search` | api-server/src/searchIndex.ts:819-1103 | a search returns the page at the cursor of the ordered survivors, their total, and for each facet the count of every value; the counts add up to the total |
| `SearchEngine.ResultsById` | api-server/src/searchIndex.ts:979-985 | results by ascending id meet what the cursor search needs |
| `SearchEngine.SearchWalkEnds` | api-server/src/searchIndex.ts:819-1103 | finished or not, a walk of searches by id takes at most one page more than full pages fit into the matches, so it ends |
| `SearchEngine.SearchWalkReturnsEveryMatchOnce` | api-server/src/searchIndex.ts:819-1103 | repeating a search by id with each next cursor until none is left returns every match of the plain scan once, in order, and nothing else, within that bound |
| `SearchEngine.DescendingContinuesExactly` | api-server/src/searchIndex.ts:1016-1036 | a search by descending id at the cursor of a record continues with the next record if and only if it is the middle one |
| `SearchEngine.DescendingWalkExactly` | api-server/src/searchIndex.ts:1016-1036 | a walk of searches by descending id that ends has every match if and only if they fit one page, or two up to one record; between the two it never ends |
| `SearchEngine.TallyIsFacetCount` | api-server/src/searchIndex.ts:988-1013 | the tally of a facet value is the number of matches with that value |
| `SearchEngine.FacetCountsSumToTotal` | api-server/src/searchIndex.ts:988-1013 | the counted values of a facet add up to the number of records counted |
| `Deduplication.DedupedMeans` | api-server/src/searchIndex.ts:443-482 | each kept record is the newest of its key by version, then update time, then position |
| `Deduplication.DedupeIsIdempotent` | api-server/src/searchIndex.ts:443-482 | deduplicating twice is deduplicating once |
| `Deduplication.KeyIdentifiesExactly` | api-server/src/searchIndex.ts:439-441 | a key stands for one subject and issuer if and only if the separator occurs in it once |
| `Deduplication.SameKeyExactly` | api-server/src/searchIndex.ts:439-441 | with one separator in its key, a record is merged with exactly those of the same subject and issuer |
| `Deduplication.VersionThenDate` | api-server/src/searchIndex.ts:443-482 | the version decides which record is newer, and among equal versions the date of the last update |
| `Deduplication.SeparatorInIssuerCollides` | api-server/src/searchIndex.ts:439-441 | a collision of two different pairs |
| `Deduplication.DeduplicateRecords` | api-server/src/searchIndex.ts:443-482 | one record per key in order of first appearance, and the statistics add up |
| `RateLimiter.Limiter.Check` | api-server/src/middleware/rateLimiter.ts:69-120 | answer and new entry of the key for every stored state, other keys untouched |
| `RateLimiter.AtMostTwiceMaxMinusOne` | api-server/src/middleware/rateLimiter.ts:69-120 | every half-open interval of one window length admits at most 2 * max - 1 requests of a key |
| `RateLimiter.BoundIsReached` | api-server/src/middleware/rateLimiter.ts:69-120 | for every max some trace reaches that bound |
| `RateLimiter.NothingAllowedAdmitsOnce` | api-server/src/middleware/rateLimiter.ts:69-84 | with max <= 0 the first request of a key is admitted and no other ever |
| `RateLimiter.EveryIntervalWithinMaxExactly` | api-server/src/middleware/rateLimiter.ts:69-120 | no trace gets more than max requests admitted in any interval of one window length if and only if max is 1 (max >= 0 for windows without length) |
| `RateLimiter.AlignedIntervalWithinMax` | api-server/src/middleware/rateLimiter.ts:69-120 | for every max >= 1, an interval that starts where a counting window starts admits at most max requests |
| `RateLimiter.ReachableEntries` | api-server/src/middleware/rateLimiter.ts:69-120 | what holds of the entry of a key after any trace |
| `RateLimiter.AfterBackoff` | api-server/src/middleware/rateLimiter.ts:85-119 | requests during backoff change nothing; at or after its end a request is admitted exactly when the window has passed, hence always for non-shrinking backoffs |
| `RateLimiter.BackoffsCoverWindowExactly` | api-server/src/middleware/rateLimiter.ts:85-119 | every reachable backoff ends at or after the window if and only if backoffs do not shrink or cannot come twice |
| `RateLimiter.BlockIsForever` | api-server/src/middleware/rateLimiter.ts:85-119 | a blocked key stays blocked, is told one hour each time, and its entry never changes |
| `RateLimiter.BlockedExactly` | api-server/src/middleware/rateLimiter.ts:85-119 | blocked means too many violations in every run if and only if maxViolations is positive |
| `RateLimiter.KeysAreIndependent` | api-server/src/middleware/rateLimiter.ts:69-120 | in any interleaving each key sees the run of its own requests |
| `RateLimiter.PowAdds` | api-server/src/middleware/rateLimiter.ts:112 | powers follow their laws, one factor for each unit of the exponent |
| `RateLimiter.FirstBackoffIsWindow` | api-server/src/middleware/rateLimiter.ts:104-119 | in every trace the first violation shuts the key out for one window |
| `RateLimiter.BackoffGrows` | api-server/src/middleware/rateLimiter.ts:104-119 | in every trace, of two violations in a row that do not block, the later shuts out for exactly backoffMultiplier times as long |
| `RateLimiter.RetryAfterIsExact` | api-server/src/middleware/rateLimiter.ts:85-119 | waiting the seconds told is enough, and one second less is not |
| `RateLimiter.RemainingIsExact` | api-server/src/middleware/rateLimiter.ts:69-120 | as many more requests are admitted at that instant as remain, and the whole limit is there again at the reset time |
| `AdaptiveLimiter.RateIsCount` | api-server/src/middleware/adaptiveRateLimiter.ts:130-135 | comparing rates per second is comparing request counts |
| `AdaptiveLimiter.Limiter.DetectAnomaly` | api-server/src/middleware/adaptiveRateLimiter.ts:72-135 | the detector fires exactly when at least five requests are remembered and their number exceeds max times the threshold |
| `AdaptiveLimiter.Limiter.Check` | api-server/src/middleware/adaptiveRateLimiter.ts:165-249 | answer, reason, anomaly counter and new entry for every stored state, blacklist and override included |
| `AdaptiveLimiter.Limiter.Admit` | api-server/src/middleware/adaptiveRateLimiter.ts:193-249 | the same once the request is recorded and the detector consulted |
| `AdaptiveLimiter.ReasonFitsEntry` | api-server/src/middleware/adaptiveRateLimiter.ts:193-249 | a reason is given exactly to the refused, names the deadline that the reset time is, says blocked exactly when the key is, and tells new violations from running ones |
| `AdaptiveLimiter.RetryAfterIsExact` | api-server/src/middleware/adaptiveRateLimiter.ts:193-249 | waiting the seconds told is enough, and one second less is not |
| `AdaptiveLimiter.FirstOverrideWins` | api-server/src/middleware/adaptiveRateLimiter.ts:120-125 | the limit of a path is that of the first override whose prefix it has, else the base limit |
| `AdaptiveLimiter.SinceKeeps` | api-server/src/middleware/adaptiveRateLimiter.ts:72-77 | exactly the request times from the bound on are counted, each as often as it occurs |
| `AdaptiveLimiter.BlacklistLasts` | api-server/src/middleware/adaptiveRateLimiter.ts:200-208 | a blacklisted key is refused with its entry kept until the time told, and from then on the blacklist is void |
| `AdaptiveLimiter.AgreesWithBase` | api-server/src/middleware/adaptiveRateLimiter.ts:165-249 | on paths with one limit, as long as no request is anomalous, every answer is that of the base limiter with that limit, field by field |
| `AdaptiveLimiter.QuietTrafficAgrees` | api-server/src/middleware/adaptiveRateLimiter.ts:72-77 | traffic within max times the threshold in every window-long span is answered as by the base limiter with the limit of its paths |
| `AdaptiveLimiter.FirstAnomalyIsRefused` | api-server/src/middleware/adaptiveRateLimiter.ts:221-231 | the first anomalous request is refused and blacklists the key |
| `FifoSemaphore.StepKeepsSafe` | api-server/src/middleware/concurrentRequestLimiter.ts:85-137 | acquire, release and timeout keep limit, queue bound, no idle slot while someone waits, and first come first served |
| `FifoSemaphore.RunSafe` | api-server/src/middleware/concurrentRequestLimiter.ts:44-163 | the same for every reachable state |
| `FifoSemaphore.OutcomesAreFinal` | api-server/src/middleware/concurrentRequestLimiter.ts:85-137 | a request is settled at most once |
| `FifoSemaphore.StepSettlesExactly` | api-server/src/middleware/concurrentRequestLimiter.ts:85-137 | an event grants, refuses or times out a request exactly when there is reason to: a free slot or its turn, no slot and a full queue, its timer while it waits |
| `FifoSemaphore.OutcomesAreEarned` | api-server/src/middleware/concurrentRequestLimiter.ts:85-137 | every outcome in a run goes back to the event that gave it for that reason |
| `FifoSemaphore.NobodyIsForgotten` | api-server/src/middleware/concurrentRequestLimiter.ts:85-137 | whoever asked has an outcome or is waiting |
| `PromiseSemaphore.Semaphore.Acquire` | api-server/src/middleware/concurrentRequestLimiter.ts:85-119 | refines the abstract acquire; counters account for every slot and every wait |
| `PromiseSemaphore.Semaphore.Release` | api-server/src/middleware/concurrentRequestLimiter.ts:125-137 | refines the abstract release; the slot passes to the oldest waiter |
| `PromiseSemaphore.Semaphore.Timeout` | api-server/src/middleware/concurrentRequestLimiter.ts:110-115 | refines the abstract timeout; a promoted waiter cannot time out |
| `CallbackLimiter.EndpointState.Request` | api-server/src/middleware/rateLimiter.ts:249-322 | refines the abstract acquire |
| `CallbackLimiter.EndpointState.Done` | api-server/src/middleware/rateLimiter.ts:303-319 | the first of finish and close refines the abstract release, the second changes nothing |
| `CallbackLimiter.EndpointState.ReleaseSlot` | api-server/src/middleware/rateLimiter.ts:239-247 | the head of the queue is called back and the count stays, or the count falls |
| `CallbackLimiter.EndpointState.TimerFires` | api-server/src/middleware/rateLimiter.ts:288-301 | refines the abstract timeout, also for a request already settled |
| `LimitersAgree.RunBoth` | api-server/src/middleware/rateLimiter.ts:239-322 | under equal limits both implementations give every request the same outcome and hold the same slots and queue, for every run |
| `Coalescing.StepKeepsInv` | api-server/src/middleware/requestDeduplication.ts:91-193 | every step keeps single flight, at most one answer per request, and a faithful bounded cache |
| `Coalescing.RunKeepsInv` | api-server/src/middleware/requestDeduplication.ts:91-193 | the same for every run |
| `Coalescing.HitsAreFresh` | api-server/src/middleware/requestDeduplication.ts:91-147 | a hit is the key's latest response and younger than the TTL |
| `Coalescing.HitRepliesLatest` | api-server/src/middleware/requestDeduplication.ts:78-107 | an arrival answered at once adds exactly one reply, to itself, with the response of the latest handler for its key, published less than the TTL ago |
| `Coalescing.RepliesAreJustified` | api-server/src/middleware/requestDeduplication.ts:78-135 | every reply in any run carries what a handler for its request's own key published |
| `Coalescing.OldestIsPushedOut` | api-server/src/middleware/requestDeduplication.ts:119-130 | a completion pushes out at most one key, and of all cached keys the one that came in first |
| `Coalescing.HandlerRunsOnlyWhenNeeded` | api-server/src/middleware/requestDeduplication.ts:91-147 | a handler starts exactly when none is at work for the key and no fresh response is cached |
| `Coalescing.WaitersGetLeadersResponse` | api-server/src/middleware/requestDeduplication.ts:119-135 | a finished handler answers each of its waiters, none of them answered before, with its response |
| `Coalescing.RunLosesNobody` | api-server/src/middleware/requestDeduplication.ts:91-193 | in every run everyone leads, waits or has been answered; with no handler at work everyone else has been answered exactly once |
| `Coalescing.ResetKeepsSingleFlightExactly` | api-server/src/middleware/requestDeduplication.ts:232-235 | after a reset every next request leaves at most one handler per key, if and only if no handler was at work |
| `Coalescing.ResetAllowsSecondHandler` | api-server/src/middleware/requestDeduplication.ts:232-235 | after any other reset the next request starts a second handler for the key |
| `Coalescing.Deduplicator.CleanupExpired` | api-server/src/middleware/requestDeduplication.ts:57-63 | drops exactly the aged-out entries, in place and in order |
| `Coalescing.Deduplicator.Handle` | api-server/src/middleware/requestDeduplication.ts:91-147 | refines the abstract arrival: hit, wait or lead |
| `Coalescing.Deduplicator.FinalizeLeader` | api-server/src/middleware/requestDeduplication.ts:177-193 | refines the abstract completion; only the first call of a leader counts |
| `Coalescing.Deduplicator.Resolve` | api-server/src/middleware/requestDeduplication.ts:119-135 | cache, pending table and replies after a completion, with the oldest entry evicted on overflow |
| `ChunkedMigration.MigrateInStages` | contracts/quorum_proof/src/lib.rs:3801-3818 | migrating to one version and then to a higher one is migrating straight to the higher one |
| `ChunkedMigration.EntryPointsCompatible` | contracts/quorum_proof/src/lib.rs:3831-3919 | single-transaction and chunked migration absorb each other and themselves, and differ exactly on outdated items without metadata |
| `ChunkedMigration.StepKeepsInv` | contracts/quorum_proof/src/migration.rs:114-165 | every entry point and every outside call keeps each job consistent with what it examined, and the stored metadata equal to the last written one taken through the recorded transforms |
| `ChunkedMigration.RunKeepsInv` | contracts/quorum_proof/src/lib.rs:3722-4064 | the same for every sequence of calls |
| `ChunkedMigration.AnyRunExaminesOnce` | contracts/quorum_proof/src/migration.rs:154-165 | whatever calls are made, a completed job examined every id up to its total exactly once and migrated plus skipped is the total |
| `ChunkedMigration.ChunkCountsTransforms` | contracts/quorum_proof/src/lib.rs:4013-4050 | a chunk counts as migrated exactly the items whose recorded transforms grew, and the rest of its span as skipped |
| `ChunkedMigration.MigratedIsOutdated` | contracts/quorum_proof/src/lib.rs:4013-4050 | with no other callers a completed job reports as migrated the number of items up to the count that had metadata below the target |
| `ChunkedMigration.ChunksNeeded` | contracts/quorum_proof/src/migration.rs:134-165 | left alone, k chunks of s items examine k * s of them, and the job is complete if and only if that covers its total |
| `ChunkedMigration.JobIsDated` | contracts/quorum_proof/src/migration.rs:114-165 | in every run the dates of a job are those of the calls that created, last changed and completed it |
| `ChunkedMigration.NewJobExactly` | contracts/quorum_proof/src/lib.rs:3939-3967 | a job comes into being by a start for a registered version up to the active one, and in no other way |
| `ChunkedMigration.StepKeepsVersions` | contracts/quorum_proof/src/lib.rs:3682-3734 | a version is registered only right after the active one, and only a registered version becomes active |
| `ChunkedMigration.RunKeepsVersions` | contracts/quorum_proof/src/lib.rs:3682-3734 | whatever calls are made, versions stay registered without a gap and the active one is among them |
| `ChunkedMigration.CompletionIsFinal` | contracts/quorum_proof/src/lib.rs:3980-4064 | a completed job never changes again |
| `ChunkedMigration.StepKeepsOrderExactly` | contracts/quorum_proof/src/lib.rs:7804-7860 | a call keeps every transform since the last write applied exactly once and in order if and only if it does not relabel outdated metadata |
| `ChunkedMigration.RunKeepsOrderExactly` | contracts/quorum_proof/src/lib.rs:3722-4064 | the same throughout a run |
| `ChunkedMigration.OrderedDataIsMigrated` | contracts/quorum_proof/src/lib.rs:3801-3818 | then the stored bytes are the written ones taken through all transforms up to the marker |
| `ChunkedMigration.StepKeepsUpExactly` | contracts/quorum_proof/src/lib.rs:3939-4064 | a call keeps everything beyond a job's reach at its target if and only if it is no direct issue, no write under an older active version and no start over a restored count |
| `ChunkedMigration.RunKeepsUpExactly` | contracts/quorum_proof/src/lib.rs:3939-4064 | the same between any two points of a run |
| `ChunkedMigration.CompletionReachesTargetExactly` | contracts/quorum_proof/src/lib.rs:3980-4064 | from any state, left alone, a job ends with every item at the target if and only if everything beyond its reach is there already |
| `ChunkedMigration.AnyRunReachesTarget` | contracts/quorum_proof/src/lib.rs:3980-4064 | in a run in which no call leaves an item behind, completion means every stored item is at the target |
| `ChunkedMigration.DirectIssueIsLeftBehind` | contracts/quorum_proof/src/lib.rs:6926-7126 | start, direct issue, chunk: the job is complete and the new credential at version 0 |
| `ChunkedMigration.LoweredVersionIsLeftBehind` | contracts/quorum_proof/src/lib.rs:3722-3734 | after completion, lowering the active version and writing takes an item below the target |
| `ChunkedMigration.RelabelSkipsTransform` | contracts/quorum_proof/src/lib.rs:7848-7855 | start, relabel, chunk: complete, marked at the target, and the metadata untransformed |
| `ChunkedMigration.ChunkedEqualsOneShot` | contracts/quorum_proof/src/lib.rs:3980-4064 | with no other callers, chunk by chunk gives the same items as one pass over the ids up to the count |
| `ChunkedMigration.ProgressTellsCompletion` | scripts/migration_orchestrator.py:55-59 | the ratio lies in [0, 1], is 1 exactly when the job is complete, and times the total is the number of items examined |
| `ChunkedMigration.Contract.StartMigration` | contracts/quorum_proof/src/lib.rs:3939-3967 | an idempotent start: refused unless the version is registered and not beyond the active one, else the one job there is |
| `ChunkedMigration.Contract.MigrateNextChunk` | contracts/quorum_proof/src/lib.rs:3980-4064 | one clamped chunk from the stored cursor; a completed job is returned untouched |
| `ChunkedMigration.Orchestrator.WithRetry` | scripts/migration_orchestrator.py:78-105 | a reply reports the job as it is and a chunk call moved it on; exhaustion means that all of the allowed attempts were made and lost, or a start was refused; death means that the last attempt was killed |
| `ChunkedMigration.Orchestrator.RunToCompletion` | scripts/migration_orchestrator.py:108-157 | it terminates; a return means a completed job with every id up to its total examined once, however many calls took effect unseen, and every item at the target if no call meanwhile left one behind; exhaustion means that its last attempts were lost or the start refused, death that the last attempt was killed; either leaves a state another run continues from |
| `SchemaMigrations.RunKeepsReplay` | api-server/src/migrations/runner.ts:88-137 | after every run, finished or failed and whatever the clock does, the schema is the replay of the ledger |
| `SchemaMigrations.RunKeepsTimely` | api-server/src/migrations/runner.ts:88-137 | with an advancing clock each row of the ledger stays newer than all before it |
| `SchemaMigrations.RunAppends` | api-server/src/migrations/runner.ts:88-137 | a run appends to the ledger exactly what it reports |
| `SchemaMigrations.RunStops` | api-server/src/migrations/runner.ts:88-137 | a run applies the unapplied scripts in order up to the first that was changed or fails, and says which and why |
| `SchemaMigrations.SecondRunAppliesNothing` | api-server/src/migrations/runner.ts:88-137 | a second run applies nothing and changes nothing |
| `SchemaMigrations.QueryAnswers` | api-server/src/migrations/runner.ts:157-160 | the rollback query always has an answer |
| `SchemaMigrations.QueryIsBackwardsExactly` | api-server/src/migrations/runner.ts:157-160 | for a number of steps its only answer is the ledger read backwards if and only if each row it reads is strictly newer than all rows before it |
| `SchemaMigrations.EveryQueryIsBackwardsExactly` | api-server/src/migrations/runner.ts:157-160 | so for every number of steps, if and only if the commit times strictly increase |
| `SchemaMigrations.TiesAreAmbiguous` | api-server/src/migrations/runner.ts:157-160 | equal times of the two latest rows give two answers for one step |
| `SchemaMigrations.RollbackUndoesRun` | api-server/src/migrations/runner.ts:145-192 | rolling back what a run applied, newest first, restores schema and ledger |
| `SchemaMigrations.RollbackKeepsReplay` | api-server/src/migrations/runner.ts:145-192 | rolling back any number of steps succeeds and leaves the replay of the shortened ledger |
| `SchemaMigrations.RollbackLeaves` | api-server/src/migrations/runner.ts:142-189 | whatever the scripts do, a rollback leaves the rows of exactly the scripts not undone, in order, the schema taken through the down scripts of those undone, and stops at the first that is gone or fails |
| `SchemaMigrations.RollbackKeepsRow` | api-server/src/migrations/runner.ts:142-189 | a row is still in the ledger if and only if its script is not among those undone |
| `SchemaMigrations.FailedRollbackKeepsReplay` | api-server/src/migrations/runner.ts:142-192 | if down scripts undo their up scripts or fail, the schema stays the replay of the ledger, also when the rollback stops halfway |
| `SchemaMigrations.RunThenRollback` | api-server/src/migrations/runner.ts:88-192 | run, then roll back as many steps as were applied: back at the start, also after a failed run |
| `SchemaMigrations.Runner.RunPending` | api-server/src/migrations/runner.ts:88-137 | refines the run over the list of files, stopping at the first failure or changed checksum |
| `SchemaMigrations.Runner.RollBackLatest` | api-server/src/migrations/runner.ts:145-192 | whatever the query answers is rolled back in that order; if the latest rows are strictly newest, those and no others |
| `SchemaMigrations.Runner.RollBack` | api-server/src/migrations/runner.ts:166-189 | refines the rollback of the rows the query returned, stopping at the first failure or missing file |
| `Csv.ToCsv` | api-server/src/middleware/contentNegotiation.ts:117-150 | for a list or a single object the text of the header union and one record each; a bare value as it is |
| `Csv.HeadersAreUnion` | api-server/src/middleware/contentNegotiation.ts:117-150 | every key that occurs is a header once, in order of first appearance |
| `Csv.FieldReadsBack` | api-server/src/middleware/contentNegotiation.ts:98-110 | an escaped cell reads back, whatever it contains |
| `Csv.CsvReadsBackExactly` | api-server/src/middleware/contentNegotiation.ts:117-150 | a strict reader for section 2 of RFC 4180 gets headers and cells back if and only if there is a column |
| `Csv.CellsStandUnderHeaders` | api-server/src/middleware/contentNegotiation.ts:117-150 | a record holds under each header the cell of its row for it, empty when there is none |
| `Csv.CellReadsBack` | api-server/src/middleware/contentNegotiation.ts:117-150 | every cell is read back in its row, in the one column headed by its key |
| `Csv.PlainValueReadsBack` | api-server/src/middleware/contentNegotiation.ts:117-150 | a plain value in a list is read back in its record, in the column headed "value" |
| `Csv.EmptyObjectDoesNotReadBack` | api-server/src/middleware/contentNegotiation.ts:117-150 | one object without keys does not read back |
| `Xml.EscapeIsCharwise` | api-server/src/middleware/contentNegotiation.ts:157-170 | the five successive replacements escape each character exactly once |
| `Xml.SanitizeTag` | api-server/src/middleware/contentNegotiation.ts:199-204 | the result is a name, names stay as they are, and any other text is kept with its bad characters as underscores, at most one put in front |
| `Xml.BodyReads` | api-server/src/middleware/contentNegotiation.ts:179-198 | every value is written as one element that a strict reader reads as the value's tree, whatever follows |
| `Xml.TreeHasMembers` | api-server/src/middleware/contentNegotiation.ts:179-198 | the tree has an element for every member of a list or record, in order, and keeps every text |
| `Xml.DocumentReadsBackExactly` | api-server/src/middleware/contentNegotiation.ts:209-216 | the document is well formed and reads back as the value's tree, whatever the texts and keys contain, if and only if the caller's element names that it uses are names |
| `Xml.SpacedNameDoesNotReadBack` | api-server/src/middleware/contentNegotiation.ts:209-216 | a root element name with a space in it spoils every document |
| `Xml.ScalarTextIsRecoverable` | api-server/src/middleware/contentNegotiation.ts:209-216 | two different texts never give the same document, whatever the element names |
| `ProofOfWork.HasLeadingZeros` | api-server/src/crypto/pow.ts:111-123 | true exactly when the digest, as a big-endian number, is below 2 to the power of its length minus the target |
| `ProofOfWork.HarderTarget` | api-server/src/crypto/pow.ts:111-123 | a digest that meets a target meets every smaller one |
| `ProofOfWork.AcceptedIsEarned` | api-server/src/crypto/pow.ts:64-106 | in every run an accepted solution answers a challenge issued before, within five minutes and at the difficulty of that moment |
| `ProofOfWork.EarnedIsAccepted` | api-server/src/crypto/pow.ts:82-106 | a solution in time for a fresh challenge is accepted if and only if the digest has the zero bits asked for at issue |
| `ProofOfWork.NoReplay` | api-server/src/crypto/pow.ts:82-106 | between two acceptances of a nonce it was issued again |
| `ProofOfWork.AcceptancesAreIssued` | api-server/src/crypto/pow.ts:64-106 | acceptances and stored copies of a nonce never outnumber its issues |
| `ProofOfWork.DifficultyBounded` | api-server/src/crypto/pow.ts:129-144 | difficulty never leaves the configured range, widened only by its start |
| `ProofOfWork.LoadMovesDifficulty` | api-server/src/crypto/pow.ts:129-144 | heavy load raises and light load lowers the difficulty by one, within its range; more load never makes it lower |
| `ProofOfWork.ChangesAreSpaced` | api-server/src/crypto/pow.ts:129-144 | two changes of the difficulty are at least one adjustment interval apart |
| `ProofOfWork.Manager.GenerateChallenge` | api-server/src/crypto/pow.ts:64-77 | stores the challenge at the current difficulty |
| `ProofOfWork.Manager.VerifySolution` | api-server/src/crypto/pow.ts:82-106 | accepts exactly a fresh, stored challenge with enough zero bits, and removes it when spent or expired |
| `ProofOfWork.Manager.AdjustDifficulty` | api-server/src/crypto/pow.ts:129-144 | one step up, down or none, at most once per interval |
| `ProofOfWork.Manager.CleanupChallenges` | api-server/src/crypto/pow.ts:185-200 | removes exactly the expired challenges |
| `LeastSquares.CompareLines` | api-server/longevity/detectors.ts:55-71 | the residuals of two lines differ by the squared distance of the lines and a cross term |
| `LeastSquares.NormalLineIsBest` | api-server/longevity/detectors.ts:55-71 | a line whose misses cancel, alone and weighted, has the least squared residual of all lines |
| `LeastSquares.BestLineIsUnique` | api-server/longevity/detectors.ts:55-71 | with two different x values it is the only one |
| `LeastSquares.CentredLineIsNormal` | api-server/longevity/detectors.ts:58-70 | the line computed from centred sums is such a line |
| `LeastSquares.ExactLineIsRecovered` | api-server/longevity/detectors.ts:55-71 | points on a line give that line back |
| `LeastSquares.PowerLawIsRecovered` | benches/src/complexity.rs:60-103 | costs that are exactly a * n^b are fitted with exponent b and R squared 1, for any additive logarithm |
| `LeastSquares.RSquaredRange` | benches/src/complexity.rs:88-102 | R squared lies in [0, 1] and is 1 exactly when all points lie on the line |
| `LeastSquares.LinearFit` | api-server/longevity/detectors.ts:55-71 | from three points on, the best line and the share of variation it explains; slope 0 without variation in x |
| `LeastSquares.ShortFitBestExactly` | api-server/longevity/detectors.ts:57 | below three points the returned line is best if and only if there are not two different values |
| `LeastSquares.FitPowerLaw` | benches/src/complexity.rs:60-103 | a result exactly when two usable points differ in n, and then the best line in log-log scale with its R squared |
| `LeastSquares.FilteredCounts` | benches/src/complexity.rs:61-65 | exactly the points of positive size and cost are fitted, each as often as it was measured |
| `LeastSquares.ProgramsAgreeExactly` | benches/src/complexity.rs:88-102 | on the same points, from three on, both programs give the same slope, and the same R squared if and only if the y values vary |
| `StateCompat.Compare` | scripts/upgrade/check_state_compat.py:156-213 | the errors and warnings are exactly the breaking and noteworthy changes, and there is no error if and only if the upgrade is compatible |
| `StateCompat.CodesKeptExactly` | scripts/upgrade/check_state_compat.py:160-175 | no removed, renumbered or reused code if and only if every old code still stands for the same names |
| `StateCompat.CompatibleTransitive` | scripts/upgrade/check_state_compat.py:156-213 | compatibility is transitive, reuse of error codes included |
| `StateCompat.ChainIsCompatible` | scripts/upgrade/check_state_compat.py:156-213 | upgrades that each pass against the release before pass end to end, and a release passes against itself |
| `StateCompat.NoWarningMeansSameStructs` | scripts/upgrade/check_state_compat.py:190-205 | for compatible structs there is no warning if and only if every stored struct is unchanged |

## Left out

- HTTP plumbing, routing, headers, logging, metrics text and authentication around every component.
- Text is a sequence of code points; JavaScript compares UTF-16 code units, which differs only beyond the basic plane.
- The base64 form of a cursor: a cursor is the text it decodes to.
- SearchEngine.SearchIndex.Search: leaves out the options `deduplicate`, `include_versions` and `include_score` and the cut of a facet to its 50 most frequent values, because deduplication is proved on its own and the rest only decorates the result.
- Sort values of ids that are not canonical decimals, where the service compares NaN: the model ranks them by an arbitrary collation.
- SearchEngine.SearchWalkReturnsEveryMatchOnce: ids are canonical decimals of at most 15 digits, because longer ones do not survive conversion to a double.
- The leaf tests of a filter tree (eq, gte, lte, gt, lt and regex alike), date parsing, collation, case folding and trimming are uninterpreted functions.
- The request and refusal totals that the adaptive middleware counts around its check, and manual blacklisting and whitelisting.
- Per-endpoint overrides, `resetStats` and wait-time totals of the concurrency limiters.
- Streaming of responses in the coalescer: a captured response is one value.
- Sleeping between retries in the orchestrator, and its signal handling.
- Admin authorisation and pausing of the contract: to the orchestrator they appear as refused calls. The compression tag of metadata, which every migration copies.
- Loading and sorting migration files; the SQL of the ledger query is modelled by its ordering and limit.
- Csv.ToCsv: cells are already text; inherited JavaScript properties read through `row[h]` are not modelled. The reader is more lenient than section 2 of RFC 4180 in one point: it takes any character as text that is no quote, comma or line break.
- Xml.DocumentReadsBackExactly: scalars are already text; line-end normalisation and characters that XML 1.0 forbids are not modelled, and names are the ASCII ones the sanitiser produces.
- Floating-point rounding: scores, rates and fits are over the reals.
- `classify` of the benchmark fit and the detector's verdict thresholds: three comparisons each.
- SHA-256, random nonces and `solvePow`.
- StateCompat.Compare: the order and wording of messages, and the parser that builds the shapes.
- The threshold encryption, notification batching, dashboards, contracts other than the migration entry points, and the front end.
