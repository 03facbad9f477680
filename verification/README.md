# Verification of the catalog service

Dafny models of the parts of the service whose correctness is not visible in any one function: the walks
that must not lose an item, the passes that must survive being killed, the ranking and allocation rules
that promise a best possible answer, the migration that moves every credit, and the derived columns that
must agree with the rows they come from. Loops and objects that change state are methods and classes; each
is proved to compute a specification function, and the guarantees are lemmas about those functions, over
all inputs, all runs or all reachable states.

| module | part of the service |
|---|---|
| `ChangeWindows`, `ChangeWalk`, `ChangeWatermark` | the `/changes` feed: cutting and halving windows, how far a walk really saw everything, and the watermark over any history of runs |
| `DiscoverWindows` | the `/discover` enumeration: years, their months when a year is over the cap, and what a split may lose |
| `SimilarRanking`, `CrossTypeQuota`, `SimilarPage` | `/similar`: greedy diversification, reserved cross-type slots, the page as a whole |
| `QuotaAllocation`, `EmbeddingPass` | splitting the embedding cap, and the resumable pass that spends it |
| `KeysetWalk` | enumerating a set that changes during the walk |
| `CreditTables`, `CreditStatements`, `CreditsMigration` | migration 0037, up and down |
| `CursorWalk`, `WikidataAnchors`, `WikidataRelations` | the cursor protocol of the Wikidata passes, and the two passes |
| `DumpFiles`, `DumpPhases`, `DumpWatermark` | the Open Library artifacts: how a file is written and killed, the passes over killed runs, and the edition watermark over four moving aliases |
| `Ratings` | ratings, moderation, aggregates and feed events as one state machine |
| `RateLimiter` | the sliding-window limiter against the rule it implements |
| `Exposition`, `Metrics`, `MetricsHistory` | the metrics registry, its text, a parser that reads it back, and both over any history of calls |
| `Adaptations` | the two directions of the adaptation edges |
| `Common` | value types and sequence facts used by the others |

`dafny verify dfyconfig.toml` checks everything.

## What is taken as given

- A query is the set or sequence of rows it returns, and a commit is one atomic step; a kill may fall between any two.
- Opening a file empties it, a write appends to it, and a rename replaces its target in one step; a kill may fall
  between any two.
- Dates are ordinals; clocks, scores, means and bounds are reals. A server is a map from day to ids together with the
  way it cuts a window into pages; `Honest` says that the pages of a window list exactly what it holds.
- Things this code only calls are parameters: the vector index, Wikidata's answers, the published dumps, what a dump
  pass collects, the formats of the artifacts, the row mapper, the outcome of refreshing an item, the digest of a
  text, which items have a blank overview, the franchise named by a title, rounding, number printing, the database's
  collation and its order among ties. Values that meet what is asked of them exist (`CreditTables.SessionExists`,
  `MetricsHistory.PrinterExists`, `SimilarPage.FaithfulIndexExists`).
- `backlogg/scheduler/jobs.py` is used for the lane that moves the `/changes` watermark.

## Where the code and its own descriptions differ

The models follow the code. Each difference has a lemma with an input that shows it, or an exact condition.

- `covered_through` is said to be the last day seen whole (`backlogg/scheduler/discovery.py:741-744`). A single day
  flagged as splittable and over the page cap is dropped without being reported, and still claimed
  (`ChangeWalk.FlaggedDayIsLost`). That is the only exception (`ChangeWalk.PromiseKeptExactlyWhenWalkable`), and no
  window the planner builds is like that.
- A watermark day that falls out of retention is neither asked for again nor reported as uncovered
  (`ChangeWatermark.LeftBehindIsSilent`), and a change that arrived late on that day is then lost: two runs that show it
  are `ChangeWatermark.LateChangesAreLost`, and `ChangeWatermark.AskedAgainExactlyWhenRetained` says exactly when the
  day is asked for again.
- The watermark of `/changes` passes items that the writer rejected. The error count of a run is zero if and only if
  everything it read, held and could fetch was written or is gone (`ChangeWatermark.WriteErrorsTellExactly`); then, and
  where no other day was read only then, so was everything catalogued of a claimed day
  (`ChangeWatermark.ClaimedItemsAreWrittenExactly`).
- Splitting a `/discover` window takes the months of the year it starts in. That loses nothing if and only if the window
  ends in that year, which the year windows do (`DiscoverWindows.SplitLosesNothingExactly`).
- With a negative score the penalty of `diversify` lifts a candidate instead of lowering it
  (`SimilarRanking.PenaltyLowersExactly`, `SimilarRanking.NegativeScoresAreLifted`). A candidate that shares no group is
  safe from lower scores, whatever the groups of the others, if and only if the score order does not hold two different
  negative scores below its top (`SimilarRanking.LonersAreSafeExactly`).
- `selected == skipped + embedded + vanished` "always holds" (`backlogg/recommendations/embeddings.py:235`). It fails
  for the type of a pass stopped before its first batch, and on a completed pass over a type requested twice, which
  handles twice what it selected (`EmbeddingPass.CountersNeedNotAddUp`). A type that a stopped pass did not come to has
  no counters. For one that has, the identity holds if and only if its selection is empty, or every batch of the type
  has been done once and none a second time (`EmbeddingPass.SelectionAddsUpExactly`).
- The three stopping rules of the keyset walk are documented in the order empty, short, stalled
  (`backlogg/scheduler/igdb_catalog.py:147-155`) and tried in the order empty, stalled, short. The walks are the same if
  and only if no page that is read is short and without an id above the cursor (`KeysetWalk.OrdersAgreeExactly`); on
  such a page the code reports a stall (`KeysetWalk.ShortStallTellsThemApart`). A source that filters and sorts gives
  none (`KeysetWalk.OrdersAgreeOnHonoured`).
- The downgrade of migration 0037 is said to bring the graph credits back exactly and each cast credit by its person's
  name. A graph credit comes back whole exactly when it had no character and no billing order; a cast credit comes back
  for the first surviving person of that name, who need not be the one who had it
  (`CreditsMigration.NamesakeIsCredited`).
- A Wikidata pass with a batch size below one clears its cursor without having read anything
  (`CursorWalk.ClearsEarlyIffEmptyBatch`).
- The re-check after a diff reads the works alias alone (`scripts/incremental_sync.py:149-168`), while each of the four
  passes follows its own alias (`backlogg/books/adapters/openlibrary_dump.py:106`). With the reading log published ahead
  of the works the re-check succeeds and the watermark confirms an edition whose counts come from the next one
  (`DumpWatermark.ConfirmedDiffCanBeMixed`). A diff is of the edition it names, whatever the dumps hold, if and only if
  each of its artifacts was streamed while its own alias pointed there (`DumpWatermark.DiffIsGenuineExactly`). Four
  aliases at the edition when its directory was opened and when the diff is settled suffice
  (`DumpWatermark.FourAliasesSuffice`); at the beginning of the run that finishes it they do not, because a killed run
  may have left an artifact there before the aliases had met (`DumpWatermark.LeftoverCountsAreConsumed`).
- A failed re-check counts as "unmoved" and can record an edition whose works were never diffed
  (`DumpWatermark.FailedRecheckMixesEditions`); it matters exactly when the works alias has moved and the watermark is
  not already at the edition (`DumpWatermark.RecheckMattersExactly`).
- An author's name with a line break in it is cut at the break when the artifact is read back; the names come back if
  and only if none has one (`DumpFiles.NamesComeBackExactly`).
- The relations pass asks for an entity once per batch, so its counts of statements and of unmatched ends depend on how
  the rows fall into batches (`WikidataRelations.StatementsMayBeCountedTwice`). The first is that of a single batch if
  and only if no entity with a statement has rows in two batches, the second if and only if none with a statement whose
  far end is missing has (`WikidataRelations.CountsAgreeExactly`). Its edges, the edges created, and the counts by
  relation and of self-edges do not depend on the batch size (`WikidataRelations.BatchSizeDoesNotMatter`).
- An item that is joined to itself is listed on its own page in one direction only, unless it is so by both relations
  (`Adaptations.DirectionsAreSymmetric`, `Adaptations.SelfEdgeBreaksSymmetry`); the table excludes such edges.
- A rate limit of zero, which `parse_rate` never yields, raises on the first call instead of refusing it
  (`RateLimiter.LimiterRefinesRule`).

## Model

| member | source | states |
|---|---|---|
| ChangeWindows.ChangeWindowsOf | backlogg/scheduler/discovery.py:265-303 | fails exactly on a reversed range or an empty span, otherwise yields the tiling below |
| ChangeWindows.WindowTilingTiles | backlogg/scheduler/discovery.py:268-289 | the windows tile the range, each at most the span, all but the last exactly the span, a single day never splittable |
| ChangeWindows.TilesCoverOnce | backlogg/scheduler/discovery.py:268-274 | windows that tile a range are ordered, adjacent and disjoint and together hold exactly its days |
| ChangeWindows.SplitTiles | backlogg/scheduler/discovery.py:316-339 | the two halves tile the window, are both shorter, differ by at most a day; a single day has none |
| ChangeWindows.PlanChangeWindows | backlogg/scheduler/discovery.py:372-467 | fails exactly when the retention is empty, or the span is and there is something to cut |
| ChangeWindows.PlanIsHonest | backlogg/scheduler/discovery.py:378-433 | the plan's windows are adjacent, within the span and the retention; each day after the watermark is requested or reported as uncovered, never both, never neither; and the number of uncovered days is right |
| ChangeWalk.Walk.WalkChangeWindow | backlogg/scheduler/discovery.py:776-844 | the recursive walk leaves exactly the ids, counters, truncated days and requests of the leaves of the halving, left to right |
| ChangeWalk.FetchChangeIds | backlogg/scheduler/discovery.py:847-905 | the feed handed to the caller and the requests made are those of the walk |
| ChangeWalk.CoveredThroughIsSound | backlogg/scheduler/discovery.py:741-744 | every id the server holds for a day up to `covered_through` is in the feed |
| ChangeWalk.CoveredThroughIsMaximal | backlogg/scheduler/discovery.py:881-905 | coverage stops short of the window's end only right before a single day that overflows the cap by itself |
| ChangeWalk.EveryDayIsReadOrNamed | backlogg/scheduler/discovery.py:776-844 | `truncated` names single days of the window with more pages than the cap, whose pages up to the cap are in the feed; of every other day everything is in it |
| ChangeWalk.FeedIdsAreHeld | backlogg/scheduler/discovery.py:735-736 | no id is repeated, and each is held by the server for some day of the window |
| ChangeWalk.RequestsStayInside | backlogg/scheduler/discovery.py:776-844 | no page beyond 500 is ever requested, none a window does not have save its first, and no day outside the window |
| ChangeWalk.FlaggedDayIsLost | backlogg/scheduler/discovery.py:800-812 | a server and a malformed one-day window whose id is claimed as covered and missing |
| ChangeWalk.PromiseKeptExactlyWhenWalkable | backlogg/scheduler/discovery.py:741-744 | for windows of at least a day, the promise holds for every server if and only if the window is not a single day flagged as splittable |
| ChangeWatermark.Watermark.IncrementalChanges | backlogg/scheduler/jobs.py:1436-1576 | one run of the lane: the watermark, the ids read, the catalogued items written and the write errors, up to the first fetch failure or shortfall |
| ChangeWatermark.RunLaneCovers | backlogg/scheduler/jobs.py:1436-1576 | a run never moves the watermark back or past today, and reads whole or reports each day it newly claims |
| ChangeWatermark.EveryDayIsReadOrReported | backlogg/scheduler/discovery.py:741-746 | over any history of runs, with servers and failures differing from run to run and with or without a watermark to begin with, each day in scope up to the current watermark was read whole or reported |
| ChangeWatermark.EveryPastDayIsSettled | backlogg/scheduler/discovery.py:378-467 | each day strictly before the watermark was passed by exactly one run, on a later day; that run neither asked for it nor reported it if and only if it was its expired watermark day, and otherwise read it whole or reported it |
| ChangeWatermark.LeftBehindIsSilent | backlogg/scheduler/discovery.py:433-467 | an expired watermark day is neither requested nor reported |
| ChangeWatermark.AskedAgainExactlyWhenRetained | backlogg/scheduler/discovery.py:433-467 | a run that moves the watermark off a day asks for it again, and reads it whole, if and only if the day is still retained, and never reports it |
| ChangeWatermark.LateChangesAreLost | backlogg/scheduler/discovery.py:378-433 | two runs between which an id changes late on the watermark day, is read by neither, and lies on a day that neither reports |
| ChangeWatermark.WriteErrorsTellExactly | backlogg/scheduler/jobs.py:1506-1540 | the error count of a run is zero if and only if everything catalogued that it read and could fetch was written or is gone |
| ChangeWatermark.ClaimedItemsAreWrittenExactly | backlogg/scheduler/jobs.py:1506-1560 | of a claimed and unreported day, every catalogued item is written or gone if the run counts no write error, and only if where it read no other day |
| DiscoverWindows.MonthWindows | backlogg/scheduler/discovery.py:245-262 | twelve month windows, except in the last year of the calendar |
| DiscoverWindows.MonthsTileTheYear | backlogg/scheduler/discovery.py:245-262 | the months tile the year exactly, each with its own number of days, leap years included, and not splittable |
| DiscoverWindows.YearsTile | backlogg/scheduler/discovery.py:225-242 | the year windows tile the whole range |
| DiscoverWindows.YearWindowsTile | backlogg/scheduler/discovery.py:225-242 | the list of year windows tiles the years asked for; each may be split, and then splits into exactly its own months |
| DiscoverWindows.Enumeration.EnumerateWindows | backlogg/scheduler/discovery.py:524-624 | for any list of windows: what is emitted, which windows are named as truncated, all five counters, and at which window the enumeration fails |
| DiscoverWindows.EnumerationIsComplete | backlogg/scheduler/discovery.py:524-624 | over any list of windows that split into their own days, an item dated inside them is emitted or lies in a window named as truncated, and nothing else is emitted |
| DiscoverWindows.OnlyMonthsAreTruncated | backlogg/scheduler/discovery.py:524-556 | an enumeration of years names nothing as truncated but months of theirs with more pages than the cap; a year over the cap is read by its months |
| DiscoverWindows.SplitLosesNothingExactly | backlogg/scheduler/discovery.py:524-556 | a window reaches all of its days on every server if and only if it may not be split or ends in the year it starts in |
| SimilarRanking.CountRepeats | backlogg/recommendations/ranking.py:160-170 | the dictionary of taken groups counts exactly the memberships shared with what was picked |
| SimilarRanking.Diversify | backlogg/recommendations/ranking.py:141-179 | the loop computes the greedy order of the penalised scores |
| SimilarRanking.DiversifiedPermutes | backlogg/recommendations/ranking.py:141-158 | the output is a permutation of the input |
| SimilarRanking.EveryPickIsBest | backlogg/recommendations/ranking.py:160-179 | each pick has the highest score left, at the penalties then in force |
| SimilarRanking.PicksFollowTheRule | backlogg/recommendations/ranking.py:127-179 | over scores, creators and franchises alone: each pick outscores everything picked later, both demoted once for every creator and for a franchise shared with each earlier pick; equals come by score, type name and id |
| SimilarRanking.LonersAreNotOvertaken | backlogg/recommendations/ranking.py:141-158 | a candidate that shares no group is preceded only by at least equal scores, or by repeated candidates with a negative one |
| SimilarRanking.LonersAreSafeExactly | backlogg/recommendations/ranking.py:141-179 | no grouping of the candidates lets a lower score precede one that shares no group if and only if their score order holds no two different negative scores below its top |
| SimilarRanking.PenaltyLowersExactly | backlogg/recommendations/ranking.py:160-179 | the penalty of a repeated candidate does not raise its score if and only if the score is not negative |
| SimilarRanking.NegativeScoresAreLifted | backlogg/recommendations/ranking.py:160-179 | three candidates for which the exception is met |
| SimilarRanking.SameGroupsKeepScoreOrder | backlogg/recommendations/ranking.py:141-158 | candidates with the same groups keep their score order |
| SimilarRanking.NoSharedGroupNoChange | backlogg/recommendations/ranking.py:141-158 | without a penalty or without shared groups the output is the sorted order |
| CrossTypeQuota.ApplyCrossTypeQuota | backlogg/recommendations/ranking.py:182-233 | reserving, filling and reading off equals one greedy pass that skips a same-type item only when the reserve needs the slot |
| CrossTypeQuota.OnePassKeeps | backlogg/recommendations/ranking.py:182-205 | the one pass and the set of kept positions agree from every position on |
| CrossTypeQuota.QuotaIsHonoured | backlogg/recommendations/ranking.py:182-205 | the page is a subsequence, as long as limit and candidates allow, with the promised cross-type items |
| CrossTypeQuota.QuotaIsOptimal | backlogg/recommendations/ranking.py:182-205 | no other selection of the size that meets the quota has a higher-ranked item in any place |
| CrossTypeQuota.OnlyThePromiseOvertakes | backlogg/recommendations/ranking.py:182-233 | a candidate left out is outranked by everything kept, save that one of the anchor's type may give way to one of another type, on a page with no more of those than the quota |
| SimilarPage.Neighbours | backlogg/recommendations/similar.py:99-163 | one narrowed read without a quota, two merged reads with one |
| SimilarPage.PoolIsDistinct | backlogg/recommendations/similar.py:107-128 | the pool repeats nobody, holds only the anchor's type without a quota, and with one every unfiltered and every narrowed neighbour |
| SimilarPage.GetSemanticSimilar | backlogg/recommendations/similar.py:166-224 | no page when there is no usable neighbour, otherwise the ranked page of the hydrated pool |
| SimilarPage.PageIsSound | backlogg/recommendations/similar.py:166-224 | the page is full when it can be, repeats nobody, omits the anchor and orphans, and keeps the cross-type promise |
| SimilarPage.EntriesTell | backlogg/recommendations/similar.py:99-224 | over the index and the rows alone: there is a page exactly when a neighbour read can be shown, and each entry has the score of its neighbour and the title and creators of its row |
| SimilarPage.NearestAreShown | backlogg/recommendations/similar.py:99-224 | without a penalty the page descends in score; a neighbour is left out only of a full page, and outscores an entry only if it is of the anchor's type, the entry is not, and the page has no more of those than the setting asks for, so never when it asks for none |
| SimilarPage.RankedPageIsSound | backlogg/recommendations/ranking.py:236-249 | the same for the ranker alone |
| QuotaAllocation.AllocateQuotas | backlogg/recommendations/embeddings.py:155-211 | terminates in level form and spends exactly what the rule allows |
| QuotaAllocation.WithinStock | backlogg/recommendations/embeddings.py:155-173 | no type gets more than it has, and one below its stock is at the level or one above |
| QuotaAllocation.FullySpentExactly | backlogg/recommendations/embeddings.py:174-211 | the budget is spent up to the stock if and only if it is at least the pool, or enough types have stock, or nobody has more than one |
| QuotaAllocation.MaxMinFair | backlogg/recommendations/embeddings.py:155-173 | no other spending gives a type more without taking from one that is not better off |
| QuotaAllocation.AllocationIsFair | backlogg/recommendations/embeddings.py:155-211 | stock, overrides, cap and fairness at once |
| QuotaAllocation.AllocationAnswers | backlogg/recommendations/embeddings.py:155-211 | over stock and overrides alone: an override within stock is honoured and a larger one is all there is; the other types are levelled, spare units going to those first in the fixed order; with at least four units to share the cap is spent unless nothing is left |
| EmbeddingPass.EmbeddingStore.EmbedBatch | backlogg/recommendations/embeddings.py:432-480 | one batch commits exactly its pending items and counts every key once, as committed, new, skipped, gone or without an overview |
| EmbeddingPass.EmbeddingStore.RunEmbeddingPass | backlogg/recommendations/embeddings.py:355-483 | a pass does a prefix of its plan, whole exactly when completed; exactly the types it came to have counters, and those count the keys of its batches: the commits, those that are new, the items that are gone, and those without an overview |
| EmbeddingPass.SelectionIsAccountedFor | backlogg/recommendations/embeddings.py:233-238 | a completed pass handles a selection once for every time its type was requested, a stopped one no more than that |
| EmbeddingPass.SelectionAddsUpExactly | backlogg/recommendations/embeddings.py:233-238 | in the result of any pass, a type has counters if and only if the pass came to it, and then `selected` is what was handled if and only if the selection is empty, or all batches of the type are done once and none twice |
| EmbeddingPass.CountersNeedNotAddUp | backlogg/recommendations/embeddings.py:233-238 | the results of a stopped pass and of one over a doubled type for which it is not |
| EmbeddingPass.BatchesSettle | backlogg/recommendations/embeddings.py:355-400 | an item is committed once if it exists, was out of date and is in some batch, and never otherwise |
| EmbeddingPass.PassCommitsExactly | backlogg/recommendations/embeddings.py:432-480 | a pass commits a selected item if and only if it exists and had no vector, one of another model or one of another text, and with `force` if and only if it exists; it then has the vector of the model and the text, and nothing else is touched |
| EmbeddingPass.CreatedHadNoVector | backlogg/recommendations/embeddings.py:476-483 | however far a pass got, `created` counts the items of the type that it committed and that had no vector when it began |
| EmbeddingPass.ChangedTextsAreEmbeddedAgain | backlogg/recommendations/embeddings.py:355-483 | a later pass, over a changed catalog or model, commits an item the first one settled if and only if it still exists and its text or the model has changed |
| EmbeddingPass.NoWorkIsRedone | backlogg/recommendations/embeddings.py:355-400 | over any stopped, killed and re-dispatched passes each selected item is committed exactly once by the first completed pass and never after |
| EmbeddingPass.RedispatchWritesNothing | backlogg/recommendations/embeddings.py:355-400 | a pass over an up-to-date selection commits nothing |
| EmbeddingPass.PlanHolds | backlogg/recommendations/embeddings.py:350-420 | the batches hold exactly the selected items of the requested types, each once |
| KeysetWalk.EnumerateCatalog | backlogg/scheduler/igdb_catalog.py:163-197 | the loop with its three stopping rules and the walk agree, with the page size held between 1 and 500, and it terminates for bounded ids |
| KeysetWalk.EmittedAreAnswered | backlogg/scheduler/igdb_catalog.py:169-181 | whatever the source answers, an id that is emitted was answered and is not 0, and the usable ids of its first request, wherever it starts, are all emitted |
| KeysetWalk.WalkIsComplete | backlogg/scheduler/igdb_catalog.py:31-46 | over a set that changes between requests: never stalled, strictly ascending, nothing unseen emitted, and every id that stays is emitted |
| KeysetWalk.OrdersAgreeExactly | backlogg/scheduler/igdb_catalog.py:147-155 | the code's order of the stopping rules and the documented one give the same walk if and only if no page read is short and stalled at once |
| KeysetWalk.ShortStallTellsThemApart | backlogg/scheduler/igdb_catalog.py:183-195 | a page for which they differ |
| KeysetWalk.OrdersAgreeOnHonoured | backlogg/scheduler/igdb_catalog.py:31-46 | over a source that filters and sorts they do not |
| KeysetWalk.OffsetWalkLoses | backlogg/scheduler/igdb_catalog.py:31-46 | listings over which paging by offset misses an id that never left |
| CreditTables.CodesAreWellFormed | backlogg/shared/codes.py:59-77 | no two names share a code, and every credit type and the cast role have one |
| CreditTables.GroupIsWholeOrAbsent | alembic/versions/0037_credits_people_storage_redesign.py:37-44 | the rows that a window's filter leaves of a group are all of them or none, because the group holds the item's id |
| CreditStatements.PayloadsJoin | alembic/versions/0037_credits_people_storage_redesign.py:234-269 | the payloads of two adjacent windows, each aggregated from its own filtered rows, are those of the joint window |
| CreditStatements.WalkWindows | alembic/versions/0037_credits_people_storage_redesign.py:217-229 | running any of the six statements window by window equals running it once over the table, for any ids and width |
| CreditStatements.TwoSpansAreOne | alembic/versions/0037_credits_people_storage_redesign.py:37-44 | two adjacent windows of a statement are one |
| CreditsMigration.Migration.Upgrade | alembic/versions/0037_credits_people_storage_redesign.py:300-363 | fails and writes nothing exactly on an unknown type or role, otherwise ends in the split tables |
| CreditsMigration.Migration.Downgrade | alembic/versions/0037_credits_people_storage_redesign.py:402-447 | ends in the wide table rebuilt from the graph and the payloads |
| CreditsMigration.GraphCreditsMove | alembic/versions/0037_credits_people_storage_redesign.py:271-283 | each credit that is not cast is one graph row with its creation time, there are no others, and their people survive |
| CreditsMigration.CastCreditMoves | alembic/versions/0037_credits_people_storage_redesign.py:234-269 | each named cast credit is exactly one payload entry, in its own item's payload, with its person's name, its billing order, and its character unless that was empty |
| CreditsMigration.PayloadHoldsTheCast | alembic/versions/0037_credits_people_storage_redesign.py:234-269 | every entry tells such a credit, and they come in billing order, unknown orders last |
| CreditsMigration.CascadeRemovesNothing | alembic/versions/0037_credits_people_storage_redesign.py:285-297 | purging the cast-only people deletes no graph row |
| CreditsMigration.PurgeIsExact | alembic/versions/0037_credits_people_storage_redesign.py:285-363 | purged are the people with credits but no graph credit, with their external ids and nobody else's |
| CreditsMigration.GraphCreditsComeBack | alembic/versions/0037_credits_people_storage_redesign.py:94-98 | up and down restores the key and creation time of every graph credit and no other; the whole row exactly when it had no character and no billing order |
| CreditsMigration.CastCreditsComeBackByName | alembic/versions/0037_credits_people_storage_redesign.py:100-109 | a cast credit is back exactly for the first surviving person of a name that was in the item's cast |
| CreditsMigration.CastCreditsComeBackWith | alembic/versions/0037_credits_people_storage_redesign.py:381-399 | with the order and the character, unless that was empty, of a credit under that name, whichever of several namesakes the database picks, and a new creation time |
| CreditsMigration.NamesakeIsCredited | alembic/versions/0037_credits_people_storage_redesign.py:100-103 | a database after which somebody has a credit they never had |
| CursorWalk.CycleIsComplete | backlogg/recommendations/wikidata_sync.py:42-51 | whatever kills, stops, re-dispatches and table changes fall between, a cycle of rounds from a cleared cursor to the next has processed every row that stayed |
| CursorWalk.LegsRefineSteps | backlogg/recommendations/wikidata_sync.py:222-303 | a history of executions, each with its own batch size and killed or not, ends and handles what the history of its rounds does |
| CursorWalk.ExecutionsAreComplete | backlogg/recommendations/wikidata_sync.py:42-51 | executions from a cleared cursor to the one that clears it next have handled every row that stayed |
| CursorWalk.ClearsEarlyIffEmptyBatch | backlogg/recommendations/wikidata_sync.py:233-243 | a round leaves rows behind and clears the cursor exactly when fewer than one row is asked for |
| CursorWalk.RunHandlesAPrefix | backlogg/recommendations/wikidata_sync.py:222-303 | batches of any size handle the same rows in the same order |
| CursorWalk.AllIsTheRest | backlogg/scheduler/repository.py:808-827 | the walk lists exactly the rows above the cursor, ascending |
| WikidataAnchors.AnchorStore.LinkBatch | backlogg/recommendations/wikidata_sync.py:248-300 | one batch links or counts out its rows in order |
| WikidataAnchors.AnchorStore.WalkType | backlogg/recommendations/wikidata_sync.py:208-303 | the rows handled are the next ones whatever the batch size, all of them when completed, which is when no check found the budget expired; the cursor is the last of them or cleared; and the execution is one of that many rounds of a walk |
| WikidataAnchors.AnchorStore.RunAnchorPass | backlogg/recommendations/wikidata_sync.py:193-309 | each type is answered by its own property: uncontested rows are anchored, the counters are those of its rows, other items and types keep their anchors; the total is the sum; completed means every cursor cleared |
| WikidataAnchors.CompletedPassAnchors | backlogg/recommendations/wikidata_sync.py:208-303 | a row above its type's cursor whose id its own property gives to one entity, free in that type and claimed by no other row, ends anchored to it; `missing` and `ambiguous` count the rows with no entity and with several, `resolved` those that end with theirs |
| WikidataAnchors.TallyPartitions | backlogg/recommendations/wikidata_sync.py:112-116 | resolved, missing, ambiguous and unlinked add up to considered |
| WikidataAnchors.ResolvedMeansLinked | backlogg/recommendations/wikidata_sync.py:281-293 | a row is counted resolved exactly when one entity claims it and its item ends the run anchored to that entity; any other row leaves its item's anchor as it was |
| WikidataAnchors.FirstRowsAreDistinct | backlogg/shared/external_ids.py:261-283 | the rows of a walk belong to distinct items |
| WikidataRelations.EdgesOfBatch | backlogg/recommendations/wikidata_sync.py:352-390 | the edges of a batch are those between its rows and items the catalog anchors, and none to itself; every pair is written or counted as a self-edge, and the counts by relation are those of the edges written |
| WikidataRelations.RelationStore.RunRelationsPass | backlogg/recommendations/wikidata_sync.py:312-406 | an execution: the edges are those of the rows read, all of them when it completes; the counters are those of its batches, by relation, and of what its upserts created and updated; and it is one of that many rounds of a walk |
| WikidataRelations.BatchSizeDoesNotMatter | backlogg/recommendations/wikidata_sync.py:312-406 | two executions with any two batch sizes that have read as many rows leave the same edges, with as many created, written by relation and skipped as self-edges; two that complete leave the same cursor |
| WikidataRelations.BatchingKeepsTheCounts | backlogg/recommendations/wikidata_sync.py:359-390 | as many edges are written by each relation and as many self-edges skipped, however the rows are cut into batches |
| WikidataRelations.CountsAgreeExactly | backlogg/recommendations/wikidata_sync.py:348-366 | cutting the rows into batches leaves the count of statements if and only if no entity with a statement has rows in two batches, that of unmatched ends if and only if none with an unmatched statement has, and never lowers either |
| WikidataRelations.StatementsMayBeCountedTwice | backlogg/recommendations/wikidata_sync.py:348-366 | two items of one entity in two batches, for which both counts are higher |
| WikidataRelations.ResumedPassIsOnePass | backlogg/recommendations/wikidata_sync.py:42-45 | a stopped pass and the one that resumes it leave what one pass leaves |
| WikidataRelations.EdgesAreGenuine | backlogg/recommendations/wikidata_sync.py:368-390 | no self-edge is ever written, and each edge is the relation of a statement about its `from` end |
| WikidataRelations.SecondPassCreatesNothing | backlogg/shared/item_relations.py:183-213 | a pass after a completed one, with any batch size and however far it gets, reports nothing created and changes no edge |
| DumpPhases.Seeding.RunPasses | scripts/seed_openlibrary_books.py:438-477 | each pass runs unless its artifact is there, and a missing input ends the run |
| DumpPhases.Seeding.PhaseLoad | scripts/seed_openlibrary_books.py:344-424 | needs all three artifacts, writes what the mode asks for, and counts each selected record once, as what became of it |
| DumpPhases.Seeding.Run | scripts/seed_openlibrary_books.py:452-477 | a run of every phase succeeds with all artifacts and the whole load |
| DumpPhases.KilledLoadIsHarmless | scripts/seed_openlibrary_books.py:47-48 | a load cut short anywhere and run again leaves what one load leaves, in either mode |
| DumpPhases.LoadTells | scripts/seed_openlibrary_books.py:366-399 | the row of a work after part of a load is the one mapped from its record exactly when the work was selected, a row could be mapped and, in diff mode, the catalog did not have it; every other row is as it was |
| DumpPhases.BrokenRunsEqualOneRun | scripts/seed_openlibrary_books.py:129-135 | after any history of whole passes and partial loads, one complete run leaves the artifacts and the catalog of an uninterrupted one |
| DumpFiles.WorkDir.WriteAtomic | scripts/seed_openlibrary_books.py:129-143 | the exact files after a kill at any file operation of a write |
| DumpFiles.OldOrWhole | scripts/seed_openlibrary_books.py:129-135 | a kill between any two operations leaves the old artifact or the whole new one, for the loaders and for the question whether a pass should run |
| DumpFiles.AnyPiecesWriteTheWhole | scripts/seed_openlibrary_books.py:129-143 | whatever pieces a write is made in, once they hold the whole buffer the rename leaves the whole artifact, no temporary file and every other file as it was; if they do not, the artifact is untouched |
| DumpFiles.WorkDir.RunPasses | scripts/seed_openlibrary_books.py:438-477 | a run killed at any file operation leaves, for a reader, what its first passes leave |
| DumpFiles.FilesRefinePasses | scripts/seed_openlibrary_books.py:129-143 | any sequence of opens, writes, renames, loads and kills is, for a reader, a history of whole passes and loads, and no write mixes with leftovers of another |
| DumpFiles.KilledAnywhereEqualsOneRun | scripts/seed_openlibrary_books.py:47-48 | after any such sequence one complete run leaves the artifacts and the catalog of an uninterrupted one |
| DumpFiles.NamesComeBackExactly | scripts/seed_openlibrary_books.py:295-318 | the author names that are loaded are those that were written if and only if none of them contains a line break |
| DumpWatermark.DiffsAreWhatTheyStreamed | scripts/incremental_sync.py:171-229 | in every reachable state a diff read what its four streams give, each between where its alias was when the directory was opened and at the end; a confirmed one streamed the works of its edition |
| DumpWatermark.DiffIsGenuineExactly | scripts/incremental_sync.py:171-229 | over any history, a diff read the artifacts of the edition it names whatever the dumps hold if and only if each was streamed while its own alias pointed at that edition |
| DumpWatermark.FourAliasesSuffice | scripts/incremental_sync.py:188-210 | so it is when all four aliases were there both when the directory was opened and when the diff was settled |
| DumpWatermark.ConfirmedDiffCanBeMixed | scripts/incremental_sync.py:149-168 | a run whose successful re-check confirms counts of the next edition |
| DumpWatermark.LeftoverCountsAreConsumed | scripts/incremental_sync.py:182-187 | a killed run's counts, of an earlier edition, consumed by a run that saw all four aliases at its own throughout |
| DumpWatermark.WatermarkOnlyAdvances | scripts/incremental_sync.py:188-197 | the watermark never goes back |
| DumpWatermark.PassesAreWrites | scripts/seed_openlibrary_books.py:129-143 | a pass of the diff is one write of the directory's files: killed at any operation it is a kill, run to its end it is the pass |
| DumpWatermark.RecheckMattersExactly | scripts/incremental_sync.py:149-168 | a failed re-check changes the watermark exactly when the works alias has moved and the watermark is not already at the edition |
| DumpWatermark.FailedRecheckMixesEditions | scripts/incremental_sync.py:149-168 | a run whose failed re-check records an edition it did not read |
| DumpWatermark.BookLane.RunBookIncremental | scripts/incremental_sync.py:171-279 | skips exactly a covered edition; otherwise loads a complete directory, whose artifacts are those of its streams, and moves the watermark unless the works alias is seen to have moved |
| Ratings.RatingDatabase.RecalculateItemAggregates | backlogg/ratings/repository.py:145-173 | one item's aggregates become those of its visible scored ratings |
| Ratings.RatingDatabase.RecalculateItemAggregatesBatch | backlogg/ratings/repository.py:176-239 | resetting and updating type by type gives every listed item its aggregates and leaves the rest |
| Ratings.BatchAgreesWithSingle | backlogg/ratings/repository.py:176-239 | resets and updates run type by type leave each listed item with the count of its visible scores and their mean under the database's rounding, where the single recompute leaves the same count and mean under its own; other items keep theirs |
| Ratings.RatingCounts | backlogg/ratings/repository.py:145-173 | a first rating of an item by a user raises its count by one and its unrounded total by the score, if it has one and the user is not banned; otherwise nothing changes |
| Ratings.FirstRatingIsTheMean | backlogg/ratings/repository.py:145-173 | the first rating of an item that has none counts alone, and its mean is the score |
| Ratings.RoundingTouchesTheMean | backlogg/ratings/repository.py:166-173 | an aggregate is the unrounded one with its mean rounded, and is empty exactly when nothing counts |
| Ratings.RatingDatabase.RateItem | backlogg/ratings/service.py:56-93 | rating is the transition below: upsert, recompute, create or remove the event |
| Ratings.RatingDatabase.DeleteItemRating | backlogg/ratings/service.py:96-106 | refused exactly when item or rating is missing |
| Ratings.RatingDatabase.SetReviewHidden | backlogg/moderation/service.py:20-48 | hiding and unhiding, each call with its audit row |
| Ratings.RatingDatabase.SetUserBanned | backlogg/moderation/service.py:51-86 | banning and unbanning, recomputing what the user had rated |
| Ratings.BanningIsLikeErasing | backlogg/moderation/service.py:51-86 | an accepted ban leaves on every item the aggregates that erasing the user leaves |
| Ratings.UnbanningBringsBack | backlogg/moderation/service.py:51-86 | unbanning brings back the counts and the means, under one rounding exactly |
| Ratings.HidingIsLikeDeleting | backlogg/moderation/service.py:20-48 | hiding a rating leaves on every item the aggregates that deleting it leaves |
| Ratings.UnhidingBringsBack | backlogg/moderation/service.py:20-48 | unhiding brings back what was there |
| Ratings.RatingDatabase.DeleteUser | backlogg/users/service.py:331-358 | erasing an account, recomputing what it had rated |
| Ratings.RatedItemsIff | backlogg/ratings/repository.py:128-142 | the items captured before a ban or an erasure are exactly those the user has rated |
| Ratings.UnratedItemsKeepScores | backlogg/moderation/service.py:54-59 | no other item's visible scores notice a ban or an erasure |
| Ratings.OtherRatingsStay | backlogg/ratings/repository.py:72-125 | no operation touches a rating it is not about |
| Ratings.OperationTakesEffect | backlogg/ratings/repository.py:72-125 | rating replaces score and text and keeps id and moderation flag, or adds a visible rating; hiding changes the flag alone |
| Ratings.NothingIsLeft | backlogg/feed/repository.py:58-65 | a deleted or erased rating is gone, and its event with it |
| Ratings.AuditExplainsFlags | backlogg/moderation/service.py:20-86 | from a store without ratings, over the users and items it starts with and any ratings, deletions, moderation calls and erasures, the audit trail alone determines which ratings are hidden and who is banned |
| Ratings.StepKeeps | backlogg/ratings/service.py:72-82 | every operation keeps aggregates and events in agreement with the ratings |
| Ratings.ReachableIsConsistent | backlogg/ratings/repository.py:145-239 | in every state reached from a consistent one, such as the empty one, counts and means are those of the visible scored ratings and events exactly those of ratings with a score or a text |
| Ratings.StartedIsConsistent | backlogg/ratings/repository.py:145-239 | the store without ratings is consistent |
| RateLimiter.InMemoryRateLimiter.Check | backlogg/core/rate_limit.py:61-76 | one check of one key, the other keys untouched |
| RateLimiter.LimiterRefinesRule | backlogg/core/rate_limit.py:50-76 | the pruned queue decides as the rule over the whole history: allowed exactly while the window holds fewer than the limit |
| RateLimiter.WindowNeverOverflows | backlogg/core/rate_limit.py:50-76 | no window, wherever it ends, holds more than the limit of allowed hits |
| RateLimiter.RetryAfterIsExact | backlogg/core/rate_limit.py:41-45 | refused only when the window is full, and told the least whole number of seconds after which a call is allowed |
| Exposition.ChainIsOnePass | backlogg/core/metrics.py:67-69 | the three chained replacements never escape each other's output |
| Exposition.QuotedRoundTrip | backlogg/core/metrics.py:67-69 | any label value is recovered from its escaped form |
| Exposition.IntRoundTrip | backlogg/core/metrics.py:80-84 | whole numbers are recovered from their text, which has a sign exactly when negative and no leading zero |
| Exposition.SampleRoundTrip | backlogg/core/metrics.py:72-77 | a sample line reads back as its name, labels and value |
| Exposition.ExpositionRoundTrip | backlogg/core/metrics.py:201-230 | the whole text reads back as exactly its samples, in order |
| Metrics.HistogramValue.Observe | backlogg/core/metrics.py:112-117 | an observation counts in every bucket whose bound it does not exceed |
| Metrics.BucketsCountObservations | backlogg/core/metrics.py:94-103 | each bucket is the number of observations at or below its bound, never decreasing, never above the total |
| Metrics.HistogramIsRecovered | backlogg/core/metrics.py:218-230 | the bucket lines read back, bound by bound, as the observations at or below it, and the last bucket and the count as all of them |
| Metrics.CountersAddUp | backlogg/core/metrics.py:172-179 | a counter is the total of the increments of its label set |
| Metrics.RegistryReadsBack | backlogg/core/metrics.py:201-230 | the rendered registry reads back as its counter and histogram samples |
| Metrics.CountsAreRecovered | backlogg/core/metrics.py:211-216 | a label set is listed with a whole number exactly when that is its count |
| Metrics.MetricsRegistry.IncCounter | backlogg/core/metrics.py:172-179 | one increment, refused for an unregistered name, is the transition below |
| Metrics.MetricsRegistry.ObserveIn | backlogg/core/metrics.py:181-190 | one observation, likewise |
| MetricsHistory.CountersOfHistory | backlogg/core/metrics.py:172-179 | after any calls a counter family holds what its own increments give |
| MetricsHistory.CountersReadBack | backlogg/core/metrics.py:172-216 | after any calls on any families, the rendered text lists a whole number for a label set of a counter if and only if it was incremented and its increments, whole or not, add up to that number |
| MetricsHistory.HistogramsReadBack | backlogg/core/metrics.py:181-230 | and for a bound of a histogram if and only if that many observations of the label set do not exceed it; on the count line all of them, on the sum line their sum |
| MetricsHistory.FamiliesAreNamed | backlogg/core/metrics.py:211-220 | each family is introduced by its own help text and its type |
| Adaptations.GetItemAdaptations | backlogg/recommendations/service.py:226-288 | fails only without the item, otherwise lists the ends below |
| Adaptations.DirectionsAreSymmetric | backlogg/recommendations/service.py:212-223 | over any edges, an item lists another as its source exactly when the other lists it as derived; it lists itself evenly if and only if it is joined to itself by both relations or by neither |
| Adaptations.SelfEdgeBreaksSymmetry | backlogg/shared/item_relations.py:147-153 | why edges to itself are excluded |
| Adaptations.ListedOnceInOrder | backlogg/recommendations/service.py:266-273 | no neighbour twice in one direction, in the order of first mention |
| Adaptations.OtherLayersNeverShow | backlogg/recommendations/service.py:235-240 | edges of other layers change nothing |

## Left out

- ChangeWalk.CoveredThroughIsSound: assumes a walkable window, which is exactly the condition under which it holds.
- CursorWalk.CycleIsComplete: assumes batches of at least one row, because smaller ones clear the cursor unread.
- Metrics.MetricsRegistry.ObserveIn: label sets arrive in their canonical order, and the registry holds histograms
  as values, not as shared objects.
- Metrics.MetricsRegistry.IncCounter: label sets arrive in their canonical order instead of being sorted here.
- EmbeddingPass.EmbeddingStore.RunEmbeddingPass: for batches of at least one item, as the command line demands
  (`scripts/generate_embeddings.py:215`), and without the storage report.
- MetricsHistory.HistogramsReadBack: for bounds that print differently, as the default ones do.
- DumpFiles.KilledAnywhereEqualsOneRun: one process at a time writes in a directory.
- The genre recommendations with their round-robin merge, and the lanes of the other incremental sources.
- Concurrent page fetches, semaphores, throttling and retries: pages are read in order, one at a time.
- The text an item is embedded from and its digest, which are parameters; a model that fails in the middle of a batch.
- The regular expressions that name a franchise, the release gate, labels, slugs and response mapping.
- Ratings.AuditExplainsFlags: no operation registers users or adds and removes items of the catalog.
- Printing of numbers that are not whole, overflow of the calendar beyond the year 9999 except where it makes a call
  fail.
- The gzip and JSON forms of the dump artifacts, which are parameters, and rejected rows of the batch writer.
- The feed's read side, likes, notifications, follows, library entries, caches and the other migrations.
- Losing one of two external ids of the same item, which the anchor pass counts separately.
