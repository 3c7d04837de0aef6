# Zartan proxy pool — a Dafny model

Zartan hands out HTTP proxies to scraping clients, one pool per target site. This project
models its core:

- **The site's pool manager** (`app/models/site.rb`). The model covers:
  - selection of the least recently used proxy, with its NotReady and NoProxy answers;
  - recording of successes and failures;
  - removal of a proxy (forget or disable);
  - draining of the short-term counters into the long-term ledger;
  - the eviction rule (age, sample size and success ratio);
  - the global and the targeted performance analyses;
  - requests for more proxies.
- **The client reservation cache** (`lib/client.rb`). A client remembers a proxy that was
  not ready yet for a site, together with the last-used timestamp the selection read for
  it before stamping it with the current time. Later requests for that site are answered
  from the reservation.
- **The ledger row** (`app/models/proxy_performance.rb`): cumulative success and failure
  counts per site/proxy pair.

Layout:

- `types.dfy` (module `Types`): the values shared by the three parts.
- `pool.dfy` (module `Pool`): the site's behaviour as pure transitions over a `State`. The
  state holds:
  - the three Redis sorted sets: last-used timestamps, successes, failures;
  - the set of proxies whose site relationship is active;
  - a log of the effects handed to collaborators: jobs enqueued, proxy-requestor runs,
    ledger writes, decommission signals.

  The system's properties are lemmas about these functions.
- `site.dfy` (module `Sites`): `class Site`, whose fields are updated in place. Each
  state-changing method is proved equal to its `Pool` transition, or, for selection, to satisfy the
  relational `Pool.Selected`. Selection is relational because the model does not fix
  the order Redis gives to entries with equal timestamps (member order); any least
  recently used entry may be the candidate.
- `client.dfy` (module `Clients`): `class Client`, with the two reservation hashes as
  maps and their keepalive fields.
- `proxy_performance.dfy` (module `Ledger`): `class ProxyPerformance` with `Increment`.

Ruby exceptions that the core lets escape are modelled as a `Status` of `Raised`:

- The removal wrapper, when the relationship is not active. The ledger action is then
  sent to nil. This happens after the three maps were cleared and before the
  decommission signal.
- A drain that did not obtain the pool lock. Its `NoPerformanceReport` has no counts, and
  `update_long_term_performance` raises on it.
- A drain of a proxy that lacks a success entry or a failure entry. Only
  `proxy_succeeded!` creates a success entry and only `proxy_failed!` a failure entry;
  removal deletes both, and only a drain writes both. A missing entry reads as nil, and
  the ledger's `increment` raises on it before saving, after the drain has set both
  counters to 0. So a proxy raises at its first drain unless it has both succeeded and
  failed since it entered the pool.

A failed drain raises out of `disable_proxy_if_bad`, and with it out of the rest of a
global sweep, which then requests no more proxies (`Pool.GlobalAnalysisStopsAtMissingCounter`).

A reservation outlives the removal of its proxy from the site: answering from it stamps
the proxy back into the site's pool, where it has no active relationship
(`Clients.StampAfterRemovalRestores`).

## Model

| member | source | states |
|---|---|---|
| `Pool.LeastRecentExists` | app/models/site.rb:47-51 | a non-empty pool always has an entry with the lowest timestamp, so the low end of the sorted set yields a candidate |
| `Pool.MostRecentExists` | app/models/site.rb:182-189 | a non-empty pool always has an entry with the highest timestamp |
| `Sites.Site.SelectProxy` | app/models/site.rb:44-77 | the new state and the answer satisfy `Selected`: an empty pool answers NoProxy and enqueues one site analysis; otherwise a least recently used entry is stamped with `now` before the decision and classified against `now - older_than` |
| `Pool.SelectOnEmptyPool` | app/models/site.rb:55-61 | on an empty pool the answer is NoProxy, no map changes, and exactly one SitePerformanceAnalyzer job is enqueued |
| `Pool.SelectStampsLeastRecent` | app/models/site.rb:47-51 | on a non-empty pool exactly one least recently used entry gets timestamp `now`, whatever the answer; no other timestamp, counter, relationship or effect changes |
| `Pool.SelectAnswer` | app/models/site.rb:53-76 | NotReady happens iff every pooled proxy is newer than the threshold, and carries the candidate, its stored timestamp and the threshold, with a positive timeout; Found names a least recently used proxy at or below the threshold that still exists; NoProxy means that candidate was gone |
| `Pool.SelectSixtySecondsAgo` | spec/models/site_spec.rb:200-220 | a proxy last used 60 s ago is NotReady with timeout 60 for `older_than = 120`, and is handed out for `older_than = 60` |
| `Pool.SelectedNotReadyIsStamped` | lib/client.rb:45-49 | after a NotReady answer the candidate already carries `now`, so the reservation's second stamp changes nothing |
| `Sites.Site.TouchProxy` | app/models/site.rb:172-178 | the proxy's timestamp becomes `now`; nothing else changes |
| `Sites.Site.EnableProxy` | app/models/site.rb:79-93 | the proxy is pooled with score 0, and the number of proxies still needed drops by one exactly when it was not pooled before |
| `Pool.EnableGrowsPool` | spec/models/site_spec.rb:38-43 | enabling stores 0 and grows the pool by one iff the proxy is new |
| `Sites.Site.ProxySucceeded` | app/models/site.rb:99-106 | the new state is the `Succeeded` transition of the old one: nothing changes for an inactive relationship, otherwise the proxy is stamped and its success count rises by one (see `Pool.SucceededEffect`) |
| `Sites.Site.ProxyFailed` | app/models/site.rb:108-119 | the new state is the `Failed` transition of the old one: nothing changes for an inactive relationship, otherwise the proxy is stamped, its failure count rises by one, and a targeted analysis is enqueued once the count reaches the threshold (see `Pool.FailedEffect`) |
| `Pool.RecordingIgnoresInactive` | app/models/site.rb:99-119 | a success or failure reported for an inactive relationship changes nothing at all |
| `Pool.SucceededEffect` | app/models/site.rb:99-106 | on an active relationship: stamp `now`, success count plus one, every other proxy and all failure counts and effects unchanged |
| `Pool.FailedEffect` | app/models/site.rb:108-119 | on an active relationship: stamp `now`, failure count plus one, other proxies unchanged, and exactly one targeted analysis enqueued iff the new count reaches the failure threshold |
| `Pool.FailedAtThreshold` | spec/models/site_spec.rb:122-149 | from 10 failures, an eleventh enqueues the targeted analysis under threshold 11 and not under threshold 12 |
| `Sites.Site.LatestProxyInfo` | app/models/site.rb:182-189 | both parts are absent iff the pool is empty; otherwise the id is a most recently used proxy and the timestamp is its score |
| `Sites.Site.ProxyRemovalWrapper` | app/models/site.rb:191-199 | the state and status equal `Remove`: clear the three maps, then apply the ledger action, then signal decommission, raising at the ledger action when the relationship is not active |
| `Sites.Site.ForgetProxy` | app/models/site.rb:201-205 | removal whose ledger action destroys the row |
| `Sites.Site.DisableProxy` | app/models/site.rb:207-211 | removal whose ledger action soft-deletes the row |
| `Pool.RemoveEffect` | app/models/site.rb:191-211 | the id leaves all three maps and the active set; every other id keeps its entries; the removal completes iff the relationship was active, and then the ledger action precedes the decommission signal; on a raise no effect is logged |
| `Sites.Site.UpdateLongTermPerformance` | app/models/site.rb:314-319 | a report's counts go to the ledger as one increment; a NoPerformanceReport raises |
| `Ledger.DrainIntoRow` | app/models/site.rb:292-319 | a completed drain grows the matching ledger row by exactly the site's former short-term counts and leaves those at 0; a raised drain leaves the row untouched |
| `Ledger.ApplyIncrement` | app/models/site.rb:314-319 | applying a site's ledger increment to the matching row adds exactly the drained counts |
| `Ledger.ProxyPerformance.Increment` | app/models/proxy_performance.rb:7-11 | both cumulative counts grow by exactly the given amounts; a (0, 0) increment leaves the row unchanged |
| `Sites.Site.GenerateProxyReport` | app/models/site.rb:292-306 | the report, state and status equal the drain transition: under the lock both counters are reset to 0, and with both entries present the former counts are returned and handed to the ledger; a missing entry, or a missing lock, raises (see `Pool.DrainEffect`, `Pool.DrainMissingCounter`, `Pool.DrainWithoutLock`) |
| `Pool.DrainEffect` | spec/models/site_spec.rb:231-249 | a drain under the lock of a proxy with both counter entries returns the former counts, leaves both counters at 0, logs one ledger increment with the same counts, and changes nothing else |
| `Pool.DrainMissingCounter` | app/models/site.rb:292-319 | a drain under the lock of a proxy missing a success or a failure entry raises: both counters become 0 and nothing reaches the ledger |
| `Pool.DrainTwice` | app/models/site.rb:296-303 | whether a first locked drain completed or raised, a second locked drain with no activity in between completes and reports (0, 0) |
| `Pool.DrainWithoutLock` | spec/models/site_spec.rb:437-449 | without the lock the report is NoPerformanceReport, no counter changes, nothing reaches the ledger, and the hand-over raises |
| `Types.Report.Total` | app/models/site.rb:18-20 | the total is at least each count, and is 0 only for a report with no success and no failure |
| `Pool.ProxyTooOldExamples` | spec/models/site_spec.rb:265-285 | a proxy stamped now is not too old; one last used a second beyond the timeout is; an untouched proxy (score 0) never is |
| `Pool.ProxyTooOld` | app/models/site.rb:245-248 | a never-used proxy (score 0) is never too old, and neither is one used within the age timeout |
| `Pool.MandatorySampleSize` | app/models/site.rb:253-256 | the mandatory size is `failure_threshold * den / (den - num)` truncated toward zero, characterised by bounds for both signs of the threshold |
| `Pool.MandatorySampleSizeIsFloor` | app/models/site.rb:254 | for a non-negative failure threshold it equals the floor of `ft / (1 - r)` over the reals |
| `Pool.LargeEnoughSample` | app/models/site.rb:253-256 | a sample passes whenever it reaches the exact `ft / (1 - r)`, and only when one more sample would exceed it; a non-positive failure threshold needs no sample |
| `Pool.LargeEnoughSampleExample` | spec/models/site_spec.rb:393-409 | with failure threshold 9 and ratio 0.25 the mandatory size is 12: 12 samples suffice, 11 do not |
| `Pool.BelowSuccessRatio` | app/models/site.rb:237-238 | a report below the ratio has at least one failure; a report of failures only is below any positive ratio |
| `Pool.BelowSuccessRatioIsRatioComparison` | app/models/site.rb:237-238 | the integer cross-multiplication test holds iff the report has a sample and `succeeded / total < r` over the reals |
| `Pool.ShouldDisable` | app/models/site.rb:237-238 | the rule never evicts a proxy without failures, and always evicts one with failures only once the sample is trusted or large enough (positive ratio) |
| `Pool.ShouldDisableExamples` | spec/models/site_spec.rb:351-391 | 10 successes of 110 are disabled with or without trusting the sample; 10 of 11 are kept either way; 1 of 7 totals 7, too small a sample for a sweep, so it is disabled only when the sample is trusted |
| `Sites.Site.DisableProxyIfBad` | app/models/site.rb:231-243 | the state and status equal `Evaluate`: a too-old proxy is forgotten; otherwise it is drained and disabled when the eviction rule says so |
| `Pool.EvaluateForgetsTooOld` | app/models/site.rb:233-234 | a too-old proxy is forgotten with no drain and no ledger increment |
| `Pool.EvaluateDecides` | app/models/site.rb:235-242 | when not too old, with both counter entries and the lock held, the drained counts are logged first, and the proxy stays active iff it was active and the rule does not evict it; an evicted proxy leaves the pool |
| `Pool.EvaluateMissingCounter` | app/models/site.rb:235-236 | when not too old and missing a counter entry, the evaluation raises at the drain: counters zeroed, nothing logged, pool and relationships unchanged |
| `Pool.EvaluateWithoutLock` | app/models/site.rb:236 | when the drain cannot take the lock, nothing changes and the evaluation raises |
| `Pool.EvaluateLocal` | app/models/site.rb:231-243 | evaluating one proxy leaves every other proxy's entries untouched and only appends effects |
| `Pool.EvaluateClearsCounters` | app/models/site.rb:231-243 | a completed evaluation leaves the proxy with no unreported successes or failures |
| `Sites.Site.NumProxies` | app/models/site.rb:85-88 | the count is 0 exactly when the pool is empty |
| `Sites.Site.NumProxiesNeeded` | app/models/site.rb:90-93 | never more than the maximum, and the full maximum exactly when the pool is empty |
| `Sites.Site.RequestMoreProxies` | app/models/site.rb:166-170 | the new state is the `RequestMore` transition: one requestor run is logged iff the pool is below the site's minimum, and nothing else changes (see `Pool.RequestMoreIff`) |
| `Pool.RequestMoreIff` | spec/models/site_spec.rb:411-428 | the requestor runs exactly when the pool is below the minimum; otherwise nothing changes |
| `Sites.Site.GlobalPerformanceAnalysis` | app/models/site.rb:136-147 | the state and status equal `GlobalAnalysis`: every active proxy is evaluated in turn, stopping at the first raise, and more proxies are requested only if the pool was used recently before the sweep |
| `Pool.SweepLocal` | app/models/site.rb:138-140 | a sweep leaves every proxy outside its order exactly as it was and only appends effects |
| `Pool.SweepClearsCounters` | app/models/site.rb:138-140 | a completed sweep over distinct proxies leaves each of them with no unreported successes or failures |
| `Pool.MostRecentDecidesRecency` | app/models/site.rb:137-143 | comparing only the newest timestamp with the age threshold decides whether any pooled proxy was used recently |
| `Pool.GlobalAnalysisNeedsRecentUse` | spec/models/site_spec.rb:311-324 | a site with an empty pool, or with no proxy used within the age timeout, gets no extra requestor run from the sweep |
| `Pool.GlobalAnalysisStopsAtMissingCounter` | app/models/site.rb:136-147 | a sweep whose first proxy is not too old but misses a counter entry raises, writes nothing to the ledger and requests no proxies |
| `Sites.Site.ProxyPerformanceAnalysis` | app/models/site.rb:156-159 | the state and status equal `TargetedAnalysis`: evaluate trusting the sample size, then request more proxies if under the minimum |
| `Pool.TargetedAnalysisTrustsSample` | app/models/site.rb:156-157 | an active, recent proxy with both counter entries and below the ratio is disabled by the targeted analysis even from a small sample, while a sweep keeps it when the sample is too small |
| `Clients.Client.IsValid` | lib/client.rb:17-19 | a client holding a reservation, or carrying both keepalive fields, is valid; a valid client without the keepalive holds a reservation |
| `Clients.Client.Create` | lib/client.rb:76-80 | a new client holds no reservation and is valid from its first keepalive |
| `Clients.Client.Touch` | lib/client.rb:21-26 | both hashes get their keepalive field, so the client is valid |
| `Clients.Client.Expire` | lib/client.rb:5-7 | once both hashes expire the client holds no reservation and is not valid |
| `Clients.Client.Delete` | lib/client.rb:28-30 | only this site's reservation leaves both hashes; a client with its keepalive stays valid |
| `Clients.Client.ReserveProxy` | lib/client.rb:32-37 | both hashes map the site to the proxy and its original timestamp, the proxy is stamped in the site's pool, and both keepalive fields are written |
| `Clients.Client.GetProxy` | lib/client.rb:39-66 | without a reservation the site's selection decides, and a NotReady candidate is reserved with its original timestamp; with one, a still-hot reservation answers NotReady and is kept, a cold one answers the proxy and is dropped, the reserved proxy is stamped in the pool, and a proxy missing from the directory raises with nothing changed, keepalive fields included; every answer refreshes the keepalive |
| `Clients.StampAfterRemovalRestores` | lib/client.rb:61 | stamping a reserved proxy that the site removed meanwhile puts it back in the pool with no counters and no active relationship |

## Left out

- Locks and concurrency are not modelled. The pool lock's mutual exclusion, its 60-second
  expiry and interleavings between requests are left out. Whether a drain obtained the lock
  is a parameter (`lockAcquired`, or the `lockFailures` set for a sweep). Every other
  locked block is taken to run.
- Time is a single `now` parameter per operation. The source reads the clock several times
  within one operation.
- `find_or_create_by` in `update_long_term_performance` may create a ledger row before
  the raise: before a nil count makes `increment` raise, and before a
  `NoPerformanceReport` (a drain that missed the lock) is asked for its counts. Row
  creation is not modelled.
- Floating point is not modelled. The success ratio threshold is the exact fraction
  `ratioNum / ratioDen` with `0 <= ratioNum < ratioDen`. The ratio test and the sample
  size use exact integer arithmetic, and lemmas tie both to the real-number formulas.
  Float rounding is not modelled, nor are thresholds of 1 or more (division by zero or
  negative sizes).
- Redis orders entries with equal timestamps by member; the model does not fix that
  order and lets selection take any least recently used entry. The order of active relationships in a sweep is a parameter.
- `add_proxies`, `restore_or_create_performances`, `active_performance?` (taken as
  membership in the active set), `destroy_redis_objects` and the memoised configuration
  readers are not part of this model. The configuration is a `Config` value.
- The job queue, the proxy requestor, the proxy directory (`Proxy.find`), the
  decommission signal and the ledger rows are collaborators. Their calls are events in the
  site's log, and the directory is a set of existing proxy ids.
- `Proxy::NotReady` and `Proxy::NoProxy` come from the proxy model, which is not part of
  this model. The timeout of NotReady is taken as the stored timestamp minus the threshold.
- The global analyzer job that runs one thread per site is not modelled. Neither are
  logging, `save`, the client UUID generation, `to_h`, or `Client.new`, `Client[]` and
  `Client.find` (handles onto existing hashes).
- `Clients.Client.Expire`: the time-to-live of the hashes is an explicit step, not a clock.
- `Ledger.ProxyPerformance.Increment`: `save` is not modelled; the row's counts are updated
  in memory only.
