/** The pool manager of one site as pure state transitions.

    A site keeps three score maps keyed by proxy id: the last-used timestamp of each
    pooled proxy (0 means "never used"), and two short-term counters of successes and
    failures since the last drain. Beside them, the model keeps the set of proxies whose
    site/proxy relationship is active in the ledger, and the log of effects handed to
    collaborators (jobs, the proxy requestor, ledger writes, decommission signals).

    The methods of `Sites.Site` are proved against the functions of this module; the
    properties the system promises are lemmas about these functions. */
module Pool {
  import opened Types

  datatype State = State(
    pool: map<ProxyId, int>,
    successes: map<ProxyId, nat>,
    failures: map<ProxyId, nat>,
    active: set<ProxyId>,
    log: seq<Event>)

  /** The score of a counter member; a member with no entry reads as 0. */
  function Count(m: map<ProxyId, nat>, p: ProxyId): nat {
    if p in m then m[p] else 0
  }

  /** `proxy_pool[id].to_i`: an absent member reads as 0, i.e. "never used". */
  function LastUsed(pool: map<ProxyId, int>, p: ProxyId): int {
    if p in pool then pool[p] else 0
  }

  /** Everything the site stores about one proxy id. */
  datatype Entry = Entry(lastUsed: Option<int>, succeeded: Option<nat>, failed: Option<nat>, isActive: bool)

  function EntryOf(s: State, k: ProxyId): Entry {
    Entry(
      if k in s.pool then Some(s.pool[k]) else None,
      if k in s.successes then Some(s.successes[k]) else None,
      if k in s.failures then Some(s.failures[k]) else None,
      k in s.active)
  }

  // ---------------------------------------------------------------------------
  // Least and most recently used entries
  // ---------------------------------------------------------------------------

  /** `p` sits at the low end of the pool (lowest timestamp). */
  predicate IsLeastRecent(pool: map<ProxyId, int>, p: ProxyId) {
    p in pool && forall k :: k in pool ==> pool[p] <= pool[k]
  }

  /** `p` sits at the high end of the pool (highest timestamp). */
  predicate IsMostRecent(pool: map<ProxyId, int>, p: ProxyId) {
    p in pool && forall k :: k in pool ==> pool[k] <= pool[p]
  }

  /** Removing one key from a map shrinks it by one. */
  lemma RemoveOneShrinks(pool: map<ProxyId, int>, k: ProxyId)
    requires k in pool
    ensures |pool - {k}| == |pool| - 1
  {
    assert (pool - {k}).Keys == pool.Keys - {k};
  }

  /** A non-empty pool has a least recently used entry. */
  lemma {:induction false} LeastRecentExists(pool: map<ProxyId, int>)
    requires pool != map[]
    ensures exists p :: IsLeastRecent(pool, p)
    decreases |pool|
  {
    assert (forall j :: j !in pool) ==> pool == map[];
    var k :| k in pool;
    var rest := pool - {k};
    assert forall j :: j in pool && j != k ==> j in rest;
    if rest == map[] {
      assert IsLeastRecent(pool, k);
    } else {
      RemoveOneShrinks(pool, k);
      LeastRecentExists(rest);
      var q :| IsLeastRecent(rest, q);
      var c := if pool[k] <= pool[q] then k else q;
      forall j | j in pool ensures pool[c] <= pool[j] {
        if j != k { assert j in rest && rest[j] == pool[j]; }
      }
      assert IsLeastRecent(pool, c);
    }
  }

  /** A non-empty pool has a most recently used entry. */
  lemma {:induction false} MostRecentExists(pool: map<ProxyId, int>)
    requires pool != map[]
    ensures exists p :: IsMostRecent(pool, p)
    decreases |pool|
  {
    assert (forall j :: j !in pool) ==> pool == map[];
    var k :| k in pool;
    var rest := pool - {k};
    assert forall j :: j in pool && j != k ==> j in rest;
    if rest == map[] {
      assert IsMostRecent(pool, k);
    } else {
      RemoveOneShrinks(pool, k);
      MostRecentExists(rest);
      var q :| IsMostRecent(rest, q);
      var c := if pool[q] <= pool[k] then k else q;
      forall j | j in pool ensures pool[j] <= pool[c] {
        if j != k { assert j in rest && rest[j] == pool[j]; }
      }
      assert IsMostRecent(pool, c);
    }
  }

  // ---------------------------------------------------------------------------
  // Selection
  // ---------------------------------------------------------------------------

  /** `touch_proxy`: stamp the proxy with the current time. */
  function Touch(s: State, p: ProxyId, now: int): State {
    s.(pool := s.pool[p := now])
  }

  /** The decision taken outside the lock, given the candidate `p` read with timestamp
      `ts`: too recently used, usable, or gone from the proxy directory. */
  function Classify(ts: int, p: ProxyId, threshold: int, directory: set<ProxyId>): SelectResult {
    if ts > threshold then NotReady(ts, threshold, p)
    else if p in directory then Found(p)
    else NoProxy
  }

  /** `select_proxy(older_than)` takes state `s` to state `t` answering `r`: on an empty
      pool it answers NoProxy and enqueues one analysis of the site; otherwise it reads a
      least recently used entry, stamps it with `now` before deciding, and classifies it
      against `now - olderThan`. Redis breaks ties between equal timestamps by member
      order; the model does not fix that order and lets any least recently used entry be
      the candidate. */
  ghost predicate Selected(s: State, t: State, r: SelectResult, site: SiteId,
                           olderThan: int, now: int, directory: set<ProxyId>)
  {
    if s.pool == map[] then
      r == NoProxy && t == s.(log := s.log + [SitePerformanceAnalyzerJob(site)])
    else
      exists p :: IsLeastRecent(s.pool, p) && t == Touch(s, p, now)
        && r == Classify(s.pool[p], p, now - olderThan, directory)
  }

  /** On an empty pool the selection answers NoProxy, leaves every map alone and
      enqueues exactly one analysis job for the site. */
  lemma SelectOnEmptyPool(s: State, t: State, r: SelectResult, site: SiteId,
                          olderThan: int, now: int, directory: set<ProxyId>)
    requires s.pool == map[]
    requires Selected(s, t, r, site, olderThan, now, directory)
    ensures r == NoProxy
    ensures t.pool == s.pool && t.successes == s.successes && t.failures == s.failures
    ensures t.active == s.active
    ensures t.log == s.log + [SitePerformanceAnalyzerJob(site)]
  {
  }

  /** On a non-empty pool the selection stamps one least recently used entry with `now`,
      whatever it answers, and changes nothing else: no other timestamp, no counter, no
      relationship and no effect. */
  lemma SelectStampsLeastRecent(s: State, t: State, r: SelectResult, site: SiteId,
                                olderThan: int, now: int, directory: set<ProxyId>)
    requires s.pool != map[]
    requires Selected(s, t, r, site, olderThan, now, directory)
    ensures t.pool.Keys == s.pool.Keys
    ensures exists c :: (IsLeastRecent(s.pool, c) && t.pool[c] == now
      && forall k :: k in s.pool && k != c ==> t.pool[k] == s.pool[k])
    ensures t.successes == s.successes && t.failures == s.failures
    ensures t.active == s.active && t.log == s.log
  {
    var c :| IsLeastRecent(s.pool, c) && t == Touch(s, c, now)
      && r == Classify(s.pool[c], c, now - olderThan, directory);
    assert t.pool.Keys == s.pool.Keys + {c};
    assert IsLeastRecent(s.pool, c) && t.pool[c] == now;
  }

  /** What each answer means on a non-empty pool, with `threshold = now - olderThan`:
      NotReady carries a least recently used proxy, its stored timestamp and the
      threshold, and happens exactly when every pooled proxy is newer than the threshold;
      Found names a least recently used proxy at or below the threshold that the
      directory still knows; NoProxy means that proxy was gone from the directory. */
  lemma SelectAnswer(s: State, t: State, r: SelectResult, site: SiteId,
                     olderThan: int, now: int, directory: set<ProxyId>)
    requires s.pool != map[]
    requires Selected(s, t, r, site, olderThan, now, directory)
    ensures r.NotReady? <==> forall k :: k in s.pool ==> s.pool[k] > now - olderThan
    ensures r.NotReady? ==> (IsLeastRecent(s.pool, r.proxyId) && r.proxyTs == s.pool[r.proxyId]
      && r.thresholdTs == now - olderThan && r.Timeout() > 0)
    ensures r.Found? ==> (IsLeastRecent(s.pool, r.proxy) && s.pool[r.proxy] <= now - olderThan
      && r.proxy in directory)
    ensures r.NoProxy? ==> exists c :: (IsLeastRecent(s.pool, c) && s.pool[c] <= now - olderThan
      && c !in directory)
  {
    var c :| IsLeastRecent(s.pool, c) && t == Touch(s, c, now)
      && r == Classify(s.pool[c], c, now - olderThan, directory);
    if r.NotReady? {
      forall k | k in s.pool ensures s.pool[k] > now - olderThan {
        assert s.pool[c] <= s.pool[k];
      }
    } else {
      assert s.pool[c] <= now - olderThan;
    }
  }

  /** A proxy last used 60 seconds ago is not ready when asking for proxies unused for
      120 seconds (60 seconds to wait), and is handed out when asking for 60 seconds. */
  lemma SelectSixtySecondsAgo(s: State, t1: State, r1: SelectResult, t2: State, r2: SelectResult,
                              site: SiteId, a: ProxyId, now: int, directory: set<ProxyId>)
    requires s.pool == map[a := now - 60] && a in directory
    requires Selected(s, t1, r1, site, 120, now, directory)
    requires Selected(s, t2, r2, site, 60, now, directory)
    ensures r1 == NotReady(now - 60, now - 120, a) && r1.Timeout() == 60
    ensures r2 == Found(a)
  {
    assert a in s.pool;
    var c1 :| IsLeastRecent(s.pool, c1) && t1 == Touch(s, c1, now)
      && r1 == Classify(s.pool[c1], c1, now - 120, directory);
    var c2 :| IsLeastRecent(s.pool, c2) && t2 == Touch(s, c2, now)
      && r2 == Classify(s.pool[c2], c2, now - 60, directory);
    assert c1 == a && c2 == a;
  }

  /** After a NotReady answer the candidate is stamped with `now`, so stamping it again
      at the same time changes nothing. */
  lemma SelectedNotReadyIsStamped(s: State, t: State, r: SelectResult, site: SiteId,
                                  olderThan: int, now: int, directory: set<ProxyId>)
    requires Selected(s, t, r, site, olderThan, now, directory)
    requires r.NotReady?
    ensures r.proxyId in t.pool && t.pool[r.proxyId] == now
    ensures Touch(t, r.proxyId, now) == t
  {
    var c :| IsLeastRecent(s.pool, c) && t == Touch(s, c, now)
      && r == Classify(s.pool[c], c, now - olderThan, directory);
    assert t.pool[c := now] == t.pool;
  }

  // ---------------------------------------------------------------------------
  // Enabling and recording
  // ---------------------------------------------------------------------------

  /** `enable_proxy`: put the proxy in the pool as never used. */
  function Enable(s: State, p: ProxyId): State {
    s.(pool := s.pool[p := 0])
  }

  /** Setting one key's score grows the pool by one exactly when the key is new. */
  lemma UpdateGrows(pool: map<ProxyId, int>, p: ProxyId, v: int)
    ensures |pool[p := v]| == if p in pool then |pool| else |pool| + 1
  {
    if p in pool {
      assert pool[p := v].Keys == pool.Keys;
    } else {
      assert pool[p := v].Keys == pool.Keys + {p};
    }
  }

  /** Enabling stores score 0 and grows the pool by one exactly when the proxy is new. */
  lemma EnableGrowsPool(s: State, p: ProxyId)
    ensures p in Enable(s, p).pool && Enable(s, p).pool[p] == 0
    ensures |Enable(s, p).pool| == if p in s.pool then |s.pool| else |s.pool| + 1
  {
    UpdateGrows(s.pool, p, 0);
  }

  /** `proxy_succeeded!`: ignored for an inactive relationship, otherwise touch the
      proxy and count one success. */
  function Succeeded(s: State, p: ProxyId, now: int): State {
    if p !in s.active then s
    else Touch(s, p, now).(successes := s.successes[p := Count(s.successes, p) + 1])
  }

  /** `proxy_failed!`: ignored for an inactive relationship, otherwise touch the proxy,
      count one failure, and enqueue a targeted analysis once the new count reaches the
      failure threshold. */
  function Failed(s: State, site: SiteId, p: ProxyId, now: int, cfg: Config): State {
    if p !in s.active then s
    else
      var n := Count(s.failures, p) + 1;
      var t := Touch(s, p, now).(failures := s.failures[p := n]);
      if n >= cfg.failureThreshold then t.(log := t.log + [TargetedPerformanceAnalyzerJob(site, p)])
      else t
  }

  /** A report about an inactive relationship changes nothing at all. */
  lemma RecordingIgnoresInactive(s: State, site: SiteId, p: ProxyId, now: int, cfg: Config)
    requires p !in s.active
    ensures Succeeded(s, p, now) == s
    ensures Failed(s, site, p, now, cfg) == s
  {
  }

  /** A success on an active relationship stamps the proxy with `now`, raises its success
      count by one and changes no other proxy, no failure count and no effect. */
  lemma SucceededEffect(s: State, p: ProxyId, now: int)
    requires p in s.active
    ensures var t := Succeeded(s, p, now);
      t.pool[p] == now && Count(t.successes, p) == Count(s.successes, p) + 1
      && t.failures == s.failures && t.active == s.active && t.log == s.log
      && forall k :: k != p ==> EntryOf(t, k) == EntryOf(s, k)
  {
  }

  /** A failure on an active relationship stamps the proxy with `now`, raises its failure
      count by one, changes no other proxy and no success count, and enqueues exactly one
      targeted analysis for (site, proxy) iff the raised count reaches the threshold. */
  lemma FailedEffect(s: State, site: SiteId, p: ProxyId, now: int, cfg: Config)
    requires p in s.active
    ensures var t := Failed(s, site, p, now, cfg);
      t.pool[p] == now && Count(t.failures, p) == Count(s.failures, p) + 1
      && t.successes == s.successes && t.active == s.active
      && (forall k :: k != p ==> EntryOf(t, k) == EntryOf(s, k))
      && (Count(t.failures, p) >= cfg.failureThreshold ==>
            t.log == s.log + [TargetedPerformanceAnalyzerJob(site, p)])
      && (Count(t.failures, p) < cfg.failureThreshold ==> t.log == s.log)
  {
  }

  /** Ten failures and one more: a threshold of 11 enqueues the targeted analysis, a
      threshold of 12 does not. */
  lemma FailedAtThreshold(s: State, site: SiteId, p: ProxyId, now: int, cfg: Config)
    requires p in s.active && Count(s.failures, p) == 10
    ensures cfg.failureThreshold == 11 ==>
      Failed(s, site, p, now, cfg).log == s.log + [TargetedPerformanceAnalyzerJob(site, p)]
    ensures cfg.failureThreshold == 12 ==> Failed(s, site, p, now, cfg).log == s.log
  {
  }

  // ---------------------------------------------------------------------------
  // Removal
  // ---------------------------------------------------------------------------

  function LedgerEvent(site: SiteId, p: ProxyId, action: LedgerAction): Event {
    match action
    case Destroy => LedgerDestroy(site, p)
    case SoftDelete => LedgerSoftDelete(site, p)
  }

  /** `proxy_removal_wrapper`: delete the id from all three maps under the lock, then run
      the ledger action on the active relationship, then signal decommission. With no
      active relationship the ledger action raises (it is sent to nil), after the maps
      were cleared and before the decommission signal. */
  function Remove(s: State, site: SiteId, p: ProxyId, action: LedgerAction): (State, Status) {
    var cleared := s.(pool := s.pool - {p}, successes := s.successes - {p}, failures := s.failures - {p});
    if p !in s.active then (cleared, Raised)
    else
      (cleared.(active := s.active - {p},
                log := s.log + [LedgerEvent(site, p, action), QueueDecommission(p)]),
       Completed)
  }

  /** Removal is all-or-nothing: the id leaves all three maps; every other id keeps its
      entries; the ledger action precedes the decommission signal. */
  lemma RemoveEffect(s: State, site: SiteId, p: ProxyId, action: LedgerAction)
    ensures var (t, st) := Remove(s, site, p, action);
      p !in t.pool && p !in t.successes && p !in t.failures && p !in t.active
      && (forall k :: k != p ==> EntryOf(t, k) == EntryOf(s, k))
      && (st == Completed <==> p in s.active)
      && (st == Completed ==> t.log == s.log + [LedgerEvent(site, p, action), QueueDecommission(p)])
      && (st == Raised ==> t.log == s.log)
  {
  }

  // ---------------------------------------------------------------------------
  // Draining counters
  // ---------------------------------------------------------------------------

  /** `update_long_term_performance`: hand the report's two counts to the ledger
      unchanged. A `NoPerformanceReport` has no counts, and asking it for them raises. */
  function UpdateLongTermPerformance(s: State, site: SiteId, p: ProxyId, report: Report): (State, Status) {
    match report
    case PerformanceReport(ok, failed) => (s.(log := s.log + [LedgerIncrement(site, p, ok, failed)]), Completed)
    case NoPerformanceReport => (s, Raised)
  }

  /** The counts the drain reads, for a proxy that has an entry in both counters. */
  function CurrentReport(s: State, p: ProxyId): Report {
    PerformanceReport(Count(s.successes, p), Count(s.failures, p))
  }

  /** Both counters hold an entry for the proxy. Only `proxy_succeeded!` creates a success
      entry and only `proxy_failed!` a failure entry; a drain writes both, and removal
      deletes both. */
  predicate HasCounters(s: State, p: ProxyId) {
    p in s.successes && p in s.failures
  }

  /** `generate_proxy_report`: under the lock read both counters and set them to 0, then
      update the ledger. A missing entry reads as nil, and the ledger increment raises
      on it before anything is saved; the counters are zeroed all the same. Without the
      lock the report is `NoPerformanceReport`. On a raise no report is returned, and the
      model answers `NoPerformanceReport`. */
  function GenerateProxyReport(s: State, site: SiteId, p: ProxyId, lockAcquired: bool): (Report, State, Status) {
    if lockAcquired then
      var drained := s.(successes := s.successes[p := 0], failures := s.failures[p := 0]);
      if HasCounters(s, p) then
        var report := CurrentReport(s, p);
        var (t, st) := UpdateLongTermPerformance(drained, site, p, report);
        (report, t, st)
      else
        (NoPerformanceReport, drained, Raised)
    else
      var (t, st) := UpdateLongTermPerformance(s, site, p, NoPerformanceReport);
      (NoPerformanceReport, t, st)
  }

  /** A drain of a proxy with both counter entries returns the former counts, leaves both
      counters at 0, records one ledger increment with the same counts, and touches
      nothing else. */
  lemma DrainEffect(s: State, site: SiteId, p: ProxyId)
    requires HasCounters(s, p)
    ensures var (report, t, st) := GenerateProxyReport(s, site, p, true);
      report == PerformanceReport(s.successes[p], s.failures[p])
      && st == Completed
      && Count(t.successes, p) == 0 && Count(t.failures, p) == 0
      && t.pool == s.pool && t.active == s.active
      && t.log == s.log + [LedgerIncrement(site, p, report.timesSucceeded, report.timesFailed)]
      && forall k :: k != p ==> EntryOf(t, k) == EntryOf(s, k)
  {
  }

  /** A drain of a proxy missing a success or a failure entry raises: both counters are
      set to 0 and nothing reaches the ledger. */
  lemma DrainMissingCounter(s: State, site: SiteId, p: ProxyId)
    requires !HasCounters(s, p)
    ensures var (report, t, st) := GenerateProxyReport(s, site, p, true);
      st == Raised && report == NoPerformanceReport
      && HasCounters(t, p) && t.successes[p] == 0 && t.failures[p] == 0
      && t.pool == s.pool && t.active == s.active && t.log == s.log
      && forall k :: k != p ==> EntryOf(t, k) == EntryOf(s, k)
  {
  }

  /** Whether a first locked drain completed or raised, a second locked drain with no
      activity in between completes and reports (0, 0). */
  lemma DrainTwice(s: State, site: SiteId, p: ProxyId)
    ensures var (_, t, _) := GenerateProxyReport(s, site, p, true);
      GenerateProxyReport(t, site, p, true).0 == PerformanceReport(0, 0)
      && GenerateProxyReport(t, site, p, true).2 == Completed
  {
  }

  /** A drain that does not obtain the lock reports `NoPerformanceReport`, changes no
      counter and writes nothing to the ledger; handing that report on raises. */
  lemma DrainWithoutLock(s: State, site: SiteId, p: ProxyId)
    ensures GenerateProxyReport(s, site, p, false) == (NoPerformanceReport, s, Raised)
  {
  }

  // ---------------------------------------------------------------------------
  // The eviction decision
  // ---------------------------------------------------------------------------

  /** `proxy_too_old?`: touched at least once, and not within the age timeout. */
  function ProxyTooOld(ts: int, now: int, cfg: Config): (tooOld: bool)
    ensures ts == 0 ==> !tooOld
    ensures ts >= now - cfg.proxyAgeTimeout ==> !tooOld
  {
    ts < now - cfg.proxyAgeTimeout && ts != 0
  }

  /** A proxy stamped now is not too old for a non-negative timeout; a proxy last used one
      second beyond the timeout is; a never-used proxy never is. */
  lemma ProxyTooOldExamples(now: int, cfg: Config)
    requires cfg.proxyAgeTimeout >= 0 && now - cfg.proxyAgeTimeout - 1 != 0
    ensures !ProxyTooOld(now, now, cfg)
    ensures ProxyTooOld(now - cfg.proxyAgeTimeout - 1, now, cfg)
    ensures !ProxyTooOld(0, now, cfg)
  {
  }

  /** `large_enough_sample?`'s mandatory size `(ft / (1.0 - r)).to_i`, computed exactly as
      the truncation toward zero of ft * den / (den - num). */
  function MandatorySampleSize(cfg: Config): (m: int)
    requires cfg.Valid()
    ensures cfg.failureThreshold >= 0 ==>
      m >= 0 && m * (cfg.ratioDen - cfg.ratioNum) <= cfg.failureThreshold * cfg.ratioDen
      && cfg.failureThreshold * cfg.ratioDen < (m + 1) * (cfg.ratioDen - cfg.ratioNum)
    ensures cfg.failureThreshold < 0 ==>
      m <= 0 && (m - 1) * (cfg.ratioDen - cfg.ratioNum) < cfg.failureThreshold * cfg.ratioDen
      && cfg.failureThreshold * cfg.ratioDen <= m * (cfg.ratioDen - cfg.ratioNum)
  {
    var n := cfg.failureThreshold * cfg.ratioDen;
    var d := cfg.ratioDen - cfg.ratioNum;
    if cfg.failureThreshold >= 0 then
      assert n >= 0;
      QuotientBounds(n, d);
      n / d
    else
      assert n < 0;
      var q := (-n) / d;
      QuotientBounds(-n, d);
      assert (-q - 1) * d == -(q * d) - d && (-q) * d == -(q * d);
      -q
  }

  /** Division of a non-negative numerator by a positive denominator, rounded down,
      brackets the exact quotient. */
  lemma QuotientBounds(n: int, d: int)
    requires n >= 0 && d > 0
    ensures n / d >= 0 && (n / d) * d <= n < (n / d + 1) * d
  {
    var q, r := n / d, n % d;
    assert n == q * d + r && 0 <= r < d;
    assert (q + 1) * d == q * d + d;
  }

  /** Over the reals, a * c <= b iff a <= b / c, and b < a * c iff b / c < a, for c > 0. */
  lemma DivideBoth(a: real, b: real, c: real)
    requires c > 0.0
    ensures a * c <= b <==> a <= b / c
    ensures b < a * c <==> b / c < a
  {
    assert b / c * c == b;
  }

  /** ft / (1 - p/q) is ft * q / (q - p) for 0 <= p < q. */
  lemma DivideByComplement(ft: real, p: real, q: real)
    requires 0.0 <= p < q
    ensures ft / (1.0 - p / q) == ft * q / (q - p)
  {
    var u := p / q;
    assert u * q == p;
    var v := 1.0 - u;
    assert v * q == q - p;
    var w := ft * q / (q - p);
    assert w * (q - p) == ft * q;
    assert w * v == ft by {
      assert w * v * q == w * (q - p);
      assert (w * v - ft) * q == 0.0;
    }
    assert ft / v * v == ft;
    assert (ft / v - w) * v == 0.0;
  }

  /** For a non-negative failure threshold the mandatory size is the floor of
      ft / (1 - r) computed over the reals. */
  lemma MandatorySampleSizeIsFloor(cfg: Config)
    requires cfg.Valid() && cfg.failureThreshold >= 0
    ensures MandatorySampleSize(cfg)
      == ((cfg.failureThreshold as real) / (1.0 - (cfg.ratioNum as real) / (cfg.ratioDen as real))).Floor
  {
    var d := cfg.ratioDen - cfg.ratioNum;
    var n := cfg.failureThreshold * cfg.ratioDen;
    var ft, p, q := cfg.failureThreshold as real, cfg.ratioNum as real, cfg.ratioDen as real;
    DivideByComplement(ft, p, q);
    assert ft * q == n as real;
    assert q - p == d as real;
    QuotientFloor(n, d, MandatorySampleSize(cfg));
  }

  /** An integer quotient bracketed by m * d <= n < (m + 1) * d is the floor of the real
      quotient n / d. */
  lemma QuotientFloor(n: int, d: int, m: int)
    requires d > 0 && m * d <= n < (m + 1) * d
    ensures ((n as real) / (d as real)).Floor == m
  {
    var x := (n as real) / (d as real);
    assert (m as real) * (d as real) <= n as real by {
      assert (m * d) as real == (m as real) * (d as real);
    }
    assert (n as real) < ((m + 1) as real) * (d as real) by {
      assert ((m + 1) * d) as real == ((m + 1) as real) * (d as real);
    }
    DivideBoth(m as real, n as real, d as real);
    DivideBoth((m + 1) as real, n as real, d as real);
    FloorBetween(x, m);
  }

  /** A real lying in [m, m + 1) has floor m. */
  lemma FloorBetween(x: real, m: int)
    requires m as real <= x < m as real + 1.0
    ensures x.Floor == m
  {
  }

  /** `large_enough_sample?`: the report holds at least the mandatory number of samples.
      With d = den - num, a sample of n passes when n * d reaches ft * den (n is at least
      the exact ft / (1 - r)), and passes only when (n + 1) * d exceeds it; a
      non-positive failure threshold asks for no sample at all. */
  function LargeEnoughSample(report: Report, cfg: Config): (enough: bool)
    requires cfg.Valid() && report.PerformanceReport?
    ensures report.Total() * (cfg.ratioDen - cfg.ratioNum) >= cfg.failureThreshold * cfg.ratioDen ==> enough
    ensures enough ==> (report.Total() + 1) * (cfg.ratioDen - cfg.ratioNum) > cfg.failureThreshold * cfg.ratioDen
    ensures cfg.failureThreshold <= 0 ==> enough
  {
    var m, big := MandatorySampleSize(cfg), cfg.failureThreshold * cfg.ratioDen;
    assert (cfg.failureThreshold >= 0 ==> big >= 0) && (cfg.failureThreshold < 0 ==> big < 0) by {
      if cfg.failureThreshold >= 0 {
        MultiplyMonotone(0, cfg.failureThreshold, cfg.ratioDen);
      } else {
        MultiplyMonotone(cfg.failureThreshold, -1, cfg.ratioDen);
      }
    }
    SampleGate(report.Total(), m, cfg.ratioDen - cfg.ratioNum, big);
    report.Total() >= m
  }

  /** The sample-size gate against the exact mandatory size big / d: an integer m that is
      its floor (big >= 0) or its ceiling (big < 0, then m <= 0) admits exactly the
      sizes n >= m. */
  lemma SampleGate(n: nat, m: int, d: int, big: int)
    requires d > 0
    requires (big >= 0 && m >= 0 && m * d <= big < (m + 1) * d) || (big < 0 && m <= 0 && big <= m * d)
    ensures n * d >= big ==> n >= m
    ensures n >= m ==> (n + 1) * d > big
    ensures big <= 0 ==> n >= m
  {
    assert (n + 1) * d == n * d + d && (m + 1) * d == m * d + d;
    if n < m {
      MultiplyMonotone(n + 1, m, d);
    } else {
      MultiplyMonotone(m, n, d);
    }
    if big <= 0 && m > 0 {
      MultiplyMonotone(1, m, d);
    }
  }

  /** Multiplying by a positive factor keeps the order. */
  lemma MultiplyMonotone(a: int, b: int, d: int)
    requires a <= b && d > 0
    ensures a * d <= b * d
  {
    assert b * d - a * d == (b - a) * d;
  }

  /** With a failure threshold of 9 and a ratio threshold of 0.25 the sample needs 12
      entries: 12 is enough, 11 is not. */
  lemma LargeEnoughSampleExample(cfg: Config)
    requires cfg.failureThreshold == 9 && cfg.ratioNum == 1 && cfg.ratioDen == 4
    ensures MandatorySampleSize(cfg) == 12
    ensures LargeEnoughSample(PerformanceReport(6, 6), cfg)
    ensures !LargeEnoughSample(PerformanceReport(6, 5), cfg)
  {
  }

  /** The ratio test `times_succeeded.to_f / total < r`, by cross multiplication. With no
      samples the quotient is NaN and the comparison is false. */
  function BelowSuccessRatio(report: Report, cfg: Config): (below: bool)
    requires cfg.Valid() && report.PerformanceReport?
    ensures below ==> report.timesFailed > 0
    ensures report.timesSucceeded == 0 && report.timesFailed > 0 && cfg.ratioNum > 0 ==> below
  {
    assert report.timesFailed == 0 && report.Total() > 0 ==>
      report.timesSucceeded * cfg.ratioDen >= cfg.ratioNum * report.Total() by {
      if report.timesFailed == 0 && report.Total() > 0 {
        MultiplyMonotone(cfg.ratioNum, cfg.ratioDen, report.timesSucceeded);
      }
    }
    report.Total() > 0 && report.timesSucceeded * cfg.ratioDen < cfg.ratioNum * report.Total()
  }

  /** The cross multiplication is the comparison of the success ratio with the threshold
      over the reals, for every report with at least one sample. */
  lemma BelowSuccessRatioIsRatioComparison(report: Report, cfg: Config)
    requires cfg.Valid() && report.PerformanceReport?
    ensures BelowSuccessRatio(report, cfg) <==>
      report.Total() > 0
      && (report.timesSucceeded as real) / (report.Total() as real) < (cfg.ratioNum as real) / (cfg.ratioDen as real)
  {
    if report.Total() > 0 {
      var s, t := report.timesSucceeded as real, report.Total() as real;
      var p, q := cfg.ratioNum as real, cfg.ratioDen as real;
      CrossMultiply(s, t, p, q);
      assert (report.timesSucceeded * cfg.ratioDen) as real == s * q;
      assert (cfg.ratioNum * report.Total()) as real == p * t;
    }
  }

  /** Comparing two quotients with positive denominators by cross multiplication. */
  lemma CrossMultiply(a: real, b: real, c: real, d: real)
    requires b > 0.0 && d > 0.0
    ensures a / b < c / d <==> a * d < c * b
  {
    var x, y := a / b, c / d;
    assert a == x * b && c == y * d;
    assert a * d == x * (b * d) && c * b == y * (b * d);
    assert b * d > 0.0;
  }

  /** The eviction rule once a report is in hand: the sample is trusted (by the caller or
      by its size) and its success ratio is below the threshold. */
  function ShouldDisable(report: Report, trustSampleSize: bool, cfg: Config): (evict: bool)
    requires cfg.Valid() && report.PerformanceReport?
    ensures evict ==> report.timesFailed > 0
    ensures (cfg.ratioNum > 0 && report.timesSucceeded == 0 && report.timesFailed > 0
             && (trustSampleSize || report.timesFailed >= MandatorySampleSize(cfg))) ==> evict
  {
    (trustSampleSize || LargeEnoughSample(report, cfg)) && BelowSuccessRatio(report, cfg)
  }

  /** With a failure threshold of 9 and a ratio threshold of 0.25: 10 successes in 110
      samples are both enough samples and below the ratio, so the proxy goes whether or
      not its sample size is trusted; 10 successes in 11 samples are above the ratio, so
      the proxy stays either way. */
  lemma ShouldDisableExamples(cfg: Config)
    requires cfg.failureThreshold == 9 && cfg.ratioNum == 1 && cfg.ratioDen == 4
    ensures ShouldDisable(PerformanceReport(10, 100), false, cfg)
    ensures ShouldDisable(PerformanceReport(10, 100), true, cfg)
    ensures !ShouldDisable(PerformanceReport(10, 1), false, cfg)
    ensures !ShouldDisable(PerformanceReport(10, 1), true, cfg)
    ensures PerformanceReport(1, 6).Total() == 7 && !LargeEnoughSample(PerformanceReport(1, 6), cfg)
    ensures !ShouldDisable(PerformanceReport(1, 6), false, cfg) && ShouldDisable(PerformanceReport(1, 6), true, cfg)
  {
    LargeEnoughSampleExample(cfg);
  }

  /** `disable_proxy_if_bad`: forget a too-old proxy without draining it; otherwise drain
      it, and disable it when the eviction rule says so. */
  function Evaluate(s: State, site: SiteId, p: ProxyId, now: int, cfg: Config,
                    trustSampleSize: bool, lockAcquired: bool): (State, Status)
    requires cfg.Valid()
  {
    if ProxyTooOld(LastUsed(s.pool, p), now, cfg) then Remove(s, site, p, Destroy)
    else
      var (report, drained, st) := GenerateProxyReport(s, site, p, lockAcquired);
      if st == Raised then (drained, Raised)
      else if ShouldDisable(report, trustSampleSize, cfg) then Remove(drained, site, p, SoftDelete)
      else (drained, Completed)
  }

  /** Past the age test, the evaluation is the drain followed by the eviction rule. */
  lemma EvaluateAfterDrain(s: State, site: SiteId, p: ProxyId, now: int, cfg: Config,
                           trustSampleSize: bool, lockAcquired: bool)
    requires cfg.Valid() && !ProxyTooOld(LastUsed(s.pool, p), now, cfg)
    ensures GenerateProxyReport(s, site, p, lockAcquired).2 == Raised ==>
      Evaluate(s, site, p, now, cfg, trustSampleSize, lockAcquired)
        == (GenerateProxyReport(s, site, p, lockAcquired).1, Raised)
    ensures GenerateProxyReport(s, site, p, lockAcquired).2 == Completed ==>
      GenerateProxyReport(s, site, p, lockAcquired).0.PerformanceReport?
      && Evaluate(s, site, p, now, cfg, trustSampleSize, lockAcquired)
        == if ShouldDisable(GenerateProxyReport(s, site, p, lockAcquired).0, trustSampleSize, cfg)
           then Remove(GenerateProxyReport(s, site, p, lockAcquired).1, site, p, SoftDelete)
           else (GenerateProxyReport(s, site, p, lockAcquired).1, Completed)
  {
  }

  /** A too-old proxy is forgotten (its row destroyed) with no drain and no ledger
      increment. */
  lemma EvaluateForgetsTooOld(s: State, site: SiteId, p: ProxyId, now: int, cfg: Config,
                              trustSampleSize: bool, lockAcquired: bool)
    requires cfg.Valid() && ProxyTooOld(LastUsed(s.pool, p), now, cfg)
    ensures Evaluate(s, site, p, now, cfg, trustSampleSize, lockAcquired) == Remove(s, site, p, Destroy)
    ensures forall e :: (e in Evaluate(s, site, p, now, cfg, trustSampleSize, lockAcquired).0.log[|s.log|..]
      ==> !e.LedgerIncrement?)
  {
    var t := Remove(s, site, p, Destroy).0;
    assert t.log[|s.log|..] == [] || t.log[|s.log|..] == [LedgerDestroy(site, p), QueueDecommission(p)];
  }

  /** A proxy that is not too old, has both counter entries and whose drain obtains the
      lock has its counts folded into the ledger, and keeps its active relationship iff
      the rule does not evict it. */
  lemma EvaluateDecides(s: State, site: SiteId, p: ProxyId, now: int, cfg: Config, trustSampleSize: bool)
    requires cfg.Valid() && !ProxyTooOld(LastUsed(s.pool, p), now, cfg) && HasCounters(s, p)
    ensures var (t, st) := Evaluate(s, site, p, now, cfg, trustSampleSize, true);
      var report := CurrentReport(s, p);
      |t.log| > |s.log| && t.log[|s.log|] == LedgerIncrement(site, p, report.timesSucceeded, report.timesFailed)
      && (p in t.active <==> p in s.active && !ShouldDisable(report, trustSampleSize, cfg))
      && (ShouldDisable(report, trustSampleSize, cfg) ==> p !in t.pool && (st == Completed <==> p in s.active))
      && (!ShouldDisable(report, trustSampleSize, cfg) ==> st == Completed && t.pool == s.pool)
  {
  }

  /** A proxy that is not too old but lacks a success or a failure entry stops the
      evaluation at its drain: its counters are zeroed, nothing is written to the ledger
      and it is neither forgotten nor disabled. */
  lemma EvaluateMissingCounter(s: State, site: SiteId, p: ProxyId, now: int, cfg: Config, trustSampleSize: bool)
    requires cfg.Valid() && !ProxyTooOld(LastUsed(s.pool, p), now, cfg) && !HasCounters(s, p)
    ensures var (t, st) := Evaluate(s, site, p, now, cfg, trustSampleSize, true);
      st == Raised && t.log == s.log && t.pool == s.pool && t.active == s.active
      && Count(t.successes, p) == 0 && Count(t.failures, p) == 0
  {
    DrainMissingCounter(s, site, p);
  }

  /** When the drain cannot obtain the lock, nothing changes and the evaluation stops. */
  lemma EvaluateWithoutLock(s: State, site: SiteId, p: ProxyId, now: int, cfg: Config, trustSampleSize: bool)
    requires cfg.Valid() && !ProxyTooOld(LastUsed(s.pool, p), now, cfg)
    ensures Evaluate(s, site, p, now, cfg, trustSampleSize, false) == (s, Raised)
  {
  }

  /** Evaluating one proxy changes no other proxy's entries and only appends effects. */
  lemma EvaluateLocal(s: State, site: SiteId, p: ProxyId, now: int, cfg: Config,
                      trustSampleSize: bool, lockAcquired: bool)
    requires cfg.Valid()
    ensures var (t, _) := Evaluate(s, site, p, now, cfg, trustSampleSize, lockAcquired);
      s.log <= t.log && forall k :: k != p ==> EntryOf(t, k) == EntryOf(s, k)
  {
    if ProxyTooOld(LastUsed(s.pool, p), now, cfg) {
      RemoveEffect(s, site, p, Destroy);
    } else {
      EvaluateAfterDrain(s, site, p, now, cfg, trustSampleSize, lockAcquired);
      var d := GenerateProxyReport(s, site, p, lockAcquired);
      if lockAcquired && HasCounters(s, p) {
        DrainEffect(s, site, p);
        if ShouldDisable(d.0, trustSampleSize, cfg) {
          RemoveEffect(d.1, site, p, SoftDelete);
        }
      } else if lockAcquired {
        DrainMissingCounter(s, site, p);
      }
    }
  }

  /** A completed evaluation leaves the proxy with no unreported successes or failures:
      it was either drained or removed. */
  lemma EvaluateClearsCounters(s: State, site: SiteId, p: ProxyId, now: int, cfg: Config,
                               trustSampleSize: bool, lockAcquired: bool)
    requires cfg.Valid()
    requires Evaluate(s, site, p, now, cfg, trustSampleSize, lockAcquired).1 == Completed
    ensures var t := Evaluate(s, site, p, now, cfg, trustSampleSize, lockAcquired).0;
      Count(t.successes, p) == 0 && Count(t.failures, p) == 0
  {
    if !ProxyTooOld(LastUsed(s.pool, p), now, cfg) {
      assert lockAcquired;
      var drain := GenerateProxyReport(s, site, p, true);
      var report, drained := drain.0, drain.1;
      assert drained.successes[p] == 0 && drained.failures[p] == 0;
      if ShouldDisable(report, trustSampleSize, cfg) {
        var t := Remove(drained, site, p, SoftDelete).0;
        assert p !in t.successes && p !in t.failures;
      }
    }
  }

  // ---------------------------------------------------------------------------
  // Analyses
  // ---------------------------------------------------------------------------

  /** `request_more_proxies`: ask for more proxies iff the pool is below the minimum. */
  function RequestMore(s: State, site: SiteId, minProxies: int): State {
    if |s.pool| < minProxies then s.(log := s.log + [ProxyRequestorRun(site)]) else s
  }

  /** The requestor runs exactly when the pool is below its minimum. */
  lemma RequestMoreIff(s: State, site: SiteId, minProxies: int)
    ensures |s.pool| < minProxies ==> RequestMore(s, site, minProxies).log == s.log + [ProxyRequestorRun(site)]
    ensures |s.pool| >= minProxies ==> RequestMore(s, site, minProxies) == s
  {
  }

  /** Evaluate the proxies of `order` one after another; the first raised exception
      stops the sweep. */
  function Sweep(s: State, site: SiteId, order: seq<ProxyId>, now: int, cfg: Config,
                 lockFailures: set<ProxyId>): (State, Status)
    requires cfg.Valid()
    decreases |order|
  {
    if order == [] then (s, Completed)
    else
      var (t, st) := Evaluate(s, site, order[0], now, cfg, false, order[0] !in lockFailures);
      if st == Raised then (t, Raised)
      else Sweep(t, site, order[1..], now, cfg, lockFailures)
  }

  /** One step of a sweep: evaluate the first proxy, then sweep the rest unless it raised. */
  lemma {:induction false} SweepStep(s: State, site: SiteId, order: seq<ProxyId>, now: int, cfg: Config,
                                      lockFailures: set<ProxyId>)
    requires cfg.Valid() && order != []
    ensures Evaluate(s, site, order[0], now, cfg, false, order[0] !in lockFailures).1 == Raised ==>
      Sweep(s, site, order, now, cfg, lockFailures)
        == Evaluate(s, site, order[0], now, cfg, false, order[0] !in lockFailures)
    ensures Evaluate(s, site, order[0], now, cfg, false, order[0] !in lockFailures).1 == Completed ==>
      Sweep(s, site, order, now, cfg, lockFailures)
        == Sweep(Evaluate(s, site, order[0], now, cfg, false, order[0] !in lockFailures).0,
                 site, order[1..], now, cfg, lockFailures)
  {
  }

  /** A sweep leaves every proxy outside its order exactly as it was, and only appends
      effects. */
  lemma {:induction false} SweepLocal(s: State, site: SiteId, order: seq<ProxyId>, now: int,
                                      cfg: Config, lockFailures: set<ProxyId>)
    requires cfg.Valid()
    ensures var (t, _) := Sweep(s, site, order, now, cfg, lockFailures);
      s.log <= t.log && forall k :: k !in order ==> EntryOf(t, k) == EntryOf(s, k)
    decreases |order|
  {
    if order != [] {
      var p, rest := order[0], order[1..];
      var e := Evaluate(s, site, p, now, cfg, false, p !in lockFailures);
      SweepStep(s, site, order, now, cfg, lockFailures);
      EvaluateLocal(s, site, p, now, cfg, false, p !in lockFailures);
      if e.1 == Completed {
        SweepLocal(e.0, site, rest, now, cfg, lockFailures);
        var t := Sweep(s, site, order, now, cfg, lockFailures).0;
        forall k | k !in order ensures EntryOf(t, k) == EntryOf(s, k) {
          assert k !in rest by {
            forall i | 0 <= i < |rest| ensures rest[i] != k {
              assert rest[i] == order[i + 1];
            }
          }
        }
      }
    }
  }

  /** No proxy occurs twice in the order. */
  predicate Distinct(order: seq<ProxyId>) {
    forall i, j :: 0 <= i < j < |order| ==> order[i] != order[j]
  }

  /** The tail of an order without repetitions has none either, and lacks the head. */
  lemma DistinctTail(order: seq<ProxyId>)
    requires order != [] && Distinct(order)
    ensures Distinct(order[1..]) && order[0] !in order[1..]
  {
    var rest := order[1..];
    forall i, j | 0 <= i < j < |rest| ensures rest[i] != rest[j] {
      assert rest[i] == order[i + 1] && rest[j] == order[j + 1];
    }
    forall i | 0 <= i < |rest| ensures rest[i] != order[0] {
      assert rest[i] == order[i + 1];
    }
  }

  /** A sweep that completes over distinct proxies leaves every one of them with no
      unreported successes or failures. */
  lemma {:induction false} SweepClearsCounters(s: State, site: SiteId, order: seq<ProxyId>, now: int,
                                               cfg: Config, lockFailures: set<ProxyId>)
    requires cfg.Valid() && Distinct(order)
    requires Sweep(s, site, order, now, cfg, lockFailures).1 == Completed
    ensures var t := Sweep(s, site, order, now, cfg, lockFailures).0;
      forall k :: k in order ==> Count(t.successes, k) == 0 && Count(t.failures, k) == 0
    decreases |order|
  {
    if order != [] {
      var p, rest := order[0], order[1..];
      var e := Evaluate(s, site, p, now, cfg, false, p !in lockFailures);
      SweepStep(s, site, order, now, cfg, lockFailures);
      EvaluateClearsCounters(s, site, p, now, cfg, false, p !in lockFailures);
      DistinctTail(order);
      SweepClearsCounters(e.0, site, rest, now, cfg, lockFailures);
      SweepLocal(e.0, site, rest, now, cfg, lockFailures);
      var t := Sweep(s, site, order, now, cfg, lockFailures).0;
      assert EntryOf(t, p) == EntryOf(e.0, p);
      forall k | k in order
        ensures Count(t.successes, k) == 0 && Count(t.failures, k) == 0
      {
        if k != p {
          var i :| 0 <= i < |order| && order[i] == k;
          assert rest[i - 1] == k;
        }
      }
    }
  }

  /** The site was used within the age timeout: some pooled proxy is newer than
      `now - proxy_age_timeout`. */
  ghost predicate UsedRecently(pool: map<ProxyId, int>, now: int, cfg: Config) {
    exists k :: k in pool && pool[k] > now - cfg.proxyAgeTimeout
  }

  /** Comparing only the most recently used timestamp with the age threshold decides
      whether any pooled proxy was used recently. */
  lemma MostRecentDecidesRecency(pool: map<ProxyId, int>, p: ProxyId, now: int, cfg: Config)
    requires IsMostRecent(pool, p)
    ensures pool[p] > now - cfg.proxyAgeTimeout <==> UsedRecently(pool, now, cfg)
  {
    if UsedRecently(pool, now, cfg) {
      var k :| k in pool && pool[k] > now - cfg.proxyAgeTimeout;
      assert pool[k] <= pool[p];
    }
  }

  /** `global_performance_analysis!`: note whether the site was used recently before
      touching anything, sweep its active proxies, then, only if it was used recently and
      the sweep completed, request more proxies when under the minimum. */
  ghost function GlobalAnalysis(s: State, site: SiteId, order: seq<ProxyId>, now: int, cfg: Config,
                                lockFailures: set<ProxyId>, minProxies: int): (State, Status)
    requires cfg.Valid()
  {
    var (t, st) := Sweep(s, site, order, now, cfg, lockFailures);
    if st == Completed && UsedRecently(s.pool, now, cfg) then (RequestMore(t, site, minProxies), Completed)
    else (t, st)
  }

  /** A site with an empty pool, or whose newest timestamp is older than the age timeout,
      gets no request for more proxies from the sweep. */
  lemma GlobalAnalysisNeedsRecentUse(s: State, site: SiteId, order: seq<ProxyId>, now: int, cfg: Config,
                                     lockFailures: set<ProxyId>, minProxies: int)
    requires cfg.Valid()
    requires s.pool == map[] || forall k :: k in s.pool ==> s.pool[k] <= now - cfg.proxyAgeTimeout
    ensures GlobalAnalysis(s, site, order, now, cfg, lockFailures, minProxies)
      == Sweep(s, site, order, now, cfg, lockFailures)
  {
  }

  /** A sweep whose first proxy is not too old but lacks a success or a failure entry
      stops there: the sweep raises, the ledger gets nothing and no more proxies are
      requested, whether or not the site was used recently. */
  lemma GlobalAnalysisStopsAtMissingCounter(s: State, site: SiteId, order: seq<ProxyId>, now: int, cfg: Config,
                                            lockFailures: set<ProxyId>, minProxies: int)
    requires cfg.Valid() && order != []
    requires !ProxyTooOld(LastUsed(s.pool, order[0]), now, cfg) && !HasCounters(s, order[0])
    ensures var (t, st) := GlobalAnalysis(s, site, order, now, cfg, lockFailures, minProxies);
      st == Raised && t.log == s.log
  {
    SweepStep(s, site, order, now, cfg, lockFailures);
    if order[0] !in lockFailures {
      EvaluateMissingCounter(s, site, order[0], now, cfg, false);
    }
  }

  /** `proxy_performance_analysis!`: evaluate one proxy trusting the sample size, then
      request more proxies when under the minimum. */
  function TargetedAnalysis(s: State, site: SiteId, p: ProxyId, now: int, cfg: Config,
                            lockAcquired: bool, minProxies: int): (State, Status)
    requires cfg.Valid()
  {
    var (t, st) := Evaluate(s, site, p, now, cfg, true, lockAcquired);
    if st == Completed then (RequestMore(t, site, minProxies), Completed) else (t, st)
  }

  /** The targeted analysis bypasses the sample-size gate: an active, recent proxy whose
      drained ratio is below the threshold is disabled even from a tiny sample, while the
      same proxy in a sweep is kept when the sample is too small. */
  lemma TargetedAnalysisTrustsSample(s: State, site: SiteId, p: ProxyId, now: int, cfg: Config,
                                     minProxies: int)
    requires cfg.Valid() && p in s.active && !ProxyTooOld(LastUsed(s.pool, p), now, cfg)
    requires HasCounters(s, p) && BelowSuccessRatio(CurrentReport(s, p), cfg)
    ensures p !in TargetedAnalysis(s, site, p, now, cfg, true, minProxies).0.active
    ensures !LargeEnoughSample(CurrentReport(s, p), cfg) ==>
      p in Sweep(s, site, [p], now, cfg, {}).0.active
  {
  }
}
