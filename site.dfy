/** A site and its proxy pool: the three score maps updated in place, each operation
    proved against its transition in module `Pool`. */
module Sites {
  import opened Types
  import opened Pool

  class Site {
    const id: SiteId
    const minProxies: int
    const maxProxies: int

    /** Last-used unix time of each pooled proxy; 0 means never used. */
    var pool: map<ProxyId, int>
    /** Successes since the last drain. */
    var successes: map<ProxyId, nat>
    /** Failures since the last drain. */
    var failures: map<ProxyId, nat>
    /** Proxies whose performance row for this site is active (not soft-deleted). */
    var active: set<ProxyId>
    /** Jobs enqueued, requestor runs, ledger writes and decommission signals, in order. */
    var log: seq<Event>

    ghost function Snapshot(): State
      reads this
    {
      State(pool, successes, failures, active, log)
    }

    constructor (id: SiteId, minProxies: int, maxProxies: int, active: set<ProxyId>)
      ensures this.id == id && this.minProxies == minProxies && this.maxProxies == maxProxies
      ensures Snapshot() == State(map[], map[], map[], active, [])
    {
      this.id := id;
      this.minProxies := minProxies;
      this.maxProxies := maxProxies;
      this.pool := map[];
      this.successes := map[];
      this.failures := map[];
      this.active := active;
      this.log := [];
    }

    /** The number of proxies currently in the site's pool. */
    function NumProxies(): (n: nat)
      reads this
      ensures n == 0 <==> pool == map[]
    {
      assert (forall p :: p !in pool) ==> pool == map[];
      assert pool != map[] ==> |pool| > 0 by {
        if pool != map[] {
          var p :| p in pool;
          assert p in pool.Keys;
        }
      }
      |pool|
    }

    /** The number of proxies still needed to fill the pool up to its maximum. */
    function NumProxiesNeeded(): (needed: int)
      reads this
      ensures needed == maxProxies <==> pool == map[]
      ensures needed <= maxProxies
    {
      maxProxies - NumProxies()
    }

    /** Stamp the proxy with the current time. */
    method TouchProxy(p: ProxyId, now: int)
      modifies this`pool
      ensures Snapshot() == Touch(old(Snapshot()), p, now)
    {
      pool := pool[p := now];
    }

    /** Take a least recently used proxy, stamp it before deciding, and answer with it,
        with NotReady, or with NoProxy (enqueueing an analysis of the site when the pool
        is empty). */
    method SelectProxy(olderThan: int, now: int, directory: set<ProxyId>) returns (r: SelectResult)
      modifies this`pool, this`log
      ensures Selected(old(Snapshot()), Snapshot(), r, id, olderThan, now, directory)
    {
      ghost var s0 := Snapshot();
      var candidate: Option<ProxyId> := None;
      var proxyTs := 0;
      // under the pool lock: read the low end of the pool and stamp it
      if pool != map[] {
        LeastRecentExists(pool);
        var p :| IsLeastRecent(pool, p);
        candidate, proxyTs := Some(p), pool[p];
        TouchProxy(p, now);
      }
      var threshold := now - olderThan;
      match candidate {
        case None =>
          log := log + [SitePerformanceAnalyzerJob(id)];
          r := NoProxy;
        case Some(p) =>
          if proxyTs > threshold {
            r := NotReady(proxyTs, threshold, p);
          } else if p in directory {
            r := Found(p);
          } else {
            r := NoProxy;
          }
          assert IsLeastRecent(s0.pool, p) && Snapshot() == Touch(s0, p, now)
            && r == Classify(s0.pool[p], p, threshold, directory);
      }
    }

    /** Put a proxy in the pool as never used. */
    method EnableProxy(p: ProxyId)
      modifies this`pool
      ensures Snapshot() == Enable(old(Snapshot()), p)
      ensures p in pool && pool[p] == 0
      ensures NumProxiesNeeded() == old(NumProxiesNeeded()) - (if p in old(pool) then 0 else 1)
    {
      EnableGrowsPool(Snapshot(), p);
      pool := pool[p := 0];
    }

    /** Record a success for an active relationship; ignore it otherwise. */
    method ProxySucceeded(p: ProxyId, now: int)
      modifies this`pool, this`successes
      ensures Snapshot() == Succeeded(old(Snapshot()), p, now)
    {
      if p !in active {
        return;
      }
      TouchProxy(p, now);
      successes := successes[p := Count(successes, p) + 1];
    }

    /** Record a failure for an active relationship, enqueueing a targeted analysis once
        the failure count reaches the threshold; ignore it otherwise. */
    method ProxyFailed(p: ProxyId, now: int, cfg: Config)
      modifies this`pool, this`failures, this`log
      ensures Snapshot() == Failed(old(Snapshot()), id, p, now, cfg)
    {
      if p !in active {
        return;
      }
      TouchProxy(p, now);
      var numFailures := Count(failures, p) + 1;
      failures := failures[p := numFailures];
      if numFailures >= cfg.failureThreshold {
        log := log + [TargetedPerformanceAnalyzerJob(id, p)];
      }
    }

    /** The most recently used proxy and its timestamp, both absent for an empty pool. */
    method LatestProxyInfo() returns (info: ProxyInfo)
      ensures info.proxyId.None? <==> pool == map[]
      ensures info.proxyTs.None? <==> pool == map[]
      ensures info.proxyId.Some? ==>
        IsMostRecent(pool, info.proxyId.value) && info.proxyTs == Some(pool[info.proxyId.value])
    {
      if pool == map[] {
        info := ProxyInfo(None, None);
      } else {
        MostRecentExists(pool);
        var p :| IsMostRecent(pool, p);
        info := ProxyInfo(Some(p), Some(pool[p]));
      }
    }

    /** Delete the proxy from all three maps, then run the ledger action on its active
        relationship, then signal decommission. */
    method ProxyRemovalWrapper(p: ProxyId, action: LedgerAction) returns (status: Status)
      modifies this
      ensures (Snapshot(), status) == Remove(old(Snapshot()), id, p, action)
    {
      // under the pool lock
      pool := pool - {p};
      successes := successes - {p};
      failures := failures - {p};
      if p !in active {
        // the ledger action is sent to a missing relationship and raises
        return Raised;
      }
      active := active - {p};
      log := log + [LedgerEvent(id, p, action), QueueDecommission(p)];
      status := Completed;
    }

    /** Remove the proxy and destroy its relationship row. */
    method ForgetProxy(p: ProxyId) returns (status: Status)
      modifies this
      ensures (Snapshot(), status) == Remove(old(Snapshot()), id, p, Destroy)
    {
      status := ProxyRemovalWrapper(p, Destroy);
    }

    /** Remove the proxy and soft-delete its relationship row. */
    method DisableProxy(p: ProxyId) returns (status: Status)
      modifies this
      ensures (Snapshot(), status) == Remove(old(Snapshot()), id, p, SoftDelete)
    {
      status := ProxyRemovalWrapper(p, SoftDelete);
    }

    /** Fold a drained report into the ledger. */
    method UpdateLongTermPerformance(p: ProxyId, report: Report) returns (status: Status)
      modifies this`log
      ensures (Snapshot(), status) == Pool.UpdateLongTermPerformance(old(Snapshot()), id, p, report)
    {
      match report {
        case PerformanceReport(ok, failed) =>
          log := log + [LedgerIncrement(id, p, ok, failed)];
          status := Completed;
        case NoPerformanceReport =>
          status := Raised;
      }
    }

    /** Read both counters and reset them to 0 under the pool lock, then fold the report
        into the ledger; a missing counter entry makes the ledger increment raise. */
    method GenerateProxyReport(p: ProxyId, lockAcquired: bool) returns (report: Report, status: Status)
      modifies this`successes, this`failures, this`log
      ensures (report, Snapshot(), status) == Pool.GenerateProxyReport(old(Snapshot()), id, p, lockAcquired)
    {
      report := NoPerformanceReport;
      if lockAcquired {
        var counted := p in successes && p in failures;
        if counted {
          report := PerformanceReport(successes[p], failures[p]);
        }
        successes := successes[p := 0];
        failures := failures[p := 0];
        if !counted {
          // the increment receives a nil count and raises before saving
          return NoPerformanceReport, Raised;
        }
      }
      status := UpdateLongTermPerformance(p, report);
    }

    /** Forget a too-old proxy; otherwise drain it and disable it when its trusted
        success ratio is below the threshold. */
    method DisableProxyIfBad(p: ProxyId, now: int, cfg: Config, trustSampleSize: bool, lockAcquired: bool)
      returns (status: Status)
      requires cfg.Valid()
      modifies this
      ensures (Snapshot(), status) == Evaluate(old(Snapshot()), id, p, now, cfg, trustSampleSize, lockAcquired)
    {
      ghost var s0 := Snapshot();
      if ProxyTooOld(LastUsed(pool, p), now, cfg) {
        status := ForgetProxy(p);
      } else {
        var report;
        report, status := GenerateProxyReport(p, lockAcquired);
        ghost var drained := Pool.GenerateProxyReport(s0, id, p, lockAcquired);
        assert report == drained.0 && Snapshot() == drained.1 && status == drained.2;
        EvaluateAfterDrain(s0, id, p, now, cfg, trustSampleSize, lockAcquired);
        if status == Completed && ShouldDisable(report, trustSampleSize, cfg) {
          status := DisableProxy(p);
        }
      }
    }

    /** Ask the requestor for more proxies when the pool is below its minimum. */
    method RequestMoreProxies()
      modifies this`log
      ensures Snapshot() == RequestMore(old(Snapshot()), id, minProxies)
    {
      if NumProxies() < minProxies {
        log := log + [ProxyRequestorRun(id)];
      }
    }

    /** Sweep every active proxy of the site (`order` is the order in which the active
        relationships are listed), then request more proxies if the site was used within
        the age timeout before the sweep. */
    method GlobalPerformanceAnalysis(order: seq<ProxyId>, now: int, cfg: Config, lockFailures: set<ProxyId>)
      returns (status: Status)
      requires cfg.Valid()
      requires multiset(order) == multiset(active)
      modifies this
      ensures (Snapshot(), status) == GlobalAnalysis(old(Snapshot()), id, order, now, cfg, lockFailures, minProxies)
    {
      ghost var s0 := Snapshot();
      var latest := LatestProxyInfo();
      var cachedTs := latest.proxyTs;
      status := Completed;
      var i := 0;
      while i < |order| && status == Completed
        invariant 0 <= i <= |order|
        invariant Sweep(s0, id, order, now, cfg, lockFailures)
          == if status == Completed then Sweep(Snapshot(), id, order[i..], now, cfg, lockFailures)
             else (Snapshot(), Raised)
      {
        SweepStep(Snapshot(), id, order[i..], now, cfg, lockFailures);
        assert order[i..][1..] == order[i + 1..];
        status := DisableProxyIfBad(order[i], now, cfg, false, order[i] !in lockFailures);
        i := i + 1;
      }
      assert Sweep(s0, id, order, now, cfg, lockFailures) == (Snapshot(), status);
      assert UsedRecently(s0.pool, now, cfg) <==> cachedTs.Some? && cachedTs.value > now - cfg.proxyAgeTimeout by {
        if s0.pool != map[] {
          MostRecentDecidesRecency(s0.pool, latest.proxyId.value, now, cfg);
        }
      }
      if status == Completed && cachedTs.Some? && cachedTs.value > now - cfg.proxyAgeTimeout {
        RequestMoreProxies();
      }
    }

    /** Evaluate one proxy trusting its sample size, then request more proxies when the
        pool is below its minimum. */
    method ProxyPerformanceAnalysis(p: ProxyId, now: int, cfg: Config, lockAcquired: bool)
      returns (status: Status)
      requires cfg.Valid()
      modifies this
      ensures (Snapshot(), status) == TargetedAnalysis(old(Snapshot()), id, p, now, cfg, lockAcquired, minProxies)
    {
      status := DisableProxyIfBad(p, now, cfg, true, lockAcquired);
      if status == Completed {
        RequestMoreProxies();
      }
    }
  }
}
