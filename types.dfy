/** Values shared by the pool manager, the client reservation cache and the ledger. */
module Types {

  /** Database ids of proxies and sites. */
  type ProxyId = int
  type SiteId = int

  datatype Option<+T> = None | Some(value: T)

  /** The three answers of a selection: a usable proxy (`Proxy`), a proxy that is not
      cold enough yet (`Proxy::NotReady`), or nothing (`Proxy::NoProxy`). */
  datatype SelectResult =
    | Found(proxy: ProxyId)
    | NotReady(proxyTs: int, thresholdTs: int, proxyId: ProxyId)
    | NoProxy
  {
    /** Seconds until the candidate becomes cold enough. */
    function Timeout(): int
      requires NotReady?
    {
      proxyTs - thresholdTs
    }
  }

  /** The result of draining a proxy's short-term counters. `NoPerformanceReport`
      stands for a drain that produced no counts. */
  datatype Report =
    | NoPerformanceReport
    | PerformanceReport(timesSucceeded: nat, timesFailed: nat)
  {
    /** The sample size: every success and every failure counts once. */
    function Total(): (t: nat)
      requires PerformanceReport?
      ensures t >= timesSucceeded && t >= timesFailed
      ensures t == 0 <==> timesSucceeded == 0 && timesFailed == 0
    {
      timesSucceeded + timesFailed
    }
  }

  /** The pair read from the pool's most (or least) recently used end; both parts are
      absent when the pool is empty. */
  datatype ProxyInfo = ProxyInfo(proxyId: Option<ProxyId>, proxyTs: Option<int>)

  /** Effects the core hands to collaborators it does not own: the job queue, the proxy
      requestor, the performance ledger and the proxy directory. */
  datatype Event =
    | SitePerformanceAnalyzerJob(site: SiteId)
    | TargetedPerformanceAnalyzerJob(site: SiteId, proxy: ProxyId)
    | ProxyRequestorRun(site: SiteId)
    | LedgerIncrement(site: SiteId, proxy: ProxyId, timesSucceeded: nat, timesFailed: nat)
    | LedgerDestroy(site: SiteId, proxy: ProxyId)
    | LedgerSoftDelete(site: SiteId, proxy: ProxyId)
    | QueueDecommission(proxy: ProxyId)

  /** Whether an operation ran to its end or stopped at a raised Ruby exception. */
  datatype Status = Completed | Raised

  /** What the removal wrapper does to the ledger row: `forget_proxy` destroys it,
      `disable_proxy` soft-deletes it. */
  datatype LedgerAction = Destroy | SoftDelete

  /** The configuration the health evaluator reads. The success ratio threshold is the
      exact fraction ratioNum / ratioDen. */
  datatype Config = Config(failureThreshold: int, ratioNum: int, ratioDen: int, proxyAgeTimeout: int)
  {
    /** A ratio in [0, 1): a threshold of 1 would divide by zero in the sample size. */
    predicate Valid() {
      0 <= ratioNum < ratioDen
    }
  }
}
