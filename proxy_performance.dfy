/** The durable performance ledger: one row per site/proxy pair with cumulative counts. */
module Ledger {
  import opened Types
  import Pool
  import Sites

  class ProxyPerformance {
    const site: SiteId
    const proxy: ProxyId
    var timesSucceeded: int
    var timesFailed: int

    constructor (site: SiteId, proxy: ProxyId, timesSucceeded: int, timesFailed: int)
      ensures this.site == site && this.proxy == proxy
      ensures this.timesSucceeded == timesSucceeded && this.timesFailed == timesFailed
    {
      this.site := site;
      this.proxy := proxy;
      this.timesSucceeded := timesSucceeded;
      this.timesFailed := timesFailed;
    }

    /** Add a drained report's counts to the cumulative ones. */
    method Increment(timesSucceeded: int, timesFailed: int)
      modifies this
      ensures this.timesSucceeded == old(this.timesSucceeded) + timesSucceeded
      ensures this.timesFailed == old(this.timesFailed) + timesFailed
      ensures timesSucceeded == 0 && timesFailed == 0 ==> unchanged(this)
    {
      this.timesSucceeded := this.timesSucceeded + timesSucceeded;
      this.timesFailed := this.timesFailed + timesFailed;
    }
  }

  /** The ledger side of a site's `LedgerIncrement` effect: the row of that site/proxy
      pair is incremented by exactly the counts the drain produced. */
  method ApplyIncrement(row: ProxyPerformance, e: Event)
    requires e.LedgerIncrement? && e.site == row.site && e.proxy == row.proxy
    modifies row
    ensures row.timesSucceeded == old(row.timesSucceeded) + e.timesSucceeded
    ensures row.timesFailed == old(row.timesFailed) + e.timesFailed
  {
    row.Increment(e.timesSucceeded, e.timesFailed);
  }

  /** `generate_proxy_report` followed by the ledger's `increment` on the row of that
      site/proxy pair: when the drain completes, the row's cumulative counts grow by
      exactly the site's former short-term counts, which are now 0; when it raises, the
      row is untouched. */
  method DrainIntoRow(site: Sites.Site, row: ProxyPerformance, p: ProxyId, lockAcquired: bool)
    returns (report: Report, status: Status)
    requires row.site == site.id && row.proxy == p
    modifies site, row
    ensures (report, site.Snapshot(), status) == Pool.GenerateProxyReport(old(site.Snapshot()), site.id, p, lockAcquired)
    ensures status == Completed ==>
      row.timesSucceeded == old(row.timesSucceeded) + Pool.Count(old(site.successes), p)
      && row.timesFailed == old(row.timesFailed) + Pool.Count(old(site.failures), p)
      && Pool.Count(site.successes, p) == 0 && Pool.Count(site.failures, p) == 0
    ensures status == Raised ==> unchanged(row)
  {
    ghost var s0 := site.Snapshot();
    report, status := site.GenerateProxyReport(p, lockAcquired);
    if status == Completed {
      assert lockAcquired && Pool.HasCounters(s0, p);
      Pool.DrainEffect(s0, site.id, p);
      ApplyIncrement(row, site.log[|site.log| - 1]);
    }
  }
}
