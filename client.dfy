/** The per-client reservation cache. A client remembers, per site, a proxy that a
    selection found not ready yet, with the timestamp it had then, and answers later
    calls from that reservation instead of selecting again. */
module Clients {
  import opened Types
  import opened Pool
  import opened Sites

  /** What `get_proxy` gives back: a selection answer, or the record-not-found error
      raised when a cold reservation names a proxy the directory no longer has. */
  datatype Reply = Answer(result: SelectResult) | RecordNotFound

  /** A reservation outlives the proxy's removal from the site: stamping the reserved
      proxy, as answering from the reservation does, puts a removed proxy back in the
      site's pool with no counters and no active relationship. */
  lemma StampAfterRemovalRestores(s: State, site: SiteId, p: ProxyId, action: LedgerAction, now: int)
    ensures var t := Pool.Touch(Remove(s, site, p, action).0, p, now);
      p in t.pool && t.pool[p] == now
      && p !in t.successes && p !in t.failures && p !in t.active
      && |t.pool| == |s.pool - {p}| + 1
  {
    var cleared := Remove(s, site, p, action).0;
    assert cleared.pool == s.pool - {p};
    UpdateGrows(cleared.pool, p, now);
  }

  class Client {
    const id: string

    /** Hash `next_proxy_id`: the reserved proxy, per site. */
    var nextProxyId: map<SiteId, ProxyId>
    /** Hash `next_proxy_timestamp`: the reserved proxy's timestamp when it was found
        not ready, per site. */
    var nextProxyTimestamp: map<SiteId, int>
    /** The `keepalive` field of each hash. */
    var idKeepalive: bool
    var timestampKeepalive: bool

    /** The two hashes are written, deleted and expire together, so they hold
        reservations for the same sites. */
    ghost predicate Inv()
      reads this
    {
      nextProxyId.Keys == nextProxyTimestamp.Keys
    }

    /** `valid?`: both hashes exist, i.e. each holds at least one field: a reservation
        or the keepalive. */
    function IsValid(): (valid: bool)
      reads this
      ensures nextProxyId != map[] && nextProxyTimestamp != map[] ==> valid
      ensures idKeepalive && timestampKeepalive ==> valid
      ensures valid && !idKeepalive ==> exists site :: site in nextProxyId
    {
      assert (forall site :: site !in nextProxyId) ==> nextProxyId == map[];
      (nextProxyId != map[] || idKeepalive) && (nextProxyTimestamp != map[] || timestampKeepalive)
    }

    /** `Client.create`: a new client whose hashes are created by a first keepalive. */
    constructor Create(id: string)
      ensures this.id == id && Inv() && IsValid()
      ensures nextProxyId == map[] && nextProxyTimestamp == map[]
    {
      this.id := id;
      nextProxyId := map[];
      nextProxyTimestamp := map[];
      idKeepalive := true;
      timestampKeepalive := true;
    }

    /** Write the keepalive field of both hashes (and restart their expiry). */
    method Touch()
      modifies this`idKeepalive, this`timestampKeepalive
      ensures idKeepalive && timestampKeepalive && IsValid()
    {
      idKeepalive := true;
      timestampKeepalive := true;
    }

    /** Both hashes reach their expiry without a keepalive and vanish. */
    method Expire()
      modifies this
      ensures Inv() && !IsValid()
      ensures nextProxyId == map[] && nextProxyTimestamp == map[]
    {
      nextProxyId := map[];
      nextProxyTimestamp := map[];
      idKeepalive := false;
      timestampKeepalive := false;
    }

    /** Drop the site's reservation from both hashes; other sites' reservations and the
        keepalive fields stay. */
    method Delete(site: Site)
      requires Inv()
      modifies this`nextProxyId, this`nextProxyTimestamp
      ensures Inv()
      ensures nextProxyId == old(nextProxyId) - {site.id}
      ensures nextProxyTimestamp == old(nextProxyTimestamp) - {site.id}
      ensures old(idKeepalive && timestampKeepalive) ==> IsValid()
    {
      nextProxyId := nextProxyId - {site.id};
      nextProxyTimestamp := nextProxyTimestamp - {site.id};
    }

    /** Remember the proxy and its timestamp for the site, stamp it in the site's pool,
        and refresh the keepalive. */
    method ReserveProxy(site: Site, p: ProxyId, proxyTs: int, now: int)
      requires Inv()
      modifies this, site`pool
      ensures Inv() && IsValid() && idKeepalive && timestampKeepalive
      ensures nextProxyId == old(nextProxyId)[site.id := p]
      ensures nextProxyTimestamp == old(nextProxyTimestamp)[site.id := proxyTs]
      ensures site.Snapshot() == Pool.Touch(old(site.Snapshot()), p, now)
    {
      nextProxyId := nextProxyId[site.id := p];
      nextProxyTimestamp := nextProxyTimestamp[site.id := proxyTs];
      site.TouchProxy(p, now);
      Touch();
    }

    /** Answer a proxy request for the site. Without a reservation, select from the pool
        and reserve a not-ready candidate with its original timestamp. With one, answer
        from it: still too recent gives NotReady and keeps it; cold enough gives the
        proxy and drops it; either way the reserved proxy is stamped in the pool. A
        successful call ends with a keepalive. */
    method GetProxy(site: Site, olderThan: int, now: int, directory: set<ProxyId>) returns (reply: Reply)
      requires Inv()
      modifies this, site`pool, site`log
      ensures Inv()
      ensures site.id !in old(nextProxyTimestamp) ==>
        reply.Answer?
        && Selected(old(site.Snapshot()), site.Snapshot(), reply.result, site.id, olderThan, now, directory)
        && (reply.result.NotReady? ==>
              nextProxyId == old(nextProxyId)[site.id := reply.result.proxyId]
              && nextProxyTimestamp == old(nextProxyTimestamp)[site.id := reply.result.proxyTs])
        && (!reply.result.NotReady? ==>
              nextProxyId == old(nextProxyId) && nextProxyTimestamp == old(nextProxyTimestamp))
      ensures site.id in old(nextProxyTimestamp) ==>
        var proxyTs, p, threshold := old(nextProxyTimestamp)[site.id], old(nextProxyId)[site.id], now - olderThan;
        if proxyTs > threshold then
          reply == Answer(NotReady(proxyTs, threshold, p))
          && nextProxyId == old(nextProxyId) && nextProxyTimestamp == old(nextProxyTimestamp)
          && site.Snapshot() == Pool.Touch(old(site.Snapshot()), p, now)
        else if p in directory then
          reply == Answer(Found(p))
          && nextProxyId == old(nextProxyId) - {site.id}
          && nextProxyTimestamp == old(nextProxyTimestamp) - {site.id}
          && site.Snapshot() == Pool.Touch(old(site.Snapshot()), p, now)
        else
          reply == RecordNotFound
          && nextProxyId == old(nextProxyId) && nextProxyTimestamp == old(nextProxyTimestamp)
          && site.Snapshot() == old(site.Snapshot())
      ensures reply.Answer? ==> idKeepalive && timestampKeepalive && IsValid()
      ensures reply.RecordNotFound? ==>
        idKeepalive == old(idKeepalive) && timestampKeepalive == old(timestampKeepalive)
    {
      if site.id !in nextProxyTimestamp {
        var r := site.SelectProxy(olderThan, now, directory);
        if r.NotReady? {
          SelectedNotReadyIsStamped(old(site.Snapshot()), site.Snapshot(), r, site.id, olderThan, now, directory);
          ReserveProxy(site, r.proxyId, r.proxyTs, now);
        }
        reply := Answer(r);
      } else {
        var proxyTs := nextProxyTimestamp[site.id];
        var threshold := now - olderThan;
        var p := nextProxyId[site.id];
        if proxyTs > threshold {
          reply := Answer(NotReady(proxyTs, threshold, p));
        } else {
          if p !in directory {
            return RecordNotFound;
          }
          reply := Answer(Found(p));
          Delete(site);
        }
        site.TouchProxy(p, now);
      }
      Touch();
    }
  }
}
